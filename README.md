# Informatics trainer — a Dafny model of its core

The informatics trainer is a desktop quiz application for school
informatics. A student takes a test of randomly chosen questions. Each
answer is graded, and the result and one row per answer are stored. An
administration panel deletes questions and users, edits questions and
shows statistics. A utility module validates user input and formats
figures.

This project models that core and proves what it promises:

- `Trainer` (trainer.dfy) models the test-session engine of `main.py`.
  - It covers the `Question` record and grading, including the true/false synonym table.
  - `TestManager` is a class whose fields the methods update in place.
  - Its loops (building the question list, counting correct answers, emitting detail rows) are `while` loops with invariants.
- `Store` (store.dfy) models the store-side rules of `admin_panel.py`.
  - Every table is a sequence of rows, and every read-only SQL query is a function of the tables.
  - The two deletions are methods of a `Database` class that reassign its tables. Both methods are proved against specification functions, with lemmas about those functions.
  - It also covers the question editor's option check and `add_question`'s "empty options become NULL" rule.
- `Utils` (utils.dfy) models the validators and formatters of `utils.py`.
  - The password, username and sanitising checks build their results step by step, so they are methods proved against functions.
  - Email validation, time formatting, difficulty names, statistics and scores are functions.
- `Progress` (progress.dfy) models the console `ProgressBar` of the demo-data generator. It is a class whose `Update` moves the counter and draws the bar with Python's floor division.
- The supporting modules are:
  - `Results`: Option and Result.
  - `Text`: Python's `strip`, `lower`, character classes and `str(int)`.
  - `Seqs`: counting, sums, filtering, distinct values, a descending insertion sort and grouped counts.
  - `Schema`: the table rows.

Timestamps are integers (seconds). A calendar day is `t / 86400`. The
clock, the randomly drawn question selection and every id the database
would assign are parameters. Percentages are exact reals.

Three behaviours of the code are easy to misread:

- True/false grading accepts the synonyms "true"/"так"/"1" and "false"/"ні"/"0" for the score (main.py:342-346). The stored detail row's `is_correct` uses plain equality after normalisation (main.py:362-371). The two can disagree, and `Trainer.SynonymScoresButFlaggedWrong` and `Trainer.FlaggedRightButNoScore` exhibit this.
- `start_test` does not filter on the questions' `is_active` flag (main.py:285-291). The selection is taken as given.
- The questions table carries `is_active`, as in database_mysql.py:78-92. The SQLite schema at main.py:45-57 lacks that column, although `delete_question` writes it.

## Model

| member | source | states |
|---|---|---|
| Trainer.QuestionOf | main.py:191-205 | a question row becomes a `Question` with its id, category, type and key; NULL options become the empty list |
| Trainer.IsCorrect | main.py:339-349 | the score rule: for true/false, the normalised answer and key lie in the same synonym set; for other types, they are equal |
| Trainer.DetailFlag | main.py:366 | the stored `is_correct` flag: the normalised answer equals the normalised key, for every type |
| Trainer.TestManager.constructor | main.py:261-267 | a new session has no questions, index 0, no answers and no start time |
| Trainer.TestManager.StartTest | main.py:280-311 | succeeds iff the selection is non-empty; on failure the session is unchanged; on success the questions are the selection in order, the index is 0, no answers are recorded and the start time is `now`; afterwards the number of answers equals the index, which is at most the number of questions |
| Trainer.TestManager.GetCurrentQuestion | main.py:313-317 | returns the question at the index iff the index lies within the question list, None otherwise |
| Trainer.TestManager.SubmitAnswer | main.py:319-326 | with a question pending, appends exactly the answer and advances the index by one; otherwise returns false and changes nothing; keeps the lock-step invariant |
| Trainer.CountCorrect | main.py:336-349 | the scoring loop computes `Score`, the number of answered positions that grade correct |
| Trainer.BuildDetails | main.py:362-371 | the detail loop emits exactly `DetailRows`: one row per answered question, in order, time 30 |
| Trainer.TestManager.FinishTest | main.py:328-381 | no questions gives no result and no rows; otherwise one result row with the first question's category, total, score and elapsed time, the detail rows, and a summary with `correct/total*100`; `0 <= correct <= answered <= total` and the percentage lies in 0..100 |
| Trainer.Verdicts | main.py:337-349 | one verdict per answered position, true iff that answer grades correct |
| Trainer.Score | main.py:336-349 | the score never exceeds the number of questions or of answers |
| Trainer.ScoreExtremes | main.py:336-349 | the score equals the number of answers iff every answer grades correct, and is 0 iff none does |
| Trainer.CountTrueAll | main.py:336-349 | a count equals its range iff every verdict in it is true |
| Trainer.CountTrueNone | main.py:336-349 | a count is 0 iff no verdict in its range is true |
| Trainer.FlagAgreesOffTrueFalse | main.py:347-349 | off true/false questions the detail flag and the grading agree |
| Trainer.SynonymScoresButFlaggedWrong | main.py:342-346 | the answer "1" to the key "True" scores, but its detail row is flagged wrong |
| Trainer.FlaggedRightButNoScore | main.py:342-346 | the answer "yes" to the key "yes" is flagged right, but it never scores |
| Trainer.TrueFalseCaseInsensitive | main.py:339-346 | an example: against the key "True" the answer "TRUE" scores |
| Trainer.GradingIgnoresCase | main.py:339-349 | answers and keys that lower-case alike get the same score verdict and the same detail flag, for every question type |
| Trainer.TrueFalseOthersFail | main.py:342-346 | answers outside both synonym sets do not score |
| Trainer.DetailRows | main.py:362-371 | one row per answered question, at its position |
| Trainer.QuestionsOf | main.py:300-305 | the loaded list has one question per selected row, in order |
| Store.UsageCountZero | admin_panel.py:112-115 | the usage count is 0 iff no answer detail refers to the question |
| Store.QuestionsAfterDelete | admin_panel.py:112-124 | the questions table after the deletion: deactivate when some answer detail refers to the question, otherwise remove it |
| Store.DeleteUsedQuestionKeepsRows | admin_panel.py:117-120 | a question with answers is kept in place: its rows become the same rows with `is_active` cleared, and every other row is unchanged |
| Store.DeleteUnusedQuestionRemovesRow | admin_panel.py:121-124 | a question without answers is removed; every other row keeps its multiplicity |
| Store.DeleteQuestionKeepsConsistency | admin_panel.py:106-131 | after a question deletion every detail row still refers to an existing question |
| Store.Database.DeleteQuestion | admin_panel.py:106-131 | the questions table becomes `QuestionsAfterDelete`; every other table is unchanged; consistency is preserved |
| Store.DeleteUserLeavesNothing | admin_panel.py:249-254 | after the cascade no user row, no result row and no detail row of the user's results is left |
| Store.DeleteUserKeepsOthers | admin_panel.py:249-254 | every other user, result and detail row keeps its multiplicity |
| Store.DeleteUserKeepsConsistency | admin_panel.py:243-260 | the cascade keeps every detail pointing at a result and every result at a user |
| Store.Database.DeleteUser | admin_panel.py:243-260 | details, then results, then the user row are removed as the specification functions say; categories and questions are unchanged; consistency is preserved |
| Store.FilledOptions | admin_panel.py:903-906 | the kept options are the stripped entries that are not empty, in their order; their number is the number of entries non-empty after stripping |
| Store.Strips | admin_panel.py:905-906 | one stripped entry per entry, at the same position |
| Store.ValidateQuestionForm | admin_panel.py:888-910 | "missing fields" iff no category or blank text; "too few options" iff otherwise a multiple-choice question has fewer than 2 filled entries; on success the draft has the chosen category, the stripped text, answer and explanation, the type and difficulty as given, and for multiple choice exactly the filled options (at least 2), for other types none |
| Store.OptionsColumn | admin_panel.py:65 | the stored options are NULL iff the list is empty, otherwise the list itself |
| Store.NewQuestionRow | admin_panel.py:57-79 | the inserted row: the draft's category, text, type, answer, difficulty and explanation, the options column of `OptionsColumn`, and `is_active` at its default true |
| Store.Database.SaveNewQuestion | admin_panel.py:888-916 | a rejected form changes nothing; an accepted one appends exactly the new row built from the draft; a consistent database stays consistent |
| Store.AddQuestionKeepsConsistency | admin_panel.py:57-79 | appending a question row keeps every detail pointing at a question and every result at a user |
| Store.Percent | admin_panel.py:186 | a per-test percentage is NULL iff the test had no questions, and lies in 0..100 for well-formed rows |
| Store.AvgNull | admin_panel.py:186 | `AVG` is NULL iff every value is NULL |
| Store.AvgBounds | admin_panel.py:186 | a mean lies between the bounds of its values |
| Store.AvgSkipsNull | admin_panel.py:186 | `AVG` skips NULLs rather than counting them as 0 |
| Store.JoinCategories | admin_panel.py:194-198 | the inner join of results with categories on the category id, in the order of the results |
| Store.JoinCategoriesSound | admin_panel.py:194-198 | every joined row pairs a result with the name of a category with that id |
| Store.JoinCategoriesComplete | admin_panel.py:194-198 | every result meets every category of its id in the join |
| Store.JoinDifficulties | admin_panel.py:322-329 | the difficulties of the inner join of answer details with questions on the question id |
| Store.JoinDifficultiesSound | admin_panel.py:322-329 | every joined difficulty is that of a question some answer detail names |
| Store.JoinDifficultiesComplete | admin_panel.py:322-329 | every answer detail meets every question of its id in the join |
| Store.GeneralStatistics | admin_panel.py:270-347 | admin plus regular users equals total users; regular users are the non-admins; the test, question and category counts are the table sizes; answered and correct are the column sums; the success rate is `SuccessRate`; the three lists are `DailyActivity`, `CategoryPopularity` and `DifficultyDistribution`; totals are zero and lists empty without tests; no difficulty rows without answers |
| Store.GeneralStatisticsBounds | admin_panel.py:291-299 | over well-formed rows the correct total lies between 0 and the answered total, and the success rate in 0..100 |
| Store.WellFormedTotals | admin_panel.py:291-296 | over well-formed rows the sum of correct answers lies between 0 and the sum of questions |
| Store.SuccessRateBounds | admin_panel.py:297-299 | the average success rate lies in 0..100 |
| Store.SuccessRateIsMeanOfRates | admin_panel.py:297-299 | the success rate is the mean of per-test rates, not the pooled ratio |
| Store.WindowDays | admin_panel.py:302-308 | only days from today minus 30 on appear; each such day appears once per test taken on it, every earlier day not at all |
| Store.DailyActivity | admin_panel.py:302-309 | one row per day with tests in the window, ascending, each counting exactly the tests taken on that day |
| Store.CategoryPopularity | admin_panel.py:312-319 | one row per category name, names distinct, counts exact, sorted by count descending, no name missing |
| Store.DifficultyDistribution | admin_panel.py:322-329 | one row per joined difficulty, ascending, counts exact, no difficulty missing |
| Store.UserGeneral | admin_panel.py:181-189 | the test count is the user's number of results; with tests the three totals are the sums over the user's results, without tests they are NULL; the average is `AVG` of the user's per-test percentages |
| Store.UserGeneralBounds | admin_panel.py:181-189 | over well-formed rows the correct total lies between 0 and the question total, and the average in 0..100 |
| Store.UserAverageIsMeanOfRates | admin_panel.py:186 | the user's average is the mean of per-test rates: tests of 1/1 and 0/3 give 50, not the pooled 25 |
| Store.ScoreGroups | admin_panel.py:194-200 | one group per category name of the user's tests, names pairwise distinct, with its test count and the mean of its percentages |
| Store.OrderByScore | admin_panel.py:201 | a reordering of the groups by average descending, NULL averages last |
| Store.Newest | admin_panel.py:207-215 | the ten newest joined tests (fewer if there are fewer), newest first; none left out is newer than one kept |
| Store.RecentTestsAreNewest | admin_panel.py:207-215 | the recent-test rows are the rows of the newest joined tests, ten of them or all when fewer |
| Store.UserStatistics | admin_panel.py:175-225 | the general row is `UserGeneral`; the category rows are a reordering of the user's `ScoreGroups`, sorted by average with NULLs last; the recent tests are `RecentTests` of the user's joined tests, at most 10, newest first |
| Store.UserRowOf | admin_panel.py:161-167 | a user's row has the user's id, name, email, admin flag and date, the number of the user's tests and `AVG` of their percentages |
| Store.AllUsers | admin_panel.py:156-173 | one row per user, a reordering of the per-user rows, newest registration first, each with its test count |
| Utils.ValidatePasswordStrength | utils.py:36-63 | valid iff at least 6 characters; the only error is "too short", present iff under 6; the score is the number of the five criteria met, at most 5 |
| Utils.StrengthMonotone | utils.py:44-61 | extending a password never lowers its score |
| Utils.FullStrength | utils.py:44-61 | the score is 5 iff all five criteria are met |
| Utils.Any | utils.py:51-61 | true iff some character satisfies the predicate |
| Utils.RemoveChar | utils.py:242 | removing one character keeps exactly the other characters |
| Utils.RemoveCharFilter | utils.py:242 | the result is the input filtered by "not `c`", in order, with every other character's multiplicity kept and none of `c` |
| Utils.RemoveAll | utils.py:240-242 | removing a list of characters keeps exactly the characters outside it |
| Utils.RemoveAllFilter | utils.py:240-242 | the result is the input filtered by "not in the list", in order, with each other character's multiplicity kept |
| Utils.RemoveAllStep | utils.py:240-242 | one more `replace` removes the next listed character from the text so far |
| Utils.SanitizeInput | utils.py:237-244 | the loop computes `Sanitized`, the text with `< > " ' & ;` removed and then stripped |
| Utils.SanitizedSafe | utils.py:237-244 | the output has no dangerous character, only characters of the input, and no outer whitespace |
| Utils.SanitizeIdempotent | utils.py:237-244 | sanitising twice equals sanitising once |
| Utils.BadCharactersRule | utils.py:229-230 | the code's test on the string without `_` and `-` holds iff it is all `_`/`-` or has a non-alphanumeric character other than those |
| Utils.ValidateUsername | utils.py:215-234 | valid iff no errors; "too short" iff under 3, "too long" iff over 50, "bad characters" iff the rule above holds, reported in that order |
| Utils.IndexOf | utils.py:208-212 | the position of the first occurrence, None iff absent |
| Utils.LastIndexOf | utils.py:208-212 | the position of the last occurrence, None iff absent |
| Utils.ValidateEmail | utils.py:208-212 | the check as computed: without one final newline, a non-empty local part before the first `@`, then a domain whose last dot has something before it and at least two letters after it |
| Utils.ValidateEmailMatchesPattern | utils.py:208-212 | `ValidateEmail` accepts iff the address has the shape of the pattern (local part, `@`, domain, last dot, at least two letters), optionally followed by one newline |
| Utils.DifficultyDescription | utils.py:340-347 | "unknown" iff the difficulty is outside 1..3 |
| Utils.DifficultyNamesDistinct | utils.py:340-347 | the three difficulties have distinct names |
| Utils.FormatTime | utils.py:350-361 | under a minute gives seconds; under an hour gives minutes and seconds that recompose the input; otherwise hours and minutes with the rest under a minute |
| Utils.FormatTimeDropsSeconds | utils.py:358-361 | from an hour on, the seconds do not affect the text |
| Utils.CalculateStatistics | utils.py:91-113 | empty input gives none; totals are sums with missing keys as 0; the averages are pooled ratios, 0 without questions |
| Utils.StatisticsOfBatches | utils.py:96-99 | the totals of two batches add up |
| Utils.StatisticsPercentageBounds | utils.py:101-102 | with well-formed records the average percentage lies in 0..100 |
| Utils.StatisticsArePooled | utils.py:101-102 | the average percentage is the pooled ratio, not the mean of per-record rates |
| Utils.TimeBonus | utils.py:331-335 | the bonus lies in 0..10 and is positive iff the average time per question is under 30 |
| Utils.CalculateScore | utils.py:324-337 | 0 without questions; never above 100; at least the capped base score and at most base plus 10; exactly the capped base from 30 seconds per question on |
| Utils.ScoreMonotoneInCorrect | utils.py:324-337 | more correct answers never lower the score |
| Utils.ScoreMonotoneInTime | utils.py:324-337 | more time never raises the score |
| Progress.ProgressBar.constructor | demo_data_generator.py:19-23 | a new bar keeps its total, prefix and length and starts at 0 |
| Progress.ProgressBar.Update | demo_data_generator.py:25-33 | the counter advances by the step, nothing else changes; a zero total fails; otherwise the frame is the bar and `current/total*100` |
| Progress.FloorDiv | demo_data_generator.py:29 | Python's `//`: the quotient rounded down for either sign |
| Progress.Repeat | demo_data_generator.py:30 | `c * n` has `max(n, 0)` copies of `c` |
| Progress.Bar | demo_data_generator.py:29-30 | the bar text: `filled` copies of '█' then `length - filled` copies of '-' |
| Progress.FilledWithin | demo_data_generator.py:29 | between no progress and completion the filled length lies in 0..length |
| Progress.BarShape | demo_data_generator.py:29-30 | between no progress and completion the bar has exactly `length` cells, filled ones first |
| Progress.BarComplete | demo_data_generator.py:29-30 | a finished bar is all '█' |
| Progress.BarEmpty | demo_data_generator.py:29-30 | a bar with no progress is all '-' |
| Progress.FilledMonotone | demo_data_generator.py:29 | more progress never fills fewer cells |
| Text.Strip | utils.py:244 | the result has no outer whitespace and is no longer than the input |
| Text.StripShape | utils.py:244 | `strip` removes whitespace only, and only at the two ends |
| Text.StripIdempotent | utils.py:244 | stripping twice equals stripping once |
| Text.NormalizeIsLowerStrip | main.py:339-340 | the grading normalisation is `strip` followed by `lower` |
| Text.NatToStringRoundTrip | utils.py:352-361 | reading back the decimal text of a number gives the number |

## Left out

- Tkinter screens, dialogs and charts are not modelled. The only exception is the form check of `save_question`.
- SQL connections, DDL, transactions and exceptions are replaced by sequences. Each deletion therefore always succeeds.
- The random question draw (`ORDER BY RANDOM()`) is an input sequence. The shuffles and the random demo-data generator are left out.
- Password hashing, session tokens, exports, file handling, logging and config.py are foreign library calls or I/O.
- `round(x, 2)` and float arithmetic are replaced by exact reals.
- Python's Unicode character classes are restricted. `isupper`, `islower`, `isalnum` and `lower` know ASCII letters, U+0400–U+045F and Ґ/ґ only. Other Cyrillic case pairs such as Ѣ, Ө or Қ count as neither upper nor lower case. `isdigit` knows the ASCII digits only.
- The clock is an integer parameter, and every id the database would assign is a parameter too.
- The printed progress line and the percent formatting are not modelled. `Update` returns the bar and the exact percentage instead.
- Default arguments are not modelled: the bar prefix "Прогрес", the bar length 50 and the question count 10.
- Per-question timing: `question_start_time` is set but never read. Detail rows carry the constant 30.
- Sorting ties: SQL leaves their order unspecified. The model fixes one order but promises none.
- Store.UserStatistics: the contract does not restate which joined tests the ten recent rows are. That is `Store.RecentTestsAreNewest` together with `Store.Newest`.
- QuestionType is a closed enumeration. `save_question` stores the empty type string when no type was chosen (admin_panel.py:820-823, 897). That value cannot be represented here. Grading treats it like any type other than true/false.
- Utils.ValidateUsername: the error texts are an enumeration. `Utils.UsernameMessage` maps each to the Ukrainian message.
