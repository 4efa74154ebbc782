/** The store-side rules of the administration panel (admin_panel.py):
    deleting a question or a user, checking the question editor's form
    and storing a new question, and the read-only statistics queries.
    Every table is a sequence of rows and every SQL query a function of
    the tables. */
module Store {
  import opened Results
  import opened Text
  import opened Schema
  import opened Seqs

  // ---------------------------------------------------------------
  // Referential integrity
  // ---------------------------------------------------------------

  predicate HasUser(users: seq<User>, id: int) {
    exists u :: u in users && u.id == id
  }

  predicate HasResult(results: seq<TestResult>, id: int) {
    exists r :: r in results && r.id == id
  }

  predicate HasQuestion(questions: seq<QuestionRow>, id: int) {
    exists q :: q in questions && q.id == id
  }

  /** Every detail row names an existing result and question, and every
      result row names an existing user. */
  predicate Consistent(users: seq<User>, results: seq<TestResult>,
                       questions: seq<QuestionRow>, details: seq<AnswerDetail>) {
    && (forall d :: d in details ==> HasResult(results, d.testResultId) && HasQuestion(questions, d.questionId))
    && (forall r :: r in results ==> HasUser(users, r.userId))
  }

  // ---------------------------------------------------------------
  // delete_question
  // ---------------------------------------------------------------

  /** `SELECT COUNT(*) FROM answer_details WHERE question_id = ?`. */
  function UsageCount(details: seq<AnswerDetail>, qid: int): nat {
    CountWhere(details, (d: AnswerDetail) => d.questionId == qid)
  }

  /** `UPDATE questions SET is_active = 0 WHERE id = ?`. */
  function Deactivated(questions: seq<QuestionRow>, qid: int): seq<QuestionRow> {
    seq(|questions|, i requires 0 <= i < |questions| =>
      if questions[i].id == qid then questions[i].(isActive := false) else questions[i])
  }

  /** The questions table after `delete_question(qid)`: a question some
      answer refers to is only deactivated, any other is removed. */
  function QuestionsAfterDelete(questions: seq<QuestionRow>, details: seq<AnswerDetail>, qid: int): seq<QuestionRow> {
    if UsageCount(details, qid) > 0 then Deactivated(questions, qid)
    else Filter(questions, (q: QuestionRow) => q.id != qid)
  }

  /** A question in use keeps its place: every row stays where it was,
      the rows with that id only lose their active flag. */
  lemma DeleteUsedQuestionKeepsRows(questions: seq<QuestionRow>, details: seq<AnswerDetail>, qid: int)
    requires UsageCount(details, qid) > 0
    ensures var r := QuestionsAfterDelete(questions, details, qid);
      && |r| == |questions|
      && (forall i :: 0 <= i < |r| && questions[i].id != qid ==> r[i] == questions[i])
      && (forall i :: 0 <= i < |r| && questions[i].id == qid ==> r[i] == questions[i].(isActive := false))
  {
  }

  /** A question nobody answered disappears, and every other row keeps
      its multiplicity. */
  lemma {:induction false} DeleteUnusedQuestionRemovesRow(questions: seq<QuestionRow>, details: seq<AnswerDetail>,
                                                           qid: int, x: QuestionRow)
    requires UsageCount(details, qid) == 0
    ensures var r := QuestionsAfterDelete(questions, details, qid);
      && (x in r <==> x in questions && x.id != qid)
      && (x.id != qid ==> multiset(r)[x] == multiset(questions)[x])
  {
    FilterMember(questions, (q: QuestionRow) => q.id != qid, x);
    FilterMultiset(questions, (q: QuestionRow) => q.id != qid, x);
  }

  /** No answer refers to a question exactly when its usage count is 0. */
  lemma {:induction false} UsageCountZero(details: seq<AnswerDetail>, qid: int)
    ensures UsageCount(details, qid) == 0 <==> forall d :: d in details ==> d.questionId != qid
  {
    if details != [] {
      UsageCountZero(details[1..], qid);
      assert forall d :: d in details <==> d == details[0] || d in details[1..];
    }
  }

  /** Deleting a question keeps the database consistent: a removed
      question had no answers, a deactivated one is still there. */
  lemma DeleteQuestionKeepsConsistency(users: seq<User>, results: seq<TestResult>,
                                       questions: seq<QuestionRow>, details: seq<AnswerDetail>, qid: int)
    requires Consistent(users, results, questions, details)
    ensures Consistent(users, results, QuestionsAfterDelete(questions, details, qid), details)
  {
    var after := QuestionsAfterDelete(questions, details, qid);
    forall d | d in details ensures HasQuestion(after, d.questionId) {
      var q :| q in questions && q.id == d.questionId;
      var i :| 0 <= i < |questions| && questions[i] == q;
      if UsageCount(details, qid) > 0 {
        assert after[i].id == q.id;
        assert after[i] in after;
      } else {
        UsageCountZero(details, qid);
        DeleteUnusedQuestionRemovesRow(questions, details, qid, q);
      }
    }
  }

  // ---------------------------------------------------------------
  // delete_user
  // ---------------------------------------------------------------

  /** `SELECT id FROM test_results WHERE user_id = ?`. */
  function ResultIdsOf(results: seq<TestResult>, uid: int): set<int> {
    set r | r in results && r.userId == uid :: r.id
  }

  /** The three tables `delete_user(uid)` changes, in the order it changes them. */
  function DetailsAfterUserDelete(details: seq<AnswerDetail>, results: seq<TestResult>, uid: int): seq<AnswerDetail> {
    Filter(details, (d: AnswerDetail) => d.testResultId !in ResultIdsOf(results, uid))
  }

  function ResultsAfterUserDelete(results: seq<TestResult>, uid: int): seq<TestResult> {
    Filter(results, (r: TestResult) => r.userId != uid)
  }

  function UsersAfterUserDelete(users: seq<User>, uid: int): seq<User> {
    Filter(users, (u: User) => u.id != uid)
  }

  /** After the cascade nothing of the user is left: no user row, no
      result row, and no detail row of any of the user's results. */
  lemma DeleteUserLeavesNothing(users: seq<User>, results: seq<TestResult>, details: seq<AnswerDetail>,
                                uid: int, u: User, r: TestResult, d: AnswerDetail)
    ensures u in UsersAfterUserDelete(users, uid) ==> u.id != uid
    ensures r in ResultsAfterUserDelete(results, uid) ==> r.userId != uid
    ensures d in DetailsAfterUserDelete(details, results, uid) ==>
      forall x :: x in results && x.userId == uid ==> x.id != d.testResultId
  {
    FilterMember(users, (u: User) => u.id != uid, u);
    FilterMember(results, (r: TestResult) => r.userId != uid, r);
    FilterMember(details, (d: AnswerDetail) => d.testResultId !in ResultIdsOf(results, uid), d);
  }

  /** Every other row survives the cascade with its multiplicity. */
  lemma DeleteUserKeepsOthers(users: seq<User>, results: seq<TestResult>, details: seq<AnswerDetail>,
                              uid: int, u: User, r: TestResult, d: AnswerDetail)
    ensures u.id != uid ==> multiset(UsersAfterUserDelete(users, uid))[u] == multiset(users)[u]
    ensures r.userId != uid ==> multiset(ResultsAfterUserDelete(results, uid))[r] == multiset(results)[r]
    ensures (forall x :: x in results && x.id == d.testResultId ==> x.userId != uid) ==>
      multiset(DetailsAfterUserDelete(details, results, uid))[d] == multiset(details)[d]
  {
    FilterMultiset(users, (u: User) => u.id != uid, u);
    FilterMultiset(results, (r: TestResult) => r.userId != uid, r);
    FilterMultiset(details, (d: AnswerDetail) => d.testResultId !in ResultIdsOf(results, uid), d);
  }

  /** The cascade keeps the database consistent: a surviving detail
      belongs to another user's result, which survives, and a surviving
      result belongs to another user, who survives. */
  lemma DeleteUserKeepsConsistency(users: seq<User>, results: seq<TestResult>,
                                   questions: seq<QuestionRow>, details: seq<AnswerDetail>, uid: int)
    requires Consistent(users, results, questions, details)
    ensures Consistent(UsersAfterUserDelete(users, uid), ResultsAfterUserDelete(results, uid),
                       questions, DetailsAfterUserDelete(details, results, uid))
  {
    var users' := UsersAfterUserDelete(users, uid);
    var results' := ResultsAfterUserDelete(results, uid);
    var details' := DetailsAfterUserDelete(details, results, uid);
    forall d | d in details' ensures HasResult(results', d.testResultId) && HasQuestion(questions, d.questionId) {
      FilterMember(details, (d: AnswerDetail) => d.testResultId !in ResultIdsOf(results, uid), d);
      var r :| r in results && r.id == d.testResultId;
      assert r.userId != uid;
      FilterMember(results, (r: TestResult) => r.userId != uid, r);
    }
    forall r | r in results' ensures HasUser(users', r.userId) {
      FilterMember(results, (r: TestResult) => r.userId != uid, r);
      var u :| u in users && u.id == r.userId;
      FilterMember(users, (u: User) => u.id != uid, u);
    }
  }

  // ---------------------------------------------------------------
  // The question editor's form and add_question
  // ---------------------------------------------------------------

  /** What the editor dialog holds when "save" is pressed. `category` is
      the chosen category's id, None when nothing is chosen. */
  datatype QuestionForm = QuestionForm(
    category: Option<int>, text: string, questionType: QuestionType, correctAnswer: string,
    optionEntries: seq<string>, difficulty: int, explanation: string)

  datatype FormError = MissingFields | TooFewOptions

  /** The values `save_question` passes on to `add_question`. */
  datatype QuestionDraft = QuestionDraft(
    categoryId: int, text: string, questionType: QuestionType, correctAnswer: string,
    options: seq<string>, difficulty: int, explanation: string)

  /** Every entry, stripped. */
  function Strips(entries: seq<string>): (r: seq<string>)
    ensures |r| == |entries|
    ensures forall i :: 0 <= i < |entries| ==> r[i] == Strip(entries[i])
  {
    seq(|entries|, i requires 0 <= i < |entries| => Strip(entries[i]))
  }

  /** The option entries that are non-empty once stripped, stripped, in order. */
  function FilledOptions(entries: seq<string>): (r: seq<string>)
    ensures r == Filter(Strips(entries), (e: string) => e != [])
    ensures |r| == CountWhere(entries, (e: string) => Strip(e) != [])
    ensures forall i :: 0 <= i < |r| ==> r[i] != [] && Trimmed(r[i])
  {
    if entries == [] then []
    else
      assert Strips(entries)[1..] == Strips(entries[1..]);
      (if Strip(entries[0]) != [] then [Strip(entries[0])] else []) + FilledOptions(entries[1..])
  }

  /** `save_question`'s checks: a category and a non-blank text are
      required; a multiple-choice question needs at least two filled
      option entries; other types carry no options. */
  function ValidateQuestionForm(f: QuestionForm): (r: Result<QuestionDraft, FormError>)
    ensures r == Failure(MissingFields) <==> f.category.None? || Strip(f.text) == []
    ensures r == Failure(TooFewOptions) <==>
      f.category.Some? && Strip(f.text) != [] && f.questionType == MultipleChoice
      && CountWhere(f.optionEntries, (e: string) => Strip(e) != []) < 2
    ensures r.Success? ==>
      && r.value.categoryId == f.category.value
      && r.value.text == Strip(f.text) && r.value.text != []
      && r.value.correctAnswer == Strip(f.correctAnswer) && r.value.explanation == Strip(f.explanation)
      && r.value.questionType == f.questionType && r.value.difficulty == f.difficulty
      && (f.questionType == MultipleChoice ==> r.value.options == FilledOptions(f.optionEntries))
      && (f.questionType == MultipleChoice ==> |r.value.options| >= 2)
      && (f.questionType != MultipleChoice ==> r.value.options == [])
      && (forall i :: 0 <= i < |r.value.options| ==> r.value.options[i] != [])
  {
    if f.category.None? || Strip(f.text) == [] then Failure(MissingFields)
    else
      var options := if f.questionType == MultipleChoice then FilledOptions(f.optionEntries) else [];
      if f.questionType == MultipleChoice && |options| < 2 then Failure(TooFewOptions)
      else Success(QuestionDraft(f.category.value, Strip(f.text), f.questionType, Strip(f.correctAnswer),
                                 options, f.difficulty, Strip(f.explanation)))
  }

  /** `add_question`'s `options` column: an empty list is stored as NULL. */
  function OptionsColumn(options: seq<string>): (c: Option<seq<string>>)
    ensures c.None? <==> options == []
    ensures c.GetOr([]) == options
  {
    if options == [] then None else Some(options)
  }

  /** The row `add_question` inserts; `id` is the key the database assigns,
      and `is_active` takes its column default. */
  function NewQuestionRow(id: int, d: QuestionDraft): QuestionRow {
    QuestionRow(id, d.categoryId, d.text, d.questionType, d.correctAnswer,
                OptionsColumn(d.options), d.difficulty, d.explanation, true)
  }

  /** Adding a question keeps the database consistent: every question a
      detail names is still there. */
  lemma AddQuestionKeepsConsistency(users: seq<User>, results: seq<TestResult>,
                                    questions: seq<QuestionRow>, details: seq<AnswerDetail>, row: QuestionRow)
    requires Consistent(users, results, questions, details)
    ensures Consistent(users, results, questions + [row], details)
  {
    forall d | d in details ensures HasQuestion(questions + [row], d.questionId) {
      var q :| q in questions && q.id == d.questionId;
      assert q in questions + [row];
    }
  }

  // ---------------------------------------------------------------
  // The tables and the operations that change them
  // ---------------------------------------------------------------

  class Database {
    var users: seq<User>
    var categories: seq<Category>
    var questions: seq<QuestionRow>
    var testResults: seq<TestResult>
    var answerDetails: seq<AnswerDetail>

    ghost predicate Valid()
      reads this
    {
      Consistent(users, testResults, questions, answerDetails)
    }

    constructor (users: seq<User>, categories: seq<Category>, questions: seq<QuestionRow>,
                 testResults: seq<TestResult>, answerDetails: seq<AnswerDetail>)
      ensures this.users == users && this.categories == categories && this.questions == questions
      ensures this.testResults == testResults && this.answerDetails == answerDetails
      ensures Consistent(users, testResults, questions, answerDetails) ==> Valid()
    {
      this.users := users;
      this.categories := categories;
      this.questions := questions;
      this.testResults := testResults;
      this.answerDetails := answerDetails;
    }

    /** `QuestionManager.delete_question`. */
    method DeleteQuestion(qid: int) returns (ok: bool)
      modifies this
      ensures ok
      ensures questions == QuestionsAfterDelete(old(questions), old(answerDetails), qid)
      ensures users == old(users) && categories == old(categories)
      ensures testResults == old(testResults) && answerDetails == old(answerDetails)
      ensures old(Valid()) ==> Valid()
    {
      var usageCount := UsageCount(answerDetails, qid);
      if usageCount > 0 {
        questions := Deactivated(questions, qid);
      } else {
        questions := Filter(questions, (q: QuestionRow) => q.id != qid);
      }
      if old(Valid()) {
        DeleteQuestionKeepsConsistency(users, testResults, old(questions), answerDetails, qid);
      }
      ok := true;
    }

    /** `UserManager.delete_user`: the user's answer details, then the
        user's results, then the user. */
    method DeleteUser(uid: int) returns (ok: bool)
      modifies this
      ensures ok
      ensures answerDetails == DetailsAfterUserDelete(old(answerDetails), old(testResults), uid)
      ensures testResults == ResultsAfterUserDelete(old(testResults), uid)
      ensures users == UsersAfterUserDelete(old(users), uid)
      ensures categories == old(categories) && questions == old(questions)
      ensures old(Valid()) ==> Valid()
    {
      var ids := ResultIdsOf(testResults, uid);
      answerDetails := Filter(answerDetails, (d: AnswerDetail) => d.testResultId !in ids);
      testResults := Filter(testResults, (r: TestResult) => r.userId != uid);
      users := Filter(users, (u: User) => u.id != uid);
      if old(Valid()) {
        DeleteUserKeepsConsistency(old(users), old(testResults), questions, old(answerDetails), uid);
      }
      ok := true;
    }

    /** `save_question` followed by `add_question` in "add" mode: a form
        that fails a check changes nothing; a valid one appends one row
        under the key `newId`. */
    method SaveNewQuestion(f: QuestionForm, newId: int) returns (r: Result<QuestionRow, FormError>)
      modifies this
      ensures ValidateQuestionForm(f).Failure? ==>
        r == Failure(ValidateQuestionForm(f).error) && questions == old(questions)
      ensures ValidateQuestionForm(f).Success? ==>
        r == Success(NewQuestionRow(newId, ValidateQuestionForm(f).value))
        && questions == old(questions) + [r.value]
      ensures users == old(users) && categories == old(categories)
      ensures testResults == old(testResults) && answerDetails == old(answerDetails)
      ensures old(Valid()) ==> Valid()
    {
      var v := ValidateQuestionForm(f);
      if v.Failure? {
        return Failure(v.error);
      }
      var row := NewQuestionRow(newId, v.value);
      if Valid() {
        AddQuestionKeepsConsistency(users, testResults, questions, answerDetails, row);
      }
      questions := questions + [row];
      r := Success(row);
    }
  }

  // ---------------------------------------------------------------
  // Percentages and averages
  // ---------------------------------------------------------------

  /** `CAST(correct_answers AS FLOAT) / total_questions * 100`; SQL yields
      NULL when `total_questions` is 0. */
  function Percent(r: TestResult): (p: Option<real>)
    ensures p.None? <==> r.totalQuestions == 0
    ensures 0 <= r.correctAnswers <= r.totalQuestions ==> p.None? || 0.0 <= p.value <= 100.0
  {
    if r.totalQuestions == 0 then None
    else
      PercentBounds(r.correctAnswers, r.totalQuestions);
      Some(r.correctAnswers as real / r.totalQuestions as real * 100.0)
  }

  lemma PercentBounds(c: int, n: int)
    ensures 0 <= c <= n && n > 0 ==> 0.0 <= c as real / n as real * 100.0 <= 100.0
  {
    if 0 <= c <= n && n > 0 {
      assert c as real / n as real <= 1.0;
    }
  }

  function Percents(results: seq<TestResult>): (ps: seq<Option<real>>)
    ensures |ps| == |results|
    ensures forall i :: 0 <= i < |ps| ==> ps[i] == Percent(results[i])
  {
    seq(|results|, i requires 0 <= i < |results| => Percent(results[i]))
  }

  /** The non-NULL values, in order. */
  function Present(xs: seq<Option<real>>): (vs: seq<real>)
    ensures |vs| <= |xs|
  {
    if xs == [] then [] else (if xs[0].Some? then [xs[0].value] else []) + Present(xs[1..])
  }

  /** SQL `AVG`: the mean of the non-NULL values, NULL when there are none. */
  function Avg(xs: seq<Option<real>>): Option<real> {
    var vs := Present(xs);
    if vs == [] then None else Some(SumReal(vs) / |vs| as real)
  }

  /** The non-NULL values are the values of the present entries. */
  lemma {:induction false} PresentValues(xs: seq<Option<real>>, lo: real, hi: real)
    requires forall i :: 0 <= i < |xs| && xs[i].Some? ==> lo <= xs[i].value <= hi
    ensures forall i :: 0 <= i < |Present(xs)| ==> lo <= Present(xs)[i] <= hi
  {
    if xs != [] {
      PresentValues(xs[1..], lo, hi);
    }
  }

  /** `AVG` is NULL exactly when every value is NULL. */
  lemma {:induction false} AvgNull(xs: seq<Option<real>>)
    ensures Avg(xs).None? <==> forall i :: 0 <= i < |xs| ==> xs[i].None?
  {
    if xs != [] {
      AvgNull(xs[1..]);
    }
  }

  /** A quotient `s / n` of a sum of `n` values lies between their bounds. */
  lemma MeanBounds(s: real, n: real, lo: real, hi: real)
    requires n > 0.0 && n * lo <= s <= n * hi
    ensures lo <= s / n <= hi
  {
    assert (s / n) * n == s;
  }

  /** A mean lies between the least and the greatest possible value. */
  lemma AvgBounds(xs: seq<Option<real>>, lo: real, hi: real)
    requires forall i :: 0 <= i < |xs| && xs[i].Some? ==> lo <= xs[i].value <= hi
    ensures Avg(xs).Some? ==> lo <= Avg(xs).value <= hi
  {
    var vs := Present(xs);
    if vs != [] {
      PresentValues(xs, lo, hi);
      SumRealBounds(vs, lo, hi);
      MeanBounds(SumReal(vs), |vs| as real, lo, hi);
    }
  }

  /** `AVG` of 100, 50 and a NULL is 75: the NULL is skipped, not counted as 0. */
  lemma AvgSkipsNull()
    ensures Avg([Some(100.0), Some(50.0), None]) == Some(75.0)
  {
    var xs := [Some(100.0), Some(50.0), None];
    assert Present(xs[2..]) == [];
    assert Present(xs[1..]) == [50.0];
    assert Present(xs) == [100.0, 50.0];
  }

  // ---------------------------------------------------------------
  // SystemStatistics.get_general_statistics
  // ---------------------------------------------------------------

  /** One `test_results` row joined with one category of its category id. */
  datatype Joined = Joined(name: string, result: TestResult)

  /** `test_results tr JOIN categories c ON tr.category_id = c.id`, in
      the order of the results. */
  function JoinCategories(results: seq<TestResult>, categories: seq<Category>): seq<Joined> {
    if results == [] then []
    else
      var r := results[0];
      var matches := Filter(categories, (c: Category) => c.id == r.categoryId);
      seq(|matches|, i requires 0 <= i < |matches| => Joined(matches[i].name, r))
      + JoinCategories(results[1..], categories)
  }

  /** Every joined row pairs a result with the name of a category whose id
      is the result's category id. */
  lemma {:induction false} JoinCategoriesSound(results: seq<TestResult>, categories: seq<Category>, j: Joined)
    requires j in JoinCategories(results, categories)
    ensures j.result in results
    ensures exists c :: c in categories && c.id == j.result.categoryId && c.name == j.name
  {
    var r := results[0];
    var matches := Filter(categories, (c: Category) => c.id == r.categoryId);
    var head := seq(|matches|, i requires 0 <= i < |matches| => Joined(matches[i].name, r));
    if j in head {
      var i :| 0 <= i < |head| && head[i] == j;
      FilterMember(categories, (c: Category) => c.id == r.categoryId, matches[i]);
    } else {
      JoinCategoriesSound(results[1..], categories, j);
    }
  }

  /** Every result and every category with its category id meet in the join. */
  lemma {:induction false} JoinCategoriesComplete(results: seq<TestResult>, categories: seq<Category>,
                                                  r: TestResult, c: Category)
    requires r in results && c in categories && c.id == r.categoryId
    ensures Joined(c.name, r) in JoinCategories(results, categories)
  {
    var matches := Filter(categories, (x: Category) => x.id == results[0].categoryId);
    if results[0] == r {
      FilterMember(categories, (x: Category) => x.id == results[0].categoryId, c);
      var i :| 0 <= i < |matches| && matches[i] == c;
      var head := seq(|matches|, i requires 0 <= i < |matches| => Joined(matches[i].name, r));
      assert head[i] == Joined(c.name, r);
    } else {
      JoinCategoriesComplete(results[1..], categories, r, c);
    }
  }

  /** The difficulties of `answer_details ad JOIN questions q ON
      ad.question_id = q.id`, one per joined row. */
  function JoinDifficulties(details: seq<AnswerDetail>, questions: seq<QuestionRow>): seq<int> {
    if details == [] then []
    else
      var d := details[0];
      var matches := Filter(questions, (q: QuestionRow) => q.id == d.questionId);
      seq(|matches|, i requires 0 <= i < |matches| => matches[i].difficulty)
      + JoinDifficulties(details[1..], questions)
  }

  /** Every joined difficulty is that of a question some answer names. */
  lemma {:induction false} JoinDifficultiesSound(details: seq<AnswerDetail>, questions: seq<QuestionRow>, k: int)
    requires k in JoinDifficulties(details, questions)
    ensures exists d, q :: d in details && q in questions && q.id == d.questionId && q.difficulty == k
  {
    var d := details[0];
    var matches := Filter(questions, (q: QuestionRow) => q.id == d.questionId);
    var head := seq(|matches|, i requires 0 <= i < |matches| => matches[i].difficulty);
    if k in head {
      var i :| 0 <= i < |head| && head[i] == k;
      FilterMember(questions, (q: QuestionRow) => q.id == d.questionId, matches[i]);
    } else {
      JoinDifficultiesSound(details[1..], questions, k);
    }
  }

  /** Every answer and every question it names meet in the join. */
  lemma {:induction false} JoinDifficultiesComplete(details: seq<AnswerDetail>, questions: seq<QuestionRow>,
                                                    d: AnswerDetail, q: QuestionRow)
    requires d in details && q in questions && q.id == d.questionId
    ensures q.difficulty in JoinDifficulties(details, questions)
  {
    var matches := Filter(questions, (x: QuestionRow) => x.id == details[0].questionId);
    if details[0] == d {
      FilterMember(questions, (x: QuestionRow) => x.id == details[0].questionId, q);
      var i :| 0 <= i < |matches| && matches[i] == q;
      var head := seq(|matches|, i requires 0 <= i < |matches| => matches[i].difficulty);
      assert head[i] == q.difficulty;
    } else {
      JoinDifficultiesComplete(details[1..], questions, d, q);
    }
  }

  datatype NameCount = NameCount(name: string, count: nat)

  function Names(js: seq<Joined>): (ns: seq<string>)
    ensures |ns| == |js|
    ensures forall i :: 0 <= i < |js| ==> ns[i] == js[i].name
  {
    seq(|js|, i requires 0 <= i < |js| => js[i].name)
  }

  /** One group per distinct name, with the size of its group. */
  function NameGroups(names: seq<string>): (gs: seq<NameCount>)
    ensures forall i, j :: 0 <= i < j < |gs| ==> gs[i].name != gs[j].name
    ensures forall i :: 0 <= i < |gs| ==> gs[i].name in names && gs[i].count == multiset(names)[gs[i].name]
    ensures forall n :: n in names ==> exists i :: 0 <= i < |gs| && gs[i].name == n
  {
    var d := Distinct(names);
    var gs := seq(|d|, i requires 0 <= i < |d| => NameCount(d[i], multiset(names)[d[i]]));
    assert forall n :: n in names ==> exists i :: 0 <= i < |gs| && gs[i].name == n by {
      forall n | n in names ensures exists i :: 0 <= i < |gs| && gs[i].name == n {
        assert n in d;
        var i :| 0 <= i < |d| && d[i] == n;
        assert gs[i].name == n;
      }
    }
    gs
  }

  /** Reordering the groups of a name column keeps them groups of it:
      names stay pairwise distinct, counts stay right, no name goes missing. */
  lemma ReorderedGroups(names: seq<string>, gs: seq<NameCount>, r: seq<NameCount>)
    requires forall i, j :: 0 <= i < j < |gs| ==> gs[i].name != gs[j].name
    requires forall i :: 0 <= i < |gs| ==> gs[i].name in names && gs[i].count == multiset(names)[gs[i].name]
    requires forall n :: n in names ==> exists i :: 0 <= i < |gs| && gs[i].name == n
    requires multiset(r) == multiset(gs)
    ensures forall i, j :: 0 <= i < j < |r| ==> r[i].name != r[j].name
    ensures forall i :: 0 <= i < |r| ==> r[i].name in names && r[i].count == multiset(names)[r[i].name]
    ensures forall n :: n in names ==> exists i :: 0 <= i < |r| && r[i].name == n
  {
    assert NoDup(gs);
    PermutationNoDup(gs, r);
    PermutationMembers(gs, r);
    forall i, j | 0 <= i < j < |r| ensures r[i].name != r[j].name {
      assert r[i] in gs && r[j] in gs;
      var a :| 0 <= a < |gs| && gs[a] == r[i];
      var b :| 0 <= b < |gs| && gs[b] == r[j];
      assert a != b;
    }
    forall i | 0 <= i < |r| ensures r[i].name in names && r[i].count == multiset(names)[r[i].name] {
      assert r[i] in gs;
    }
    forall n | n in names ensures exists i :: 0 <= i < |r| && r[i].name == n {
      var k :| 0 <= k < |gs| && gs[k].name == n;
      assert gs[k] in r;
      var i :| 0 <= i < |r| && r[i] == gs[k];
    }
  }

  /** `GROUP BY name ORDER BY COUNT(*) DESC` over a column of names. */
  function CountsDesc(names: seq<string>): (r: seq<NameCount>)
    ensures forall i, j :: 0 <= i < j < |r| ==> r[i].count >= r[j].count
    ensures forall i, j :: 0 <= i < j < |r| ==> r[i].name != r[j].name
    ensures forall i :: 0 <= i < |r| ==> r[i].name in names && r[i].count == multiset(names)[r[i].name]
    ensures forall n :: n in names ==> exists i :: 0 <= i < |r| && r[i].name == n
  {
    var gs := NameGroups(names);
    var r := SortDesc(gs, (g: NameCount) => g.count as real);
    ReorderedGroups(names, gs, r);
    r
  }

  /** The category name of every joined result row. */
  function CategoryNames(results: seq<TestResult>, categories: seq<Category>): seq<string> {
    Names(JoinCategories(results, categories))
  }

  /** `SELECT c.name, COUNT(*) ... GROUP BY c.name ORDER BY tests_count DESC`:
      one row per category name with the number of its tests, names
      pairwise distinct, most popular first. */
  function CategoryPopularity(results: seq<TestResult>, categories: seq<Category>): (r: seq<NameCount>)
    ensures forall i, j :: 0 <= i < j < |r| ==> r[i].count >= r[j].count
    ensures forall i, j :: 0 <= i < j < |r| ==> r[i].name != r[j].name
    ensures forall i :: 0 <= i < |r| ==>
      r[i].name in CategoryNames(results, categories)
      && r[i].count == multiset(CategoryNames(results, categories))[r[i].name]
    ensures forall n :: n in CategoryNames(results, categories) ==> exists i :: 0 <= i < |r| && r[i].name == n
  {
    CountsDesc(CategoryNames(results, categories))
  }

  /** The tests of the last 30 days: those whose day is at least today's
      day minus 30. */
  function WindowDays(results: seq<TestResult>, now: int): (days: seq<int>)
    ensures forall d :: d in days ==> Day(now) - 30 <= d
    ensures forall r :: r in results && Day(r.testDate) >= Day(now) - 30 ==> Day(r.testDate) in days
    ensures forall d ::
              multiset(days)[d] ==
              if d >= Day(now) - 30 then CountWhere(results, (x: TestResult) => Day(x.testDate) == d) else 0
  {
    if results == [] then []
    else
      var d := Day(results[0].testDate);
      assert forall r :: r in results ==> r == results[0] || r in results[1..];
      (if d >= Day(now) - 30 then [d] else []) + WindowDays(results[1..], now)
  }

  /** `daily_activity`: one row per day of the last 30 days with at
      least one test, in ascending day order, with the day's test count. */
  function DailyActivity(results: seq<TestResult>, now: int): (r: seq<KeyCount>)
    ensures forall i :: 0 <= i < |r| ==>
      Day(now) - 30 <= r[i].key && r[i].count > 0 && r[i].count == multiset(WindowDays(results, now))[r[i].key]
    ensures forall i :: 0 <= i < |r| ==>
      r[i].count == CountWhere(results, (x: TestResult) => Day(x.testDate) == r[i].key)
    ensures forall i, j :: 0 <= i < j < |r| ==> r[i].key < r[j].key
    ensures forall t :: t in results && Day(t.testDate) >= Day(now) - 30 ==>
      exists i :: 0 <= i < |r| && r[i].key == Day(t.testDate)
  {
    var days := WindowDays(results, now);
    var r := AscendingCounts(days);
    assert forall i :: 0 <= i < |r| ==> r[i].key in multiset(days);
    r
  }

  /** `difficulty_distribution`: one row per difficulty among the joined
      answer details, ascending, with the number of their answers. */
  function DifficultyDistribution(details: seq<AnswerDetail>, questions: seq<QuestionRow>): (r: seq<KeyCount>)
    ensures forall i :: 0 <= i < |r| ==>
      var ds := JoinDifficulties(details, questions);
      r[i].key in ds && r[i].count == multiset(ds)[r[i].key]
    ensures forall i, j :: 0 <= i < j < |r| ==> r[i].key < r[j].key
    ensures forall k :: k in JoinDifficulties(details, questions) ==> exists i :: 0 <= i < |r| && r[i].key == k
  {
    AscendingCounts(JoinDifficulties(details, questions))
  }

  /** The figures `get_general_statistics` returns. */
  datatype GeneralStats = GeneralStats(
    totalUsers: nat, adminUsers: nat, regularUsers: int, totalQuestions: nat,
    totalCategories: nat, totalTests: nat, totalAnswered: int, totalCorrect: int,
    avgSuccessRate: real, dailyActivity: seq<KeyCount>, categoryPopularity: seq<NameCount>,
    difficultyDistribution: seq<KeyCount>)

  /** `AVG(...) or 0` for the success rate: the mean per-test percentage,
      0 when no test has one. */
  function SuccessRate(results: seq<TestResult>): real {
    Avg(Percents(results)).GetOr(0.0)
  }

  /** `SystemStatistics.get_general_statistics` at time `now`. */
  function GeneralStatistics(users: seq<User>, categories: seq<Category>, questions: seq<QuestionRow>,
                             results: seq<TestResult>, details: seq<AnswerDetail>, now: int): (g: GeneralStats)
    ensures g.adminUsers + g.regularUsers == g.totalUsers == |users|
    ensures g.regularUsers == CountWhere(users, (u: User) => !u.isAdmin)
    ensures g.totalTests == |results|
    ensures g.totalQuestions == |questions| && g.totalCategories == |categories|
    ensures g.totalAnswered == SumInt(results, (r: TestResult) => r.totalQuestions)
    ensures g.totalCorrect == SumInt(results, (r: TestResult) => r.correctAnswers)
    ensures g.avgSuccessRate == SuccessRate(results)
    ensures g.dailyActivity == DailyActivity(results, now)
    ensures g.categoryPopularity == CategoryPopularity(results, categories)
    ensures g.difficultyDistribution == DifficultyDistribution(details, questions)
    ensures results == [] ==>
      g.totalAnswered == 0 && g.totalCorrect == 0 && g.avgSuccessRate == 0.0
      && g.dailyActivity == [] && g.categoryPopularity == []
    ensures details == [] ==> g.difficultyDistribution == []
  {
    var admins := CountWhere(users, (u: User) => u.isAdmin);
    CountWhereSplit(users, (u: User) => u.isAdmin, (u: User) => !u.isAdmin);
    assert results == [] ==> Percents(results) == [];
    GeneralStats(
      |users|, admins, |users| - admins, |questions|, |categories|, |results|,
      SumInt(results, (r: TestResult) => r.totalQuestions),
      SumInt(results, (r: TestResult) => r.correctAnswers),
      SuccessRate(results),
      DailyActivity(results, now),
      CategoryPopularity(results, categories),
      DifficultyDistribution(details, questions))
  }

  /** With well-formed result rows no more answers are correct than were
      given, and the success rate is a percentage. */
  lemma GeneralStatisticsBounds(users: seq<User>, categories: seq<Category>, questions: seq<QuestionRow>,
                                results: seq<TestResult>, details: seq<AnswerDetail>, now: int)
    requires forall r :: r in results ==> 0 <= r.correctAnswers <= r.totalQuestions
    ensures var g := GeneralStatistics(users, categories, questions, results, details, now);
      0 <= g.totalCorrect <= g.totalAnswered && 0.0 <= g.avgSuccessRate <= 100.0
  {
    WellFormedTotals(results);
    SuccessRateBounds(results);
  }

  /** Over well-formed result rows the correct answers add up to at least
      0 and at most the questions asked. */
  lemma WellFormedTotals(results: seq<TestResult>)
    requires forall r :: r in results ==> 0 <= r.correctAnswers <= r.totalQuestions
    ensures 0 <= SumInt(results, (r: TestResult) => r.correctAnswers)
    ensures SumInt(results, (r: TestResult) => r.correctAnswers) <= SumInt(results, (r: TestResult) => r.totalQuestions)
  {
    assert forall i :: 0 <= i < |results| ==> results[i] in results;
    SumIntNonNeg(results, (r: TestResult) => r.correctAnswers);
    SumIntLe(results, (r: TestResult) => r.correctAnswers, (r: TestResult) => r.totalQuestions);
  }

  /** With well-formed result rows the success rate is a percentage. */
  lemma SuccessRateBounds(results: seq<TestResult>)
    requires forall r :: r in results ==> 0 <= r.correctAnswers <= r.totalQuestions
    ensures 0.0 <= SuccessRate(results) <= 100.0
  {
    var ps := Percents(results);
    forall i | 0 <= i < |ps| && ps[i].Some? ensures 0.0 <= ps[i].value <= 100.0 {
      assert results[i] in results;
    }
    AvgBounds(ps, 0.0, 100.0);
  }

  /** The success rate is the mean of the per-test rates, not the pooled
      ratio: 1 of 1 and 0 of 3 correct give 50, although 1 of 4 answers
      were correct. */
  lemma SuccessRateIsMeanOfRates()
    ensures var rs := [TestResult(1, 1, 1, 1, 1, 0, 0), TestResult(2, 1, 1, 3, 0, 0, 0)];
      SuccessRate(rs) == 50.0
  {
    var rs := [TestResult(1, 1, 1, 1, 1, 0, 0), TestResult(2, 1, 1, 3, 0, 0, 0)];
    var ps := Percents(rs);
    assert ps == [Some(100.0), Some(0.0)];
    assert Present(ps[1..]) == [0.0];
    assert Present(ps) == [100.0, 0.0];
  }

  // ---------------------------------------------------------------
  // UserManager.get_user_statistics and get_all_users
  // ---------------------------------------------------------------

  function ResultsOf(results: seq<TestResult>, uid: int): seq<TestResult> {
    Filter(results, (r: TestResult) => r.userId == uid)
  }

  /** The `general` row: `COUNT(*)`, three `SUM`s that are NULL when the
      user has no results, and `AVG` of the per-test percentages. */
  datatype UserTotals = UserTotals(
    totalTests: nat, totalQuestions: Option<int>, totalCorrect: Option<int>,
    totalTime: Option<int>, avgPercentage: Option<real>)

  function UserGeneral(results: seq<TestResult>, uid: int): (t: UserTotals)
    ensures t.totalTests == CountWhere(results, (r: TestResult) => r.userId == uid)
    ensures t.totalTests == 0 <==> t.totalQuestions.None?
    ensures t.totalQuestions.None? <==> t.totalCorrect.None?
    ensures t.totalQuestions.None? <==> t.totalTime.None?
    ensures t.totalTests == 0 ==> t.avgPercentage.None?
    ensures t.totalTests > 0 ==>
      && t.totalQuestions == Some(SumInt(ResultsOf(results, uid), (r: TestResult) => r.totalQuestions))
      && t.totalCorrect == Some(SumInt(ResultsOf(results, uid), (r: TestResult) => r.correctAnswers))
      && t.totalTime == Some(SumInt(ResultsOf(results, uid), (r: TestResult) => r.timeSpent))
    ensures t.avgPercentage == Avg(Percents(ResultsOf(results, uid)))
  {
    var mine := ResultsOf(results, uid);
    FilterCount(results, (r: TestResult) => r.userId == uid);
    if mine == [] then UserTotals(0, None, None, None, None)
    else UserTotals(|mine|,
                    Some(SumInt(mine, (r: TestResult) => r.totalQuestions)),
                    Some(SumInt(mine, (r: TestResult) => r.correctAnswers)),
                    Some(SumInt(mine, (r: TestResult) => r.timeSpent)),
                    Avg(Percents(mine)))
  }

  /** With well-formed result rows a user's correct answers lie between 0
      and the questions asked, and the average is a percentage. */
  lemma UserGeneralBounds(results: seq<TestResult>, uid: int)
    requires forall r :: r in results ==> 0 <= r.correctAnswers <= r.totalQuestions
    ensures var t := UserGeneral(results, uid);
      && (t.totalCorrect.Some? ==> 0 <= t.totalCorrect.value <= t.totalQuestions.value)
      && (t.avgPercentage.Some? ==> 0.0 <= t.avgPercentage.value <= 100.0)
  {
    var mine := ResultsOf(results, uid);
    forall r | r in mine ensures 0 <= r.correctAnswers <= r.totalQuestions {
      FilterMember(results, (r: TestResult) => r.userId == uid, r);
    }
    WellFormedTotals(mine);
    var ps := Percents(mine);
    forall i | 0 <= i < |ps| && ps[i].Some? ensures 0.0 <= ps[i].value <= 100.0 {
      assert mine[i] in mine;
    }
    AvgBounds(ps, 0.0, 100.0);
  }

  /** A user's average is the mean of the per-test percentages, not the
      pooled ratio: 1 of 1 and 0 of 3 correct give 50, although 1 of the
      4 questions was answered correctly. */
  lemma UserAverageIsMeanOfRates()
    ensures var t := UserGeneral([TestResult(1, 7, 1, 1, 1, 0, 0), TestResult(2, 7, 1, 3, 0, 0, 0)], 7);
      t.totalQuestions == Some(4) && t.totalCorrect == Some(1) && t.avgPercentage == Some(50.0)
  {
    var rs := [TestResult(1, 7, 1, 1, 1, 0, 0), TestResult(2, 7, 1, 3, 0, 0, 0)];
    assert ResultsOf(rs[1..], 7) == rs[1..];
    assert ResultsOf(rs, 7) == rs;
    var ps := Percents(rs);
    assert ps == [Some(100.0), Some(0.0)];
    assert Present(ps[1..]) == [0.0];
    assert Present(ps) == [100.0, 0.0];
  }

  /** One `categories` row of the user statistics. */
  datatype CategoryScore = CategoryScore(name: string, testsCount: nat, avgScore: Option<real>)

  /** The per-test percentages of the joined rows of one category name. */
  function PercentsOfName(js: seq<Joined>, name: string): seq<Option<real>> {
    if js == [] then []
    else (if js[0].name == name then [Percent(js[0].result)] else []) + PercentsOfName(js[1..], name)
  }

  /** The groups of `GROUP BY c.name` before ordering: one per name, with
      its number of tests and the mean of their percentages. */
  function ScoreGroups(js: seq<Joined>): (gs: seq<CategoryScore>)
    ensures forall i, j :: 0 <= i < j < |gs| ==> gs[i].name != gs[j].name
    ensures forall i :: 0 <= i < |gs| ==>
      gs[i].name in Names(js) && gs[i].testsCount == multiset(Names(js))[gs[i].name]
      && gs[i].avgScore == Avg(PercentsOfName(js, gs[i].name))
    ensures forall n :: n in Names(js) ==> exists i :: 0 <= i < |gs| && gs[i].name == n
  {
    var ns := NameGroups(Names(js));
    var gs := seq(|ns|, i requires 0 <= i < |ns| =>
      CategoryScore(ns[i].name, ns[i].count, Avg(PercentsOfName(js, ns[i].name))));
    assert forall n :: n in Names(js) ==> exists i :: 0 <= i < |gs| && gs[i].name == n by {
      forall n | n in Names(js) ensures exists i :: 0 <= i < |gs| && gs[i].name == n {
        var i :| 0 <= i < |ns| && ns[i].name == n;
        assert gs[i].name == n;
      }
    }
    gs
  }

  /** The sort key of a category row; NULL rows are kept out of the sort. */
  function ScoreKey(g: CategoryScore): real {
    g.avgScore.GetOr(0.0)
  }

  /** Sorted scored rows followed by unscored ones are ordered by score
      with the NULLs last. */
  lemma ScoredThenUnscored(sorted: seq<CategoryScore>, unscored: seq<CategoryScore>)
    requires SortedDesc(sorted, ScoreKey)
    requires forall x :: x in sorted ==> x.avgScore.Some?
    requires forall x :: x in unscored ==> x.avgScore.None?
    ensures var r := sorted + unscored;
      forall i, j :: 0 <= i < j < |r| && r[j].avgScore.Some? ==>
        r[i].avgScore.Some? && r[i].avgScore.value >= r[j].avgScore.value
  {
    var r := sorted + unscored;
    forall i, j | 0 <= i < j < |r| && r[j].avgScore.Some?
      ensures r[i].avgScore.Some? && r[i].avgScore.value >= r[j].avgScore.value
    {
      assert j < |sorted|;
      assert r[i] == sorted[i] && r[j] == sorted[j];
      assert sorted[i] in sorted && sorted[j] in sorted;
      assert ScoreKey(sorted[i]) >= ScoreKey(sorted[j]);
    }
  }

  /** `ORDER BY avg_score DESC`, where SQL places NULL averages last. */
  function OrderByScore(gs: seq<CategoryScore>): (r: seq<CategoryScore>)
    ensures multiset(r) == multiset(gs)
    ensures forall i, j :: 0 <= i < j < |r| && r[j].avgScore.Some? ==>
      r[i].avgScore.Some? && r[i].avgScore.value >= r[j].avgScore.value
  {
    var scored := Filter(gs, (g: CategoryScore) => g.avgScore.Some?);
    var unscored := Filter(gs, (g: CategoryScore) => g.avgScore.None?);
    var sorted := SortDesc(scored, ScoreKey);
    FilterPartition(gs, (g: CategoryScore) => g.avgScore.Some?, (g: CategoryScore) => g.avgScore.None?);
    PermutationMembers(scored, sorted);
    assert forall x :: x in sorted ==> x.avgScore.Some? by {
      forall x | x in sorted ensures x.avgScore.Some? {
        FilterMember(gs, (g: CategoryScore) => g.avgScore.Some?, x);
      }
    }
    assert forall x :: x in unscored ==> x.avgScore.None? by {
      forall x | x in unscored ensures x.avgScore.None? {
        FilterMember(gs, (g: CategoryScore) => g.avgScore.None?, x);
      }
    }
    ScoredThenUnscored(sorted, unscored);
    sorted + unscored
  }

  /** One `recent_tests` row. */
  datatype RecentTest = RecentTest(
    categoryName: string, testDate: int, totalQuestions: int, correctAnswers: int, percentage: Option<real>)

  function RecentTestOf(j: Joined): RecentTest {
    RecentTest(j.name, j.result.testDate, j.result.totalQuestions, j.result.correctAnswers, Percent(j.result))
  }

  function DateKey(j: Joined): real {
    j.result.testDate as real
  }

  /** The first `k` rows of a date-sorted reordering of `js` are the `k`
      newest, newest first. */
  lemma NewestPrefix(js: seq<Joined>, sorted: seq<Joined>, k: nat)
    requires SortedDesc(sorted, DateKey) && multiset(sorted) == multiset(js) && k <= |sorted|
    ensures multiset(sorted[..k]) <= multiset(js)
    ensures forall i, j :: 0 <= i < j < k ==> sorted[..k][i].result.testDate >= sorted[..k][j].result.testDate
    ensures forall x, y :: x in sorted[..k] && y in multiset(js) - multiset(sorted[..k]) ==>
      x.result.testDate >= y.result.testDate
  {
    SortedPrefixDominates(sorted, k, DateKey);
    assert sorted == sorted[..k] + sorted[k..];
    assert multiset(sorted) == multiset(sorted[..k]) + multiset(sorted[k..]);
    forall i, j | 0 <= i < j < k ensures sorted[..k][i].result.testDate >= sorted[..k][j].result.testDate {
      assert DateKey(sorted[i]) >= DateKey(sorted[j]);
    }
  }

  /** `ORDER BY tr.test_date DESC LIMIT 10` over the joined rows: the ten
      newest, newest first; none left out is newer than one kept. */
  function Newest(js: seq<Joined>): (r: seq<Joined>)
    ensures |r| == Min(10, |js|)
    ensures multiset(r) <= multiset(js)
    ensures forall i, j :: 0 <= i < j < |r| ==> r[i].result.testDate >= r[j].result.testDate
    ensures forall x, y :: x in r && y in multiset(js) - multiset(r) ==> x.result.testDate >= y.result.testDate
  {
    var sorted := SortDesc(js, DateKey);
    NewestPrefix(js, sorted, Min(10, |js|));
    sorted[..Min(10, |js|)]
  }

  datatype UserStats = UserStats(general: UserTotals, categories: seq<CategoryScore>, recentTests: seq<RecentTest>)

  function RecentTests(js: seq<Joined>): (ts: seq<RecentTest>)
    ensures |ts| <= 10
    ensures forall i, j :: 0 <= i < j < |ts| ==> ts[i].testDate >= ts[j].testDate
  {
    var recent := Newest(js);
    seq(|recent|, i requires 0 <= i < |recent| => RecentTestOf(recent[i]))
  }

  /** The recent-test rows are the ten newest joined tests, newest first,
      or all of them when there are fewer. */
  lemma RecentTestsAreNewest(js: seq<Joined>)
    ensures |RecentTests(js)| == Min(10, |js|)
    ensures forall i :: 0 <= i < |RecentTests(js)| ==> RecentTests(js)[i] == RecentTestOf(Newest(js)[i])
  {
  }

  /** The user's result rows joined with their categories. */
  function UserJoined(results: seq<TestResult>, categories: seq<Category>, uid: int): seq<Joined> {
    JoinCategories(ResultsOf(results, uid), categories)
  }

  /** `UserManager.get_user_statistics(uid)`. */
  function UserStatistics(results: seq<TestResult>, categories: seq<Category>, uid: int): (s: UserStats)
    ensures s.general == UserGeneral(results, uid)
    ensures multiset(s.categories) == multiset(ScoreGroups(UserJoined(results, categories, uid)))
    ensures s.recentTests == RecentTests(UserJoined(results, categories, uid))
    ensures |s.recentTests| <= 10
    ensures forall i, j :: 0 <= i < j < |s.recentTests| ==> s.recentTests[i].testDate >= s.recentTests[j].testDate
    ensures forall i, j :: 0 <= i < j < |s.categories| && s.categories[j].avgScore.Some? ==>
      s.categories[i].avgScore.Some? && s.categories[i].avgScore.value >= s.categories[j].avgScore.value
  {
    var js := UserJoined(results, categories, uid);
    UserStats(UserGeneral(results, uid), OrderByScore(ScoreGroups(js)), RecentTests(js))
  }

  /** One row of `get_all_users`. */
  datatype UserRow = UserRow(
    id: int, username: string, email: string, registrationDate: int, isAdmin: bool,
    testsCount: nat, avgScore: Option<real>)

  /** The `LEFT JOIN ... GROUP BY u.id` row of one user: the number of the
      user's results and the mean of their percentages, NULL for none. */
  function UserRowOf(u: User, results: seq<TestResult>): (row: UserRow)
    ensures row.id == u.id && row.registrationDate == u.registrationDate
    ensures row.username == u.username && row.email == u.email && row.isAdmin == u.isAdmin
    ensures row.avgScore == Avg(Percents(ResultsOf(results, u.id)))
    ensures row.testsCount == CountWhere(results, (t: TestResult) => t.userId == u.id)
  {
    var mine := ResultsOf(results, u.id);
    FilterCount(results, (t: TestResult) => t.userId == u.id);
    UserRow(u.id, u.username, u.email, u.registrationDate, u.isAdmin, |mine|, Avg(Percents(mine)))
  }

  function UserRows(users: seq<User>, results: seq<TestResult>): (rows: seq<UserRow>)
    ensures |rows| == |users|
    ensures forall i :: 0 <= i < |users| ==> rows[i] == UserRowOf(users[i], results)
  {
    seq(|users|, i requires 0 <= i < |users| => UserRowOf(users[i], results))
  }

  function RegistrationKey(x: UserRow): real {
    x.registrationDate as real
  }

  /** `UserManager.get_all_users`: one row per user, newest registration first. */
  function AllUsers(users: seq<User>, results: seq<TestResult>): (r: seq<UserRow>)
    ensures |r| == |users|
    ensures forall i, j :: 0 <= i < j < |r| ==> r[i].registrationDate >= r[j].registrationDate
    ensures multiset(r) == multiset(UserRows(users, results))
    ensures forall x :: x in r ==> x.testsCount == CountWhere(results, (t: TestResult) => t.userId == x.id)
  {
    var rows := UserRows(users, results);
    var r := SortDesc(rows, RegistrationKey);
    PermutationMembers(rows, r);
    assert forall i, j :: 0 <= i < j < |r| ==> RegistrationKey(r[i]) >= RegistrationKey(r[j]);
    r
  }
}
