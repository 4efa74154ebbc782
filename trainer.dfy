/** The test-session engine: `TestManager` and the `Question` record of
    main.py. The question selection arrives as a sequence of rows, the clock
    as an integer number of seconds, and the rows `finish_test` inserts are
    returned to the caller instead of written. */
module Trainer {
  import opened Results
  import opened Text
  import opened Schema
  import opened Seqs

  /** A question snapshot as the session holds it. */
  datatype Question = Question(
    questionId: int, categoryId: int, questionText: string, questionType: QuestionType,
    correctAnswer: string, options: seq<string>, difficulty: int, explanation: string)

  /** Builds a session question from a selected row; a NULL options column
      becomes the empty list. */
  function QuestionOf(row: QuestionRow): (q: Question)
    ensures q.questionId == row.id && q.categoryId == row.categoryId
    ensures q.questionType == row.questionType && q.correctAnswer == row.correctAnswer
    ensures row.options.None? ==> q.options == []
    ensures row.options.Some? ==> q.options == row.options.value
  {
    Question(row.id, row.categoryId, row.questionText, row.questionType,
             row.correctAnswer, row.options.GetOr([]), row.difficulty, row.explanation)
  }

  /** The selected rows as session questions, in selection order. */
  function QuestionsOf(rows: seq<QuestionRow>): (qs: seq<Question>)
    ensures |qs| == |rows|
    ensures forall i :: 0 <= i < |rows| ==> qs[i] == QuestionOf(rows[i])
  {
    seq(|rows|, i requires 0 <= i < |rows| => QuestionOf(rows[i]))
  }

  /** Normalised spellings a true/false question accepts for "true" and "false". */
  const TrueWords: seq<string> := ["true", "так", "1"]
  const FalseWords: seq<string> := ["false", "ні", "0"]

  /** The rule `finish_test` scores with: a true/false answer and key must
      fall in the same synonym set; other types compare normalised strings. */
  predicate IsCorrect(q: Question, answer: string) {
    var u := Normalize(answer);
    var c := Normalize(q.correctAnswer);
    if q.questionType == TrueFalse then
      (u in TrueWords && c in TrueWords) || (u in FalseWords && c in FalseWords)
    else
      u == c
  }

  /** The `is_correct` flag of a detail row: plain normalised equality, for
      every question type. */
  predicate DetailFlag(q: Question, answer: string) {
    Normalize(answer) == Normalize(q.correctAnswer)
  }

  /** The verdict of the score rule on every answered position, in order. */
  function Verdicts(qs: seq<Question>, answers: seq<string>): (vs: seq<bool>)
    ensures |vs| == Min(|qs|, |answers|)
    ensures forall i :: 0 <= i < |vs| ==> (vs[i] <==> IsCorrect(qs[i], answers[i]))
  {
    seq(Min(|qs|, |answers|), i requires 0 <= i < Min(|qs|, |answers|) => IsCorrect(qs[i], answers[i]))
  }

  /** Number of `true` verdicts among the first `n`. */
  function CountTrue(vs: seq<bool>, n: nat): (c: nat)
    requires n <= |vs|
    ensures c <= n
  {
    if n == 0 then 0 else CountTrue(vs, n - 1) + (if vs[n - 1] then 1 else 0)
  }

  /** The score of a session: the correct answers among the answered
      positions; unanswered questions never count. */
  function Score(qs: seq<Question>, answers: seq<string>): (c: nat)
    ensures c <= |qs| && c <= |answers|
  {
    var vs := Verdicts(qs, answers);
    CountTrue(vs, |vs|)
  }

  /** Only all-`true` verdicts reach the maximum count. */
  lemma {:induction false} CountTrueAll(vs: seq<bool>, n: nat)
    requires n <= |vs|
    ensures CountTrue(vs, n) == n <==> forall i :: 0 <= i < n ==> vs[i]
  {
    if n > 0 {
      CountTrueAll(vs, n - 1);
    }
  }

  /** Only all-`false` verdicts give a zero count. */
  lemma {:induction false} CountTrueNone(vs: seq<bool>, n: nat)
    requires n <= |vs|
    ensures CountTrue(vs, n) == 0 <==> forall i :: 0 <= i < n ==> !vs[i]
  {
    if n > 0 {
      CountTrueNone(vs, n - 1);
    }
  }

  /** The detail row written for one answered question. */
  function DetailRow(resultId: int, q: Question, answer: string): AnswerDetail {
    AnswerDetail(resultId, q.questionId, answer, DetailFlag(q, answer), 30)
  }

  /** The detail rows of a session: one per answered question, in order. */
  function DetailRows(resultId: int, qs: seq<Question>, answers: seq<string>): (ds: seq<AnswerDetail>)
    ensures |ds| == Min(|qs|, |answers|)
    ensures forall i :: 0 <= i < |ds| ==> ds[i] == DetailRow(resultId, qs[i], answers[i])
  {
    seq(Min(|qs|, |answers|), i requires 0 <= i < Min(|qs|, |answers|) => DetailRow(resultId, qs[i], answers[i]))
  }

  /** Off the true/false type the detail flag and the score agree. */
  lemma FlagAgreesOffTrueFalse(q: Question, answer: string)
    requires q.questionType != TrueFalse
    ensures DetailFlag(q, answer) <==> IsCorrect(q, answer)
  {
  }

  /** Normalising a word with no outer whitespace only lower-cases it. */
  lemma NormalizeTrimmed(w: string)
    requires Trimmed(w)
    ensures Normalize(w) == Lower(w)
  {
    StripTrimmed(w);
  }

  /** A trimmed word without capitals normalises to itself. */
  lemma NormalizeLowerWord(w: string)
    requires Trimmed(w)
    requires forall i :: 0 <= i < |w| ==> !IsUpper(w[i])
    ensures Normalize(w) == w
  {
    NormalizeTrimmed(w);
    LowerNoUpper(w);
  }

  /** "True" and "TRUE" normalise to "true". */
  lemma NormalizeTrue()
    ensures Normalize("True") == "true" && Normalize("TRUE") == "true"
  {
    NormalizeTrimmed("True");
    NormalizeTrimmed("TRUE");
    forall i | 0 <= i < 4 ensures Lower("True")[i] == "true"[i] && Lower("TRUE")[i] == "true"[i] {
      LowerAt("True", i);
      LowerAt("TRUE", i);
    }
  }

  /** On a true/false question the detail flag and the score can
      disagree: the synonym "1" scores against the key "True" but its
      detail row is flagged wrong. */
  lemma SynonymScoresButFlaggedWrong()
    ensures var q := Question(1, 1, "", TrueFalse, "True", [], 1, "");
      IsCorrect(q, "1") && !DetailFlag(q, "1")
  {
    NormalizeTrue();
    NormalizeLowerWord("1");
  }

  /** And the other way round: against the key "yes" the answer "yes" is
      flagged right but never scores, since "yes" is no synonym. */
  lemma FlaggedRightButNoScore()
    ensures var q := Question(1, 1, "", TrueFalse, "yes", [], 1, "");
      !IsCorrect(q, "yes") && DetailFlag(q, "yes")
  {
    NormalizeLowerWord("yes");
  }

  /** True/false grading against the key "True": the answer "TRUE"
      scores, whatever its case. */
  lemma TrueFalseCaseInsensitive()
    ensures var q := Question(1, 1, "", TrueFalse, "True", [], 1, "");
      IsCorrect(q, "TRUE")
  {
    NormalizeTrue();
  }

  /** Grading ignores case: answers, and keys, that lower-case alike get
      the same verdict and the same detail flag, for every question type. */
  lemma GradingIgnoresCase(q: Question, a: string, b: string, key: string)
    requires Lower(a) == Lower(b) && Lower(q.correctAnswer) == Lower(key)
    ensures IsCorrect(q, a) <==> IsCorrect(q.(correctAnswer := key), b)
    ensures DetailFlag(q, a) <==> DetailFlag(q.(correctAnswer := key), b)
  {
    NormalizeLower(a);
    NormalizeLower(b);
    NormalizeLower(q.correctAnswer);
    NormalizeLower(key);
  }

  /** True/false grading against the key "True": "no" and the empty
      answer do not score. */
  lemma TrueFalseOthersFail()
    ensures var q := Question(1, 1, "", TrueFalse, "True", [], 1, "");
      !IsCorrect(q, "no") && !IsCorrect(q, "")
  {
    NormalizeTrue();
    NormalizeLowerWord("no");
    NormalizeLowerWord("");
  }

  /** The scoring loop of `finish_test`: walks the questions and counts
      the answered ones the score rule accepts. */
  method CountCorrect(qs: seq<Question>, answers: seq<string>) returns (correct: nat)
    ensures correct == Score(qs, answers)
  {
    correct := 0;
    var i := 0;
    while i < |qs|
      invariant 0 <= i <= |qs|
      invariant correct == CountTrue(Verdicts(qs, answers), Min(i, |answers|))
    {
      if i < |answers| {
        var u := Normalize(answers[i]);
        var c := Normalize(qs[i].correctAnswer);
        if qs[i].questionType == TrueFalse {
          if u in TrueWords && c in TrueWords {
            correct := correct + 1;
          } else if u in FalseWords && c in FalseWords {
            correct := correct + 1;
          }
        } else if u == c {
          correct := correct + 1;
        }
      }
      i := i + 1;
    }
  }

  /** The detail loop of `finish_test`: one row per answered question,
      flagged by plain normalised equality. */
  method BuildDetails(resultId: int, qs: seq<Question>, answers: seq<string>)
    returns (details: seq<AnswerDetail>)
    ensures details == DetailRows(resultId, qs, answers)
  {
    details := [];
    var i := 0;
    while i < |qs|
      invariant 0 <= i <= |qs|
      invariant |details| == Min(i, |answers|)
      invariant forall j :: 0 <= j < |details| ==> details[j] == DetailRow(resultId, qs[j], answers[j])
    {
      if i < |answers| {
        var a := answers[i];
        var isCorrect := Normalize(a) == Normalize(qs[i].correctAnswer);
        details := details + [AnswerDetail(resultId, qs[i].questionId, a, isCorrect, 30)];
      }
      i := i + 1;
    }
  }

  /** The dictionary `finish_test` returns. */
  datatype Summary = Summary(totalQuestions: int, correctAnswers: int, percentage: real, timeSpent: int)

  /** The session state of one `TestManager`. */
  class TestManager {
    var currentQuestions: seq<Question>
    var currentQuestionIndex: int
    var userAnswers: seq<string>
    var startTime: Option<int>
    var questionStartTime: Option<int>

    /** Index and answers move in lock-step and never pass the last
        question; a loaded session has a start time. */
    ghost predicate Valid()
      reads this
    {
      0 <= currentQuestionIndex == |userAnswers| <= |currentQuestions|
      && (currentQuestions != [] ==> startTime.Some?)
    }

    constructor ()
      ensures Valid()
      ensures currentQuestions == [] && currentQuestionIndex == 0 && userAnswers == []
      ensures startTime == None && questionStartTime == None
    {
      currentQuestions := [];
      currentQuestionIndex := 0;
      userAnswers := [];
      startTime := None;
      questionStartTime := None;
    }

    /** `start_test` on the rows the store selected. An empty selection
        fails and leaves the session as it was. */
    method StartTest(selected: seq<QuestionRow>, now: int) returns (ok: bool)
      requires Valid()
      modifies this
      ensures Valid()
      ensures ok <==> selected != []
      ensures !ok ==> (currentQuestions == old(currentQuestions)
        && currentQuestionIndex == old(currentQuestionIndex) && userAnswers == old(userAnswers)
        && startTime == old(startTime) && questionStartTime == old(questionStartTime))
      ensures ok ==> (currentQuestions == QuestionsOf(selected)
        && currentQuestionIndex == 0 && userAnswers == []
        && startTime == Some(now) && questionStartTime == Some(now))
      ensures ok ==> forall i :: 0 <= i < |selected| ==> currentQuestions[i].questionId == selected[i].id
    {
      if selected == [] {
        return false;
      }
      currentQuestions := [];
      var i := 0;
      while i < |selected|
        invariant 0 <= i <= |selected|
        invariant |currentQuestions| == i
        invariant forall j :: 0 <= j < i ==> currentQuestions[j] == QuestionOf(selected[j])
      {
        currentQuestions := currentQuestions + [QuestionOf(selected[i])];
        i := i + 1;
      }
      currentQuestionIndex := 0;
      userAnswers := [];
      startTime := Some(now);
      questionStartTime := Some(now);
      ok := true;
    }

    /** `get_current_question`. */
    method GetCurrentQuestion() returns (q: Option<Question>)
      ensures q.Some? <==> 0 <= currentQuestionIndex < |currentQuestions|
      ensures q.Some? ==> q.value == currentQuestions[currentQuestionIndex]
    {
      if 0 <= currentQuestionIndex < |currentQuestions| {
        q := Some(currentQuestions[currentQuestionIndex]);
      } else {
        q := None;
      }
    }

    /** `submit_answer`: records the raw answer and advances, while a
        question is left; otherwise refuses and changes nothing. */
    method SubmitAnswer(answer: string, now: int) returns (ok: bool)
      requires Valid()
      modifies this
      ensures Valid()
      ensures ok <==> old(currentQuestionIndex) < |old(currentQuestions)|
      ensures currentQuestions == old(currentQuestions) && startTime == old(startTime)
      ensures ok ==> (userAnswers == old(userAnswers) + [answer]
        && currentQuestionIndex == old(currentQuestionIndex) + 1
        && questionStartTime == Some(now))
      ensures !ok ==> (userAnswers == old(userAnswers)
        && currentQuestionIndex == old(currentQuestionIndex)
        && questionStartTime == old(questionStartTime))
    {
      if currentQuestionIndex < |currentQuestions| {
        userAnswers := userAnswers + [answer];
        currentQuestionIndex := currentQuestionIndex + 1;
        questionStartTime := Some(now);
        ok := true;
      } else {
        ok := false;
      }
    }

    /** `finish_test`: grades the answers and yields the result row with id
        `resultId`, its detail rows and the summary. With no questions
        loaded it yields nothing. The session itself is not changed. */
    method FinishTest(userId: int, resultId: int, now: int)
      returns (summary: Option<Summary>, result: Option<TestResult>, details: seq<AnswerDetail>)
      requires Valid()
      ensures currentQuestions == [] ==> summary == None && result == None && details == []
      ensures currentQuestions != [] ==>
        var c := Score(currentQuestions, userAnswers);
        var t := now - startTime.value;
        && result == Some(TestResult(resultId, userId, currentQuestions[0].categoryId,
                                     |currentQuestions|, c, now, t))
        && summary == Some(Summary(|currentQuestions|, c,
                                   c as real / |currentQuestions| as real * 100.0, t))
        && details == DetailRows(resultId, currentQuestions, userAnswers)
      ensures summary.Some? ==>
        0 <= summary.value.correctAnswers <= |userAnswers| <= summary.value.totalQuestions
        && 0.0 <= summary.value.percentage <= 100.0
      ensures currentQuestions != [] ==> |details| == |userAnswers|
      ensures forall i :: 0 <= i < |details| ==>
        && details[i].testResultId == resultId
        && details[i].questionId == currentQuestions[i].questionId
        && details[i].userAnswer == userAnswers[i]
        && (details[i].isCorrect <==> DetailFlag(currentQuestions[i], userAnswers[i]))
        && details[i].timeSpent == 30
    {
      var qs := currentQuestions;
      var answers := userAnswers;
      if qs == [] {
        return None, None, [];
      }
      var totalTime := now - startTime.value;

      var correct := CountCorrect(qs, answers);
      result := Some(TestResult(resultId, userId, qs[0].categoryId, |qs|, correct, now, totalTime));
      details := BuildDetails(resultId, qs, answers);
      var p := correct as real / |qs| as real * 100.0;
      PercentageBounds(correct, |qs|);
      summary := Some(Summary(|qs|, correct, p, totalTime));
    }
  }

  /** A share of `c` out of `n` as a percentage lies in 0..100. */
  lemma PercentageBounds(c: int, n: int)
    requires 0 <= c <= n && n > 0
    ensures 0.0 <= c as real / n as real * 100.0 <= 100.0
  {
    assert c as real / n as real <= 1.0;
  }

  /** A score equals the number of answers exactly when every answer
      scores, and is zero exactly when none does. */
  lemma ScoreExtremes(qs: seq<Question>, answers: seq<string>)
    requires |answers| <= |qs|
    ensures Score(qs, answers) == |answers| <==> forall i :: 0 <= i < |answers| ==> IsCorrect(qs[i], answers[i])
    ensures Score(qs, answers) == 0 <==> forall i :: 0 <= i < |answers| ==> !IsCorrect(qs[i], answers[i])
  {
    var vs := Verdicts(qs, answers);
    CountTrueAll(vs, |vs|);
    CountTrueNone(vs, |vs|);
  }
}
