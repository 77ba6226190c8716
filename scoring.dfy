/** Scoring of a submitted attempt with negative marking, and the row update
    that submission writes (TestTaking.tsx, `submitTestMutation`). */
module Scoring {
  import opened Common

  /** The scoring-relevant columns of a question. `marks` and `negativeMarks`
      are nullable in the store. */
  datatype Question = Question(
    id: string,
    correctAnswer: string,
    marks: Option<int>,
    negativeMarks: Option<real>)

  /** The client-side answer record: question id to selected option key. */
  type Answers = map<string, string>

  /** `question.marks || 1`: a null or zero mark counts as 1. */
  function AwardFor(q: Question): (m: real)
    ensures q.marks.Some? && q.marks.value != 0 ==> m == q.marks.value as real
    ensures q.marks.None? || q.marks.value == 0 ==> m == 1.0
  {
    if q.marks.None? || q.marks.value == 0 then 1.0 else q.marks.value as real
  }

  /** `question.negative_marks || 0.25`: a null or zero penalty counts as 0.25. */
  function PenaltyFor(q: Question): (p: real)
    ensures q.negativeMarks.Some? && q.negativeMarks.value != 0.0 ==> p == q.negativeMarks.value
    ensures q.negativeMarks.None? || q.negativeMarks.value == 0.0 ==> p == 0.25
  {
    if q.negativeMarks.None? || q.negativeMarks.value == 0.0 then 0.25 else q.negativeMarks.value
  }

  datatype Verdict = Correct | Wrong | Blank

  /** How one question is judged: the selection equals the correct key, or is
      a non-empty wrong key, or there is no (truthy) selection at all. */
  function Judge(q: Question, answers: Answers): Verdict
  {
    if q.id in answers && answers[q.id] == q.correctAnswer then Correct
    else if q.id in answers && answers[q.id] != "" then Wrong
    else Blank
  }

  /** What one question adds to the running total. */
  function Delta(q: Question, answers: Answers): real
  {
    match Judge(q, answers)
    case Correct => AwardFor(q)
    case Wrong => -PenaltyFor(q)
    case Blank => 0.0
  }

  /** The unclamped total after visiting the questions in order. */
  function RawScore(qs: seq<Question>, answers: Answers): real
  {
    if qs == [] then 0.0
    else RawScore(qs[..|qs| - 1], answers) + Delta(qs[|qs| - 1], answers)
  }

  function CorrectCount(qs: seq<Question>, answers: Answers): nat
  {
    if qs == [] then 0
    else CorrectCount(qs[..|qs| - 1], answers) + (if Judge(qs[|qs| - 1], answers) == Correct then 1 else 0)
  }

  /** The `forEach` loop of `submitTestMutation`: accumulate the score and the
      number of correct answers over the ordered questions. */
  method ComputeScore(qs: seq<Question>, answers: Answers) returns (totalScore: real, correctAnswers: nat)
    ensures totalScore == RawScore(qs, answers)
    ensures correctAnswers == CorrectCount(qs, answers)
  {
    totalScore, correctAnswers := 0.0, 0;
    var i := 0;
    while i < |qs|
      invariant 0 <= i <= |qs|
      invariant totalScore == RawScore(qs[..i], answers)
      invariant correctAnswers == CorrectCount(qs[..i], answers)
    {
      var q := qs[i];
      assert qs[..i + 1][..i] == qs[..i];
      if q.id in answers && answers[q.id] == q.correctAnswer {
        correctAnswers := correctAnswers + 1;
        totalScore := totalScore + AwardFor(q);
      } else if q.id in answers && answers[q.id] != "" {
        totalScore := totalScore - PenaltyFor(q);
      }
      i := i + 1;
    }
    assert qs[..|qs|] == qs;
  }

  /** The score of a concatenation is the sum of the scores of the parts, so a
      penalty early in the test is carried to the end, never dropped. */
  lemma {:induction false} RawScoreAppend(a: seq<Question>, b: seq<Question>, answers: Answers)
    ensures RawScore(a + b, answers) == RawScore(a, answers) + RawScore(b, answers)
  {
    if b == [] {
      assert a + b == a;
    } else {
      assert (a + b)[..|a + b| - 1] == a + b[..|b| - 1];
      RawScoreAppend(a, b[..|b| - 1], answers);
    }
  }

  /** Marks and penalties as the design has them: non-negative. */
  predicate WellFormed(q: Question)
  {
    (q.marks.Some? ==> q.marks.value >= 0) && (q.negativeMarks.Some? ==> q.negativeMarks.value >= 0.0)
  }

  /** The best possible score: every question answered correctly. */
  function MaxScore(qs: seq<Question>): real
  {
    if qs == [] then 0.0 else MaxScore(qs[..|qs| - 1]) + AwardFor(qs[|qs| - 1])
  }

  /** The worst possible score: every question answered wrongly. */
  function MaxPenalty(qs: seq<Question>): real
  {
    if qs == [] then 0.0 else MaxPenalty(qs[..|qs| - 1]) + PenaltyFor(qs[|qs| - 1])
  }

  /** The raw score lies between losing every penalty and earning every mark. */
  lemma {:induction false} RawScoreBounds(qs: seq<Question>, answers: Answers)
    requires forall i :: 0 <= i < |qs| ==> WellFormed(qs[i])
    ensures -MaxPenalty(qs) <= RawScore(qs, answers) <= MaxScore(qs)
    ensures CorrectCount(qs, answers) <= |qs|
  {
    if qs != [] {
      RawScoreBounds(qs[..|qs| - 1], answers);
    }
  }

  /** Answering every question correctly earns exactly the maximum. */
  lemma {:induction false} AllCorrectEarnsMax(qs: seq<Question>, answers: Answers)
    requires forall i :: 0 <= i < |qs| ==> Judge(qs[i], answers) == Correct
    ensures RawScore(qs, answers) == MaxScore(qs)
    ensures CorrectCount(qs, answers) == |qs|
  {
    if qs != [] {
      AllCorrectEarnsMax(qs[..|qs| - 1], answers);
    }
  }

  /** Leaving every question blank scores nothing: blanks are never penalised. */
  lemma {:induction false} AllBlankScoresZero(qs: seq<Question>)
    ensures RawScore(qs, map[]) == 0.0
    ensures CorrectCount(qs, map[]) == 0
  {
    if qs != [] {
      AllBlankScoresZero(qs[..|qs| - 1]);
    }
  }

  /** A question explicitly set to zero negative marks still costs 0.25 when
      answered wrongly, because `0 || 0.25` is `0.25`. */
  lemma ZeroPenaltyStillPenalised(q: Question, answers: Answers)
    requires q.negativeMarks == Some(0.0)
    requires q.id in answers && answers[q.id] != "" && answers[q.id] != q.correctAnswer
    ensures RawScore([q], answers) == -0.25
  {
    assert [q][..0] == [];
  }

  /** `total_score`: the raw total clamped once, at the end. */
  function StoredScore(raw: real): (s: real)
    ensures s >= 0.0 && s >= raw
    ensures raw >= 0.0 ==> s == raw
    ensures raw < 0.0 ==> s == 0.0
  {
    if raw < 0.0 then 0.0 else raw
  }

  /** The alternative the source does not use: clamping after every question. */
  function ClampEachStep(qs: seq<Question>, answers: Answers): real
  {
    if qs == [] then 0.0
    else StoredScore(ClampEachStep(qs[..|qs| - 1], answers) + Delta(qs[|qs| - 1], answers))
  }

  /** Clamping once never gives more than clamping at every step. */
  lemma {:induction false} ClampOnceNotAbovePerStep(qs: seq<Question>, answers: Answers)
    ensures ClampEachStep(qs, answers) >= 0.0
    ensures StoredScore(RawScore(qs, answers)) <= ClampEachStep(qs, answers)
  {
    if qs != [] {
      ClampOnceNotAbovePerStep(qs[..|qs| - 1], answers);
    }
  }

  /** A wrong answer followed by a correct one: the penalty is subtracted from
      the later mark, whereas per-step clamping would have forgotten it. */
  lemma EarlyPenaltyOffsetByLaterMarks(wrong: Question, right: Question, answers: Answers)
    requires Judge(wrong, answers) == Wrong && Judge(right, answers) == Correct
    requires PenaltyFor(wrong) > 0.0 && AwardFor(right) >= PenaltyFor(wrong)
    ensures StoredScore(RawScore([wrong, right], answers)) == AwardFor(right) - PenaltyFor(wrong)
    ensures ClampEachStep([wrong, right], answers) == AwardFor(right)
  {
    assert [wrong, right][..1] == [wrong];
    assert [wrong][..0] == [];
    assert Delta(wrong, answers) == -PenaltyFor(wrong);
    assert Delta(right, answers) == AwardFor(right);
    assert RawScore([wrong], answers) == -PenaltyFor(wrong);
    assert ClampEachStep([wrong], answers) == 0.0;
  }

  /** The percentage expression: 0 when `total_marks` is 0 or absent, else
      `max(0, raw / total_marks * 100)`. */
  function Percentage(raw: real, totalMarks: Option<int>): (p: real)
    ensures p >= 0.0
    ensures totalMarks.None? || totalMarks.value == 0 ==> p == 0.0
    ensures totalMarks.Some? && totalMarks.value > 0 && raw <= totalMarks.value as real ==> p <= 100.0
    ensures totalMarks.Some? && totalMarks.value > 0 && raw >= 0.0 ==>
      p * totalMarks.value as real == 100.0 * raw
    ensures raw <= 0.0 && (totalMarks.None? || totalMarks.value >= 0) ==> p == 0.0
  {
    if totalMarks.None? || totalMarks.value == 0 then 0.0
    else
      var q := raw / totalMarks.value as real * 100.0;
      if q < 0.0 then 0.0 else q
  }

  /** The stored percentage: rounded to two decimals, never negative, at most
      100 when the raw score does not exceed the total marks. */
  function StoredPercentage(raw: real, totalMarks: Option<int>): (p: real)
    ensures p >= 0.0
    ensures Percentage(raw, totalMarks) - 0.005 < p <= Percentage(raw, totalMarks) + 0.005
    ensures (p * 100.0).Floor as real == p * 100.0
    ensures totalMarks.Some? && totalMarks.value > 0 && raw <= totalMarks.value as real ==> p <= 100.0
    ensures totalMarks.None? || totalMarks.value == 0 ==> p == 0.0
  {
    var pc := Percentage(raw, totalMarks);
    Round2Within(pc, 0, if pc <= 100.0 then 100 else pc.Floor + 1);
    Round2(pc)
  }

  /** The test columns submission reads. */
  datatype TestInfo = TestInfo(durationMinutes: int, totalMarks: Option<int>)

  /** The columns `submitTestMutation` writes to the attempt row. */
  datatype AttemptUpdate = AttemptUpdate(
    isCompleted: bool,
    submittedAt: int,
    totalScore: real,
    percentage: real,
    durationTaken: int)

  datatype SubmitError = MissingRequiredData

  /** The update written on submission, from the raw score, the loaded test
      (absent while the attempt query has not returned), the seconds left on
      the clock and the submission time. It fails only without an attempt id
      or a signed-in user. */
  function SubmissionUpdate(haveAttemptAndUser: bool, raw: real, test: Option<TestInfo>,
                            timeRemaining: nat, now: int): (r: Result<AttemptUpdate, SubmitError>)
    ensures !haveAttemptAndUser <==> r == Err(MissingRequiredData)
    ensures r.Ok? ==> r.value.isCompleted && r.value.submittedAt == now
    ensures r.Ok? ==> r.value.totalScore == StoredScore(raw)
    ensures r.Ok? ==> r.value.totalScore >= 0.0 && r.value.totalScore >= raw
    ensures r.Ok? && raw >= 0.0 ==> r.value.totalScore == raw
    ensures r.Ok? && raw < 0.0 ==> r.value.totalScore == 0.0
    ensures r.Ok? ==> r.value.percentage >= 0.0
    ensures r.Ok? && test.None? ==> r.value.percentage == 0.0 && r.value.durationTaken == 0
    ensures r.Ok? && test.Some? && test.value.durationMinutes >= 0 && timeRemaining <= test.value.durationMinutes * 60 ==>
      0 <= r.value.durationTaken <= test.value.durationMinutes
    ensures r.Ok? && test.Some? ==>
      r.value.percentage == StoredPercentage(raw, test.value.totalMarks) &&
      r.value.durationTaken + timeRemaining / 60 == test.value.durationMinutes
  {
    if !haveAttemptAndUser then Err(MissingRequiredData)
    else
      var pct := if test.Some? then StoredPercentage(raw, test.value.totalMarks) else 0.0;
      var taken := if test.Some? then test.value.durationMinutes - timeRemaining / 60 else 0;
      Ok(AttemptUpdate(true, now, StoredScore(raw), pct, taken))
  }

  /** The stored attempt row. */
  datatype AttemptRow = AttemptRow(
    userId: string,
    testId: string,
    startedAt: int,
    isCompleted: bool,
    submittedAt: Option<int>,
    totalScore: real,
    percentage: real,
    durationTaken: Option<int>)

  /** `update(...).eq('id', attemptId)`: overwrite the row if it exists, with
      no condition on its completion flag. */
  function ApplySubmission(store: map<string, AttemptRow>, attemptId: string, u: AttemptUpdate): (s: map<string, AttemptRow>)
    ensures s.Keys == store.Keys
    ensures forall k :: k in store && k != attemptId ==> s[k] == store[k]
    ensures attemptId in s ==>
      s[attemptId].isCompleted == u.isCompleted && s[attemptId].submittedAt == Some(u.submittedAt) &&
      s[attemptId].totalScore == u.totalScore && s[attemptId].percentage == u.percentage &&
      s[attemptId].durationTaken == Some(u.durationTaken) &&
      s[attemptId].userId == store[attemptId].userId && s[attemptId].testId == store[attemptId].testId &&
      s[attemptId].startedAt == store[attemptId].startedAt
  {
    if attemptId in store then
      store[attemptId := store[attemptId].(isCompleted := u.isCompleted, submittedAt := Some(u.submittedAt),
                                           totalScore := u.totalScore, percentage := u.percentage,
                                           durationTaken := Some(u.durationTaken))]
    else store
  }

  /** Submitting twice is not a no-op: the second write keeps the score and
      percentage (they depend only on the answers) but overwrites the
      submission time and the duration taken. */
  lemma ResubmissionOverwrites(store: map<string, AttemptRow>, id: string, raw: real, test: TestInfo,
                               left1: nat, left2: nat, now1: int, now2: int)
    requires id in store
    ensures var u1 := SubmissionUpdate(true, raw, Some(test), left1, now1).value;
            var u2 := SubmissionUpdate(true, raw, Some(test), left2, now2).value;
            var once := ApplySubmission(store, id, u1);
            var twice := ApplySubmission(once, id, u2);
            once[id].isCompleted &&
            twice[id].totalScore == once[id].totalScore &&
            twice[id].percentage == once[id].percentage &&
            twice[id].submittedAt == Some(now2) &&
            (left1 / 60 != left2 / 60 ==> twice[id].durationTaken != once[id].durationTaken)
  {
  }

  /** The end-to-end scenario of the design: marks 2, 2, 1 (total 5), penalties
      0.5, 0.5, 0.25; first answered correctly, second wrongly, third blank. */
  lemma ThreeQuestionScenario()
    ensures var qs := [Question("q1", "A", Some(2), Some(0.5)),
                       Question("q2", "B", Some(2), Some(0.5)),
                       Question("q3", "C", Some(1), Some(0.25))];
            var answers := map["q1" := "A", "q2" := "C"];
            RawScore(qs, answers) == 1.5 && StoredScore(1.5) == 1.5 &&
            StoredPercentage(1.5, Some(5)) == 30.0
  {
    var qs := [Question("q1", "A", Some(2), Some(0.5)),
               Question("q2", "B", Some(2), Some(0.5)),
               Question("q3", "C", Some(1), Some(0.25))];
    var answers := map["q1" := "A", "q2" := "C"];
    assert qs[..2][..1] == qs[..1];
    assert qs[..1][..0] == [];
    assert RawScore(qs[..1], answers) == 2.0;
    assert RawScore(qs[..2], answers) == 1.5;
    assert Round(3000.0) == 3000;
  }
}
