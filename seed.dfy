/** The question generator of the seed script (server/seed-data.ts): for every
    inserted test, its sample questions and the links that order them within
    the test. */
module Seed {
  import opened Common
  import opened Text
  import Scoring

  /** An entry of the seeded test list, with the columns generation reads. */
  datatype TestDefinition = TestDefinition(
    title: string,
    testType: string,
    section: Option<string>,
    totalMarks: int,
    totalQuestions: Option<int>)

  /** A `tests` row returned by the insert: the entry and its id. */
  datatype InsertedTest = InsertedTest(id: string, def: TestDefinition)

  /** Stands for the `uuidv4()` of a generated question: the test it belongs
      to and its number within that test, so distinct questions get distinct
      ids. */
  datatype QuestionId = QuestionId(testId: string, number: nat)

  /** A generated `questions` row (the English columns and the scoring ones). */
  datatype SeedQuestion = SeedQuestion(
    id: QuestionId,
    textEnglish: string,
    correctAnswer: char,
    explanationEnglish: string,
    section: string,
    marks: int,
    negativeMarks: real)

  /** A generated `test_questions` row. */
  datatype TestQuestion = TestQuestion(testId: string, questionId: QuestionId, questionOrder: int)

  /** `test.totalQuestions || 10`, as the number of iterations of
      `for (let i = 1; i <= questionsCount; i++)`: none when it is negative. */
  function QuestionCount(d: TestDefinition): nat
  {
    var c := if d.totalQuestions.None? || d.totalQuestions.value == 0 then 10 else d.totalQuestions.value;
    if c < 0 then 0 else c
  }

  /** `String.fromCharCode(65 + (i % 4))`. */
  function AnswerKey(i: nat): char
  {
    (65 + i % 4) as char
  }

  /** `test.testType === 'MINI_QUIZ' ? 5 : 2`. */
  function MarksFor(testType: string): int
  {
    if testType == "MINI_QUIZ" then 5 else 2
  }

  /** `test.section || 'QUANTITATIVE_APTITUDE'`. */
  function SectionOf(d: TestDefinition): string
  {
    if d.section.None? || d.section.value == "" then "QUANTITATIVE_APTITUDE" else d.section.value
  }

  function QuestionText(title: string, i: nat): string
  {
    "Sample question " + Digits(i) + " for " + title + ". What is the correct answer?"
  }

  function Explanation(i: nat): string
  {
    "This is the explanation for question " + Digits(i)
  }

  /** Question number `i` of a test. */
  function SampleQuestion(t: InsertedTest, i: nat): SeedQuestion
  {
    SeedQuestion(QuestionId(t.id, i), QuestionText(t.def.title, i), AnswerKey(i), Explanation(i),
                 SectionOf(t.def), MarksFor(t.def.testType), 0.5)
  }

  /** The reference: questions 1 to `n` of a test, in order. */
  function Questions(t: InsertedTest, n: nat): (qs: seq<SeedQuestion>)
    ensures |qs| == n
    ensures forall k :: 0 <= k < n ==> qs[k] == SampleQuestion(t, k + 1)
  {
    seq(n, k requires 0 <= k < n => SampleQuestion(t, k + 1))
  }

  /** The inner loop: push one question per number from 1 to the count. */
  method GenerateQuestions(t: InsertedTest) returns (qs: seq<SeedQuestion>)
    ensures qs == Questions(t, QuestionCount(t.def))
    ensures t.def.totalQuestions.None? || t.def.totalQuestions.value == 0 ==> |qs| == 10
    ensures t.def.totalQuestions.Some? && t.def.totalQuestions.value > 0 ==> |qs| == t.def.totalQuestions.value
    ensures t.def.totalQuestions.Some? && t.def.totalQuestions.value < 0 ==> qs == []
    ensures forall k :: 0 <= k < |qs| ==>
      qs[k].id == QuestionId(t.id, k + 1) && 'A' <= qs[k].correctAnswer <= 'D' &&
      qs[k].marks == MarksFor(t.def.testType) && qs[k].negativeMarks == 0.5 && qs[k].section == SectionOf(t.def)
  {
    var questionsCount := if t.def.totalQuestions.None? || t.def.totalQuestions.value == 0 then 10
                          else t.def.totalQuestions.value;
    qs := [];
    var i := 1;
    while i <= questionsCount
      invariant 1 <= i
      invariant questionsCount >= 1 ==> i <= questionsCount + 1
      invariant questionsCount < 1 ==> i == 1
      invariant qs == Questions(t, i - 1)
    {
      var section := if t.def.section.None? || t.def.section.value == "" then "QUANTITATIVE_APTITUDE"
                     else t.def.section.value;
      var marks := if t.def.testType == "MINI_QUIZ" then 5 else 2;
      var question := SeedQuestion(
        QuestionId(t.id, i),
        "Sample question " + Digits(i) + " for " + t.def.title + ". What is the correct answer?",
        (65 + i % 4) as char,
        "This is the explanation for question " + Digits(i),
        section, marks, 0.5);
      assert question == SampleQuestion(t, i);
      qs := qs + [question];
      assert qs == Questions(t, i);
      i := i + 1;
    }
    assert i - 1 == QuestionCount(t.def);
  }

  /** Every one of the four keys is the answer to some question once a test
      has at least four, cycling B, C, D, A from question 1. */
  lemma AnswersCycle(t: InsertedTest, n: nat)
    ensures forall k :: 0 <= k < n ==> 'A' <= Questions(t, n)[k].correctAnswer <= 'D'
    ensures forall k :: 0 <= k < n && k + 4 < n ==>
      Questions(t, n)[k + 4].correctAnswer == Questions(t, n)[k].correctAnswer
    ensures n >= 4 ==>
      Questions(t, n)[0].correctAnswer == 'B' && Questions(t, n)[1].correctAnswer == 'C' &&
      Questions(t, n)[2].correctAnswer == 'D' && Questions(t, n)[3].correctAnswer == 'A'
  {
    forall k | 0 <= k < n && k + 4 < n
      ensures Questions(t, n)[k + 4].correctAnswer == Questions(t, n)[k].correctAnswer
    {
      assert (k + 5) % 4 == (k + 1) % 4;
    }
  }

  /** The explanation of question `i` names `i`: reading back the digits
      after its fixed prefix gives the number. */
  lemma ExplanationNamesQuestion(i: nat)
    ensures |Explanation(i)| > 37
    ensures forall c :: c in Explanation(i)[37..] ==> '0' <= c <= '9'
    ensures ParseDigits(Explanation(i)[37..]) == i
  {
    assert Explanation(i)[37..] == Digits(i);
    ParseDigitsOfDigits(i);
  }

  /** The `map` that orders a test's questions. */
  function LinkQuestions(t: InsertedTest, qs: seq<SeedQuestion>): (links: seq<TestQuestion>)
    ensures |links| == |qs|
    ensures forall k :: 0 <= k < |qs| ==> links[k].testId == t.id && links[k].questionId == qs[k].id
  {
    seq(|qs|, k requires 0 <= k < |qs| => TestQuestion(t.id, qs[k].id, k + 1))
  }

  predicate HasOrder(links: seq<TestQuestion>, o: int)
  {
    exists k :: 0 <= k < |links| && links[k].questionOrder == o
  }

  /** The orders of a test's links are exactly 1 to the number of questions,
      increasing along the questions. */
  lemma LinkOrders(t: InsertedTest, qs: seq<SeedQuestion>)
    ensures forall o :: HasOrder(LinkQuestions(t, qs), o) <==> 1 <= o <= |qs|
    ensures forall j, k :: 0 <= j < k < |qs| ==>
      LinkQuestions(t, qs)[j].questionOrder < LinkQuestions(t, qs)[k].questionOrder
  {
    var links := LinkQuestions(t, qs);
    forall o | 1 <= o <= |qs|
      ensures HasOrder(links, o)
    {
      assert links[o - 1].questionOrder == o;
    }
  }

  /** The questions generated for the tests in insertion order. */
  function AllQuestions(tests: seq<InsertedTest>): seq<SeedQuestion>
  {
    if tests == [] then []
    else
      var t := tests[|tests| - 1];
      AllQuestions(tests[..|tests| - 1]) + Questions(t, QuestionCount(t.def))
  }

  /** The links generated for the tests in insertion order. */
  function AllLinks(tests: seq<InsertedTest>): seq<TestQuestion>
  {
    if tests == [] then []
    else
      var t := tests[|tests| - 1];
      AllLinks(tests[..|tests| - 1]) + LinkQuestions(t, Questions(t, QuestionCount(t.def)))
  }

  /** The outer loop: generate each test's questions, then its links. */
  method SeedQuestions(tests: seq<InsertedTest>) returns (questions: seq<SeedQuestion>, links: seq<TestQuestion>)
    ensures questions == AllQuestions(tests)
    ensures links == AllLinks(tests)
  {
    questions, links := [], [];
    var n := 0;
    while n < |tests|
      invariant 0 <= n <= |tests|
      invariant questions == AllQuestions(tests[..n])
      invariant links == AllLinks(tests[..n])
    {
      var test := tests[n];
      var sampleQuestions := GenerateQuestions(test);
      questions := questions + sampleQuestions;
      links := links + LinkQuestions(test, sampleQuestions);
      assert tests[..n + 1][..n] == tests[..n];
      n := n + 1;
    }
    assert tests[..|tests|] == tests;
  }

  /** Link k points at question k: every generated question is linked once,
      to its own test. */
  lemma {:induction false} LinksMatchQuestions(tests: seq<InsertedTest>)
    ensures |AllLinks(tests)| == |AllQuestions(tests)|
    ensures forall k :: 0 <= k < |AllLinks(tests)| ==>
      AllLinks(tests)[k].questionId == AllQuestions(tests)[k].id &&
      AllLinks(tests)[k].testId == AllQuestions(tests)[k].id.testId
  {
    if tests != [] {
      var init := tests[..|tests| - 1];
      LinksMatchQuestions(init);
    }
  }

  predicate BelongsTo(q: SeedQuestion, tests: seq<InsertedTest>)
  {
    exists j :: 0 <= j < |tests| && q.id.testId == tests[j].id
  }

  /** Every generated question belongs to one of the tests. */
  lemma {:induction false} QuestionsBelongToTests(tests: seq<InsertedTest>)
    ensures forall k :: 0 <= k < |AllQuestions(tests)| ==> BelongsTo(AllQuestions(tests)[k], tests)
  {
    if tests != [] {
      var init := tests[..|tests| - 1];
      var t := tests[|tests| - 1];
      QuestionsBelongToTests(init);
      var front := AllQuestions(init);
      var all := AllQuestions(tests);
      assert all == front + Questions(t, QuestionCount(t.def));
      forall k | 0 <= k < |all|
        ensures BelongsTo(all[k], tests)
      {
        if k < |front| {
          assert BelongsTo(front[k], init);
          var j :| 0 <= j < |init| && front[k].id.testId == init[j].id;
          assert tests[j] == init[j];
        } else {
          assert all[k].id.testId == tests[|tests| - 1].id;
        }
      }
    }
  }

  /** A sanity check on the stand-in question id: tests with distinct ids get
      questions with distinct ids. The real ids are random uuids. */
  lemma {:induction false} QuestionIdsDistinct(tests: seq<InsertedTest>)
    requires forall i, j :: 0 <= i < j < |tests| ==> tests[i].id != tests[j].id
    ensures forall a, b :: 0 <= a < b < |AllQuestions(tests)| ==> AllQuestions(tests)[a].id != AllQuestions(tests)[b].id
  {
    if tests != [] {
      var init := tests[..|tests| - 1];
      var t := tests[|tests| - 1];
      QuestionIdsDistinct(init);
      QuestionsBelongToTests(init);
      var front := AllQuestions(init);
      var all := AllQuestions(tests);
      assert all == front + Questions(t, QuestionCount(t.def));
      forall a, b | 0 <= a < b < |all|
        ensures all[a].id != all[b].id
      {
        if b >= |front| && a < |front| {
          assert BelongsTo(front[a], init);
          var j :| 0 <= j < |init| && front[a].id.testId == init[j].id;
          assert tests[j] == init[j];
          assert all[b].id.testId == t.id;
        }
      }
    }
  }

  // ----- declared total marks ---------------------------------------------------

  /** The scoring view of a generated question; within one test the question
      number identifies it. */
  function ToScoring(q: SeedQuestion): Scoring.Question
  {
    Scoring.Question(Digits(q.id.number), [q.correctAnswer], Some(q.marks), Some(q.negativeMarks))
  }

  function ScoringQuestions(qs: seq<SeedQuestion>): (r: seq<Scoring.Question>)
    ensures |r| == |qs|
    ensures forall k :: 0 <= k < |qs| ==> r[k] == ToScoring(qs[k])
  {
    seq(|qs|, k requires 0 <= k < |qs| => ToScoring(qs[k]))
  }

  /** Questions that all carry the same non-zero mark `m` earn at most
      their number times `m`. */
  lemma {:induction false} MaxScoreUniform(qs: seq<Scoring.Question>, m: int)
    requires m != 0
    requires forall k :: 0 <= k < |qs| ==> qs[k].marks == Some(m)
    ensures Scoring.MaxScore(qs) == (|qs| * m) as real
  {
    if qs != [] {
      MaxScoreUniform(qs[..|qs| - 1], m);
    }
  }

  /** The most a test's generated questions can earn: count times marks. */
  lemma MaxScoreOfQuestions(t: InsertedTest, n: nat)
    ensures Scoring.MaxScore(ScoringQuestions(Questions(t, n))) == (n * MarksFor(t.def.testType)) as real
    ensures forall k :: 0 <= k < n ==> Scoring.WellFormed(ScoringQuestions(Questions(t, n))[k])
  {
    var qs := ScoringQuestions(Questions(t, n));
    assert forall k :: 0 <= k < n ==> qs[k].marks == Some(MarksFor(t.def.testType));
    MaxScoreUniform(qs, MarksFor(t.def.testType));
  }

  /** The declared total equals what the generated questions carry. */
  predicate MarksConsistent(d: TestDefinition)
  {
    d.totalMarks == QuestionCount(d) * MarksFor(d.testType)
  }

  /** The test list as the seed script declares it. */
  function SeedTestData(): seq<TestDefinition>
  {
    [ TestDefinition("SSC CGL Mock Test - 1", "FULL_LENGTH", None, 200, Some(100)),
      TestDefinition("Quantitative Aptitude - Sectional Test", "SECTIONAL", Some("QUANTITATIVE_APTITUDE"), 100, Some(25)),
      TestDefinition("Reasoning Ability - Sectional Test", "SECTIONAL", Some("REASONING"), 100, Some(25)),
      TestDefinition("General Awareness - Mini Quiz", "MINI_QUIZ", Some("GENERAL_AWARENESS"), 50, Some(10)),
      TestDefinition("English Comprehension - Practice Test", "SECTIONAL", Some("ENGLISH"), 75, Some(15)) ]
  }

  /** As declared, only the full-length test and the mini quiz carry the
      marks their questions add up to. */
  lemma DeclaredMarksMismatch()
    ensures |SeedTestData()| == 5
    ensures MarksConsistent(SeedTestData()[0]) && MarksConsistent(SeedTestData()[3])
    ensures !MarksConsistent(SeedTestData()[1]) && !MarksConsistent(SeedTestData()[2])
    ensures !MarksConsistent(SeedTestData()[4])
  {
  }

  /** As declared, the sectional tests cannot be passed above 50%: a perfect
      answer sheet for the quantitative sectional test is stored as 50%. */
  lemma SectionalPerfectScoreIsHalf(id: string, answers: Scoring.Answers)
    ensures var t := InsertedTest(id, SeedTestData()[1]);
      var qs := ScoringQuestions(Questions(t, QuestionCount(t.def)));
      && Scoring.StoredPercentage(Scoring.RawScore(qs, answers), Some(t.def.totalMarks)) <= 50.0
      && ((forall k :: 0 <= k < |qs| ==> Scoring.Judge(qs[k], answers) == Scoring.Correct) ==>
          Scoring.StoredPercentage(Scoring.RawScore(qs, answers), Some(t.def.totalMarks)) == 50.0)
  {
    var t := InsertedTest(id, SeedTestData()[1]);
    var qs := ScoringQuestions(Questions(t, 25));
    MaxScoreOfQuestions(t, 25);
    Scoring.RawScoreBounds(qs, answers);
    var raw := Scoring.RawScore(qs, answers);
    var p := Scoring.Percentage(raw, Some(100));
    assert p <= 50.0;
    Round2Within(p, 0, 50);
    if forall k :: 0 <= k < |qs| ==> Scoring.Judge(qs[k], answers) == Scoring.Correct {
      Scoring.AllCorrectEarnsMax(qs, answers);
      assert p == 50.0;
      assert Round(5000.0) == 5000;
    }
  }

  /** The test list with each total set to what its questions carry. */
  function SeedTestDataCorrected(): seq<TestDefinition>
  {
    [ TestDefinition("SSC CGL Mock Test - 1", "FULL_LENGTH", None, 200, Some(100)),
      TestDefinition("Quantitative Aptitude - Sectional Test", "SECTIONAL", Some("QUANTITATIVE_APTITUDE"), 50, Some(25)),
      TestDefinition("Reasoning Ability - Sectional Test", "SECTIONAL", Some("REASONING"), 50, Some(25)),
      TestDefinition("General Awareness - Mini Quiz", "MINI_QUIZ", Some("GENERAL_AWARENESS"), 50, Some(10)),
      TestDefinition("English Comprehension - Practice Test", "SECTIONAL", Some("ENGLISH"), 30, Some(15)) ]
  }

  lemma CorrectedMarksConsistent()
    ensures forall k :: 0 <= k < |SeedTestDataCorrected()| ==> MarksConsistent(SeedTestDataCorrected()[k])
  {
  }

  /** A raw score equal to the total marks is stored as 100%. */
  lemma FullMarksStoredAsHundred(total: int)
    requires total > 0
    ensures Scoring.StoredPercentage(total as real, Some(total)) == 100.0
  {
    var p := Scoring.Percentage(total as real, Some(total));
    assert p * total as real == 100.0 * total as real;
    assert p == 100.0;
    assert Round(10000.0) == 10000;
  }

  /** With consistent totals, the stored percentage never exceeds 100 and a
      perfect answer sheet is stored as exactly 100. */
  lemma PerfectScoreIsFull(t: InsertedTest, answers: Scoring.Answers)
    requires MarksConsistent(t.def) && QuestionCount(t.def) > 0
    ensures var qs := ScoringQuestions(Questions(t, QuestionCount(t.def)));
      && Scoring.StoredPercentage(Scoring.RawScore(qs, answers), Some(t.def.totalMarks)) <= 100.0
      && ((forall k :: 0 <= k < |qs| ==> Scoring.Judge(qs[k], answers) == Scoring.Correct) ==>
          Scoring.StoredPercentage(Scoring.RawScore(qs, answers), Some(t.def.totalMarks)) == 100.0)
  {
    var n := QuestionCount(t.def);
    var qs := ScoringQuestions(Questions(t, n));
    MaxScoreOfQuestions(t, n);
    assert Scoring.MaxScore(qs) == t.def.totalMarks as real;
    Scoring.RawScoreBounds(qs, answers);
    if forall k :: 0 <= k < |qs| ==> Scoring.Judge(qs[k], answers) == Scoring.Correct {
      Scoring.AllCorrectEarnsMax(qs, answers);
      FullMarksStoredAsHundred(t.def.totalMarks);
    }
  }

  /** Every corrected seeded test scores 100% for a perfect sheet. */
  lemma CorrectedSeedPerfectScores(id: string, k: nat, answers: Scoring.Answers)
    requires k < |SeedTestDataCorrected()|
    ensures var t := InsertedTest(id, SeedTestDataCorrected()[k]);
      var qs := ScoringQuestions(Questions(t, QuestionCount(t.def)));
      (forall j :: 0 <= j < |qs| ==> Scoring.Judge(qs[j], answers) == Scoring.Correct) ==>
        Scoring.StoredPercentage(Scoring.RawScore(qs, answers), Some(t.def.totalMarks)) == 100.0
  {
    CorrectedMarksConsistent();
    PerfectScoreIsFull(InsertedTest(id, SeedTestDataCorrected()[k]), answers);
  }
}
