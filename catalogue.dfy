/** The test catalogue (Tests.tsx): search and section filtering of the
    active tests, their grouping by test type, the completion badge of each
    test and the guard before an attempt is created. */
module Catalogue {
  import opened Common
  import opened Text

  /** A `tests` row as the catalogue reads it. */
  datatype TestRow = TestRow(id: string, title: string, description: Option<string>, section: Option<string>, testType: string)

  /** `title.toLowerCase().includes(term.toLowerCase()) ||
      description?.toLowerCase().includes(term.toLowerCase())`; a missing
      description never matches. */
  predicate MatchesSearch(t: TestRow, term: string)
  {
    Contains(Lower(t.title), Lower(term)) ||
    (t.description.Some? && Contains(Lower(t.description.value), Lower(term)))
  }

  /** `selectedSection === 'ALL' || test.section === selectedSection`. */
  predicate MatchesSection(t: TestRow, selected: string)
  {
    selected == "ALL" || t.section == Some(selected)
  }

  predicate Shown(t: TestRow, term: string, selected: string)
  {
    MatchesSearch(t, term) && MatchesSection(t, selected)
  }

  /** `filteredTests`: the tests passing both conditions, in catalogue order. */
  function FilteredTests(tests: seq<TestRow>, term: string, selected: string): (r: seq<TestRow>)
    ensures |r| <= |tests|
    ensures forall t :: t in r ==> t in tests && Shown(t, term, selected)
  {
    Filter(tests, (t: TestRow) => Shown(t, term, selected))
  }

  /** A test is listed exactly when it is in the catalogue and passes both the
      search and the section condition. */
  lemma FilteredTestsSpec(tests: seq<TestRow>, term: string, selected: string, t: TestRow)
    ensures t in FilteredTests(tests, term, selected) <==>
      t in tests && MatchesSearch(t, term) && MatchesSection(t, selected)
  {
    FilterMembership(tests, (t: TestRow) => Shown(t, term, selected), t);
  }

  /** The search is case-insensitive in the term. */
  lemma SearchIgnoresTermCase(t: TestRow, term: string)
    ensures MatchesSearch(t, term) <==> MatchesSearch(t, Lower(term))
  {
    LowerIdempotent(term);
  }

  /** The initial state, an empty term and section 'ALL', lists every test. */
  lemma {:induction false} InitialFilterShowsAll(tests: seq<TestRow>)
    ensures FilteredTests(tests, "", "ALL") == tests
  {
    forall i | 0 <= i < |tests| ensures Shown(tests[i], "", "ALL") {
      ContainsEmpty(Lower(tests[i].title));
    }
    FilterAll(tests, (t: TestRow) => Shown(t, "", "ALL"));
  }

  /** `filteredTests.filter(t => t.test_type === ty)`. */
  function OfType(tests: seq<TestRow>, ty: string): (r: seq<TestRow>)
    ensures forall t :: t in r ==> t in tests && t.testType == ty
  {
    Filter(tests, (t: TestRow) => t.testType == ty)
  }

  /** `testsByType`: the four tabs. */
  datatype TestsByType = TestsByType(fullLength: seq<TestRow>, sectional: seq<TestRow>, chapterWise: seq<TestRow>, previousYear: seq<TestRow>)

  function GroupByType(filtered: seq<TestRow>): (g: TestsByType)
    ensures forall t :: t in g.fullLength ==> t in filtered && t.testType == "FULL_LENGTH"
    ensures forall t :: t in g.sectional ==> t in filtered && t.testType == "SECTIONAL"
    ensures forall t :: t in g.chapterWise ==> t in filtered && t.testType == "CHAPTER_WISE"
    ensures forall t :: t in g.previousYear ==> t in filtered && t.testType == "PREVIOUS_YEAR"
  {
    TestsByType(
      OfType(filtered, "FULL_LENGTH"), OfType(filtered, "SECTIONAL"),
      OfType(filtered, "CHAPTER_WISE"), OfType(filtered, "PREVIOUS_YEAR"))
  }

  predicate Tabbed(ty: string)
  {
    ty == "FULL_LENGTH" || ty == "SECTIONAL" || ty == "CHAPTER_WISE" || ty == "PREVIOUS_YEAR"
  }

  /** Every listed test of a tabbed type is in its tab; a test of any other
      type (such as MINI_QUIZ) is in none. */
  lemma GroupMembership(filtered: seq<TestRow>, t: TestRow)
    ensures t in GroupByType(filtered).fullLength <==> t in filtered && t.testType == "FULL_LENGTH"
    ensures t in GroupByType(filtered).sectional <==> t in filtered && t.testType == "SECTIONAL"
    ensures t in GroupByType(filtered).chapterWise <==> t in filtered && t.testType == "CHAPTER_WISE"
    ensures t in GroupByType(filtered).previousYear <==> t in filtered && t.testType == "PREVIOUS_YEAR"
    ensures !Tabbed(t.testType) ==>
      t !in GroupByType(filtered).fullLength && t !in GroupByType(filtered).sectional &&
      t !in GroupByType(filtered).chapterWise && t !in GroupByType(filtered).previousYear
  {
    FilterMembership(filtered, (t: TestRow) => t.testType == "FULL_LENGTH", t);
    FilterMembership(filtered, (t: TestRow) => t.testType == "SECTIONAL", t);
    FilterMembership(filtered, (t: TestRow) => t.testType == "CHAPTER_WISE", t);
    FilterMembership(filtered, (t: TestRow) => t.testType == "PREVIOUS_YEAR", t);
  }

  /** The tabs split the listed tests: their sizes and the number of untabbed
      tests add up to the whole list. */
  lemma {:induction false} GroupSizes(filtered: seq<TestRow>)
    ensures var g := GroupByType(filtered);
      |g.fullLength| + |g.sectional| + |g.chapterWise| + |g.previousYear| +
      |Filter(filtered, (t: TestRow) => !Tabbed(t.testType))| == |filtered|
  {
    if filtered != [] {
      GroupSizes(filtered[..|filtered| - 1]);
    }
  }

  /** A tab of the filtered list is the catalogue filtered once by the search,
      the section and the type together, so it keeps catalogue order. */
  lemma TabIsOneFilter(tests: seq<TestRow>, term: string, selected: string, ty: string)
    ensures OfType(FilteredTests(tests, term, selected), ty) ==
      Filter(tests, (t: TestRow) => Shown(t, term, selected) && t.testType == ty)
  {
    FilterFilter(tests, (t: TestRow) => Shown(t, term, selected), (t: TestRow) => t.testType == ty,
      (t: TestRow) => Shown(t, term, selected) && t.testType == ty);
  }

  /** A `test_attempts` row as the catalogue reads it. */
  datatype AttemptRef = AttemptRef(testId: string, isCompleted: bool, percentage: Option<real>)

  datatype CompletionStatus = NotCompleted | Completed(score: Option<real>)

  predicate CompletesTest(a: AttemptRef, testId: string)
  {
    a.testId == testId && a.isCompleted
  }

  /** `getCompletionStatus`: the first completed attempt of the test gives the
      badge and its score. */
  function GetCompletionStatus(attempts: seq<AttemptRef>, testId: string): (s: CompletionStatus)
    ensures s.Completed? <==> exists i :: 0 <= i < |attempts| && CompletesTest(attempts[i], testId)
    ensures s.Completed? ==>
      exists i :: (0 <= i < |attempts| && CompletesTest(attempts[i], testId) && s.score == attempts[i].percentage &&
                   forall j :: 0 <= j < i ==> !CompletesTest(attempts[j], testId))
  {
    if attempts == [] then NotCompleted
    else if CompletesTest(attempts[0], testId) then Completed(attempts[0].percentage)
    else
      var rest := GetCompletionStatus(attempts[1..], testId);
      assert forall i :: 1 <= i < |attempts| ==> attempts[i] == attempts[1..][i - 1];
      assert forall i :: 0 <= i < |attempts| - 1 ==> attempts[1..][i] == attempts[i + 1];
      rest
  }

  /** The row `startTest` inserts. */
  datatype NewAttempt = NewAttempt(userId: string, testId: string, startedAt: int, isCompleted: bool)

  /** `startTest`'s guard: without a signed-in user nothing is inserted;
      otherwise an uncompleted attempt started now. */
  function StartTest(user: Option<string>, testId: string, nowMs: int): (r: Option<NewAttempt>)
    ensures r.None? <==> user.None?
    ensures r.Some? ==>
      (r.value.userId == user.value && r.value.testId == testId && r.value.startedAt == nowMs && !r.value.isCompleted)
  {
    if user.None? then None else Some(NewAttempt(user.value, testId, nowMs, false))
  }
}
