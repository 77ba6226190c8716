/** The analytics page (Analytics.tsx): summary figures over a user's
    completed attempts in submission order, the score series, and the
    per-section and per-test-type groupings. */
module Analytics {
  import opened Common

  /** A completed attempt joined with its test's columns. */
  datatype CompletedAttempt = CompletedAttempt(
    percentage: Option<real>,
    durationTaken: Option<int>,
    title: Option<string>,
    section: Option<string>,
    testType: Option<string>)

  /** A null percentage adds 0 to a sum and loses every `Math.max`. */
  function Pct(a: CompletedAttempt): real
  {
    a.percentage.GetOr(0.0)
  }

  /** `duration_taken || 0`. */
  function Minutes(a: CompletedAttempt): int
  {
    a.durationTaken.GetOr(0)
  }

  /** The `analytics` record. */
  datatype Summary = Summary(totalTests: nat, avgScore: int, bestScore: real, totalTimeSpent: int, improvement: real)

  function Summarize(attempts: seq<CompletedAttempt>): (s: Summary)
    ensures s.totalTests == |attempts|
    ensures attempts == [] ==> s.avgScore == 0 && s.bestScore == 0.0 && s.totalTimeSpent == 0
    ensures attempts != [] ==>
      Mean(MapSeq(attempts, Pct)) - 0.5 < s.avgScore as real <= Mean(MapSeq(attempts, Pct)) + 0.5
    ensures attempts != [] ==>
      (exists i :: 0 <= i < |attempts| && Pct(attempts[i]) == s.bestScore) &&
      (forall i :: 0 <= i < |attempts| ==> Pct(attempts[i]) <= s.bestScore)
    ensures s.totalTimeSpent == SumInt(MapSeq(attempts, Minutes))
    ensures |attempts| < 2 ==> s.improvement == 0.0
    ensures |attempts| >= 2 ==> Pct(attempts[0]) + s.improvement == Pct(attempts[|attempts| - 1])
  {
    var ps := MapSeq(attempts, Pct);
    Summary(
      |attempts|,
      if |attempts| > 0 then Round(Sum(ps) / |attempts| as real) else 0,
      if |attempts| > 0 then Max(ps) else 0.0,
      SumInt(MapSeq(attempts, Minutes)),
      if |attempts| >= 2 then Pct(attempts[|attempts| - 1]) - Pct(attempts[0]) else 0.0)
  }

  /** With every percentage in [0, 100], so are the average and the best. */
  lemma {:induction false} SummaryScoresInRange(attempts: seq<CompletedAttempt>)
    requires forall i :: 0 <= i < |attempts| ==> 0.0 <= Pct(attempts[i]) <= 100.0
    ensures 0 <= Summarize(attempts).avgScore <= 100
    ensures 0.0 <= Summarize(attempts).bestScore <= 100.0
  {
    if attempts != [] {
      var ps := MapSeq(attempts, Pct);
      MeanBounds(ps, 0.0, 100.0);
      RoundWithin(Mean(ps), 0, 100);
    }
  }

  /** One more attempt adds exactly its own minutes to the total time. */
  lemma {:induction false} TotalTimeAppend(attempts: seq<CompletedAttempt>, a: CompletedAttempt)
    ensures Summarize(attempts + [a]).totalTimeSpent == Summarize(attempts).totalTimeSpent + Minutes(a)
  {
    assert MapSeq(attempts + [a], Minutes) == MapSeq(attempts, Minutes) + [Minutes(a)];
    SumIntAppend(MapSeq(attempts, Minutes), [Minutes(a)]);
    assert [Minutes(a)][..0] == [];
  }

  /** One point of the score-over-time chart. */
  datatype PerformancePoint = PerformancePoint(test: int, score: Option<real>, testName: string)

  /** `title?.substring(0, 15) + '...'`; a missing title renders as "undefined". */
  function ShortName(title: Option<string>): (r: string)
    ensures |r| <= 18
    ensures title.Some? ==> r == title.value[..if |title.value| < 15 then |title.value| else 15] + "..."
    ensures title.None? ==> r == "undefined..."
  {
    var t := title.GetOr("undefined");
    t[..if |t| < 15 then |t| else 15] + "..."
  }

  /** `performanceData`: one point per attempt, numbered from 1, in order. */
  function PerformanceData(attempts: seq<CompletedAttempt>): (points: seq<PerformancePoint>)
    ensures |points| == |attempts|
    ensures forall i :: 0 <= i < |attempts| ==>
      points[i].test == i + 1 && points[i].score == attempts[i].percentage &&
      points[i].testName == ShortName(attempts[i].title)
  {
    seq(|attempts|, i requires 0 <= i < |attempts| =>
      PerformancePoint(i + 1, attempts[i].percentage, ShortName(attempts[i].title)))
  }

  // ----- section-wise performance -------------------------------------------

  /** `attempt.tests?.section || 'General'`. */
  function SectionKey(a: CompletedAttempt): (k: string)
    ensures a.section.None? || a.section.value == "" ==> k == "General"
    ensures a.section.Some? && a.section.value != "" ==> k == a.section.value
  {
    if a.section.None? || a.section.value == "" then "General" else a.section.value
  }

  datatype SectionStats = SectionStats(section: string, totalTests: nat, totalScore: real, avgScore: int)

  /** `acc[section]`: the index of the entry for `key`, or `|acc|` when absent. */
  function FindSection(acc: seq<SectionStats>, key: string): (i: nat)
    ensures i <= |acc|
    ensures i < |acc| ==> acc[i].section == key
    ensures forall j :: 0 <= j < i ==> acc[j].section != key
  {
    if acc == [] then 0
    else if acc[0].section == key then 0
    else 1 + FindSection(acc[1..], key)
  }

  /** One step of the section reduce: create the entry if needed, then count
      the attempt, add its percentage and recompute the rounded average. */
  function AddToSection(acc: seq<SectionStats>, key: string, pct: real): seq<SectionStats>
  {
    var i := FindSection(acc, key);
    var e := if i < |acc| then acc[i] else SectionStats(key, 0, 0.0, 0);
    var tests := e.totalTests + 1;
    var score := e.totalScore + pct;
    var e' := e.(totalTests := tests, totalScore := score, avgScore := Round(score / tests as real));
    if i < |acc| then acc[i := e'] else acc + [e']
  }

  /** The reduce folded over the attempts in order. */
  function SectionFold(attempts: seq<CompletedAttempt>): seq<SectionStats>
  {
    if attempts == [] then []
    else
      var last := attempts[|attempts| - 1];
      AddToSection(SectionFold(attempts[..|attempts| - 1]), SectionKey(last), Pct(last))
  }

  /** `sectionPerformance`, updating the accumulator in place. */
  method SectionPerformance(attempts: seq<CompletedAttempt>) returns (acc: seq<SectionStats>)
    ensures acc == SectionFold(attempts)
  {
    acc := [];
    var n := 0;
    while n < |attempts|
      invariant 0 <= n <= |attempts|
      invariant acc == SectionFold(attempts[..n])
    {
      SectionFoldStep(attempts, n);
      acc := TallySection(acc, SectionKey(attempts[n]), Pct(attempts[n]));
      n := n + 1;
    }
    assert attempts[..|attempts|] == attempts;
  }

  /** The reduce callback: create the entry when missing, then count the
      attempt into it. */
  method TallySection(acc: seq<SectionStats>, key: string, pct: real) returns (r: seq<SectionStats>)
    ensures r == AddToSection(acc, key, pct)
  {
    r := acc;
    var i := FindSection(r, key);
    if i == |r| {
      r := r + [SectionStats(key, 0, 0.0, 0)];
    }
    var e := r[i];
    var tests := e.totalTests + 1;
    var score := e.totalScore + pct;
    r := r[i := e.(totalTests := tests, totalScore := score, avgScore := Round(score / tests as real))];
  }

  lemma {:induction false} SectionFoldStep(attempts: seq<CompletedAttempt>, n: nat)
    requires n < |attempts|
    ensures SectionFold(attempts[..n + 1]) == AddToSection(SectionFold(attempts[..n]), SectionKey(attempts[n]), Pct(attempts[n]))
  {
    assert attempts[..n + 1][..n] == attempts[..n];
  }

  /** How many attempts fall in the section. */
  function CountSection(attempts: seq<CompletedAttempt>, key: string): nat
  {
    if attempts == [] then 0
    else CountSection(attempts[..|attempts| - 1], key) + (if SectionKey(attempts[|attempts| - 1]) == key then 1 else 0)
  }

  /** The sum of the percentages of the attempts in the section. */
  function ScoreSection(attempts: seq<CompletedAttempt>, key: string): real
  {
    if attempts == [] then 0.0
    else
      var last := attempts[|attempts| - 1];
      ScoreSection(attempts[..|attempts| - 1], key) + (if SectionKey(last) == key then Pct(last) else 0.0)
  }

  function TotalTests(acc: seq<SectionStats>): nat
  {
    if acc == [] then 0 else TotalTests(acc[..|acc| - 1]) + acc[|acc| - 1].totalTests
  }

  lemma {:induction false} TotalTestsUpdate(acc: seq<SectionStats>, i: nat, e: SectionStats)
    requires i < |acc|
    ensures TotalTests(acc[i := e]) == TotalTests(acc) - acc[i].totalTests + e.totalTests
  {
    if i < |acc| - 1 {
      assert acc[i := e][..|acc| - 1] == acc[..|acc| - 1][i := e];
      TotalTestsUpdate(acc[..|acc| - 1], i, e);
    } else {
      assert acc[i := e][..|acc| - 1] == acc[..|acc| - 1];
    }
  }

  /** No section has two entries. */
  predicate DistinctSections(acc: seq<SectionStats>)
  {
    forall i, j :: 0 <= i < j < |acc| ==> acc[i].section != acc[j].section
  }

  /** Every entry counts its section's attempts, sums their percentages and
      carries the rounded mean. */
  predicate SectionTotals(attempts: seq<CompletedAttempt>, acc: seq<SectionStats>)
  {
    forall i :: 0 <= i < |acc| ==>
      acc[i].totalTests == CountSection(attempts, acc[i].section) && acc[i].totalTests >= 1 &&
      acc[i].totalScore == ScoreSection(attempts, acc[i].section) &&
      acc[i].avgScore == Round(acc[i].totalScore / acc[i].totalTests as real)
  }

  /** Every attempt's section has an entry. */
  predicate SectionsCover(attempts: seq<CompletedAttempt>, acc: seq<SectionStats>)
  {
    forall n :: 0 <= n < |attempts| ==> FindSection(acc, SectionKey(attempts[n])) < |acc|
  }

  /** What the section grouping holds: one entry per section met, with its
      count, sum and rounded mean; the counts add up to the number of attempts. */
  predicate SectionsCorrect(attempts: seq<CompletedAttempt>, acc: seq<SectionStats>)
  {
    DistinctSections(acc) && SectionTotals(attempts, acc) && SectionsCover(attempts, acc) &&
    TotalTests(acc) == |attempts|
  }

  lemma {:induction false} NotFoundMeansAbsent(attempts: seq<CompletedAttempt>, key: string, acc: seq<SectionStats>)
    requires SectionsCover(attempts, acc)
    requires FindSection(acc, key) == |acc|
    ensures CountSection(attempts, key) == 0 && ScoreSection(attempts, key) == 0.0
  {
    if attempts != [] {
      var init := attempts[..|attempts| - 1];
      assert forall n :: 0 <= n < |init| ==> init[n] == attempts[n];
      NotFoundMeansAbsent(init, key, acc);
      assert FindSection(acc, SectionKey(attempts[|attempts| - 1])) < |acc|;
    }
  }

  /** Counting and summing one more attempt. */
  lemma {:induction false} SectionSnoc(init: seq<CompletedAttempt>, last: CompletedAttempt, key: string)
    ensures CountSection(init + [last], key) == CountSection(init, key) + (if SectionKey(last) == key then 1 else 0)
    ensures ScoreSection(init + [last], key) == ScoreSection(init, key) + (if SectionKey(last) == key then Pct(last) else 0.0)
  {
    assert (init + [last])[..|init|] == init;
  }

  /** The reduce step on a section that already has an entry. */
  lemma {:induction false} AddExistingSection(init: seq<CompletedAttempt>, last: CompletedAttempt, acc: seq<SectionStats>)
    requires SectionsCorrect(init, acc)
    requires FindSection(acc, SectionKey(last)) < |acc|
    ensures SectionsCorrect(init + [last], AddToSection(acc, SectionKey(last), Pct(last)))
  {
    var key := SectionKey(last);
    var i := FindSection(acc, key);
    var r := AddToSection(acc, key, Pct(last));
    assert DistinctSections(r) && TotalTests(r) == |init + [last]| by {
      AddExistingShape(acc, key, Pct(last));
      TotalTestsUpdate(acc, i, r[i]);
    }
    AddExistingTotals(init, last, acc);
    AddExistingCover(init, last, acc);
  }

  /** Counting into an existing entry keeps every section in its place and
      adds one test to that entry. */
  lemma AddExistingShape(acc: seq<SectionStats>, key: string, pct: real)
    requires FindSection(acc, key) < |acc|
    ensures var r, i := AddToSection(acc, key, pct), FindSection(acc, key);
      && |r| == |acc| && (forall j :: 0 <= j < |acc| ==> r[j].section == acc[j].section)
      && r == acc[i := r[i]] && r[i].totalTests == acc[i].totalTests + 1
  {
  }

  lemma {:induction false} AddExistingTotals(init: seq<CompletedAttempt>, last: CompletedAttempt, acc: seq<SectionStats>)
    requires SectionTotals(init, acc) && DistinctSections(acc)
    requires FindSection(acc, SectionKey(last)) < |acc|
    ensures SectionTotals(init + [last], AddToSection(acc, SectionKey(last), Pct(last)))
  {
    var i := FindSection(acc, SectionKey(last));
    var r := AddToSection(acc, SectionKey(last), Pct(last));
    forall j | 0 <= j < |r|
      ensures r[j].totalTests == CountSection(init + [last], r[j].section) && r[j].totalTests >= 1
      ensures r[j].totalScore == ScoreSection(init + [last], r[j].section)
      ensures r[j].avgScore == Round(r[j].totalScore / r[j].totalTests as real)
    {
      SectionSnoc(init, last, r[j].section);
      if j != i {
        assert r[j] == acc[j];
      }
    }
  }

  lemma {:induction false} AddExistingCover(init: seq<CompletedAttempt>, last: CompletedAttempt, acc: seq<SectionStats>)
    requires SectionsCover(init, acc)
    requires FindSection(acc, SectionKey(last)) < |acc|
    ensures SectionsCover(init + [last], AddToSection(acc, SectionKey(last), Pct(last)))
  {
    var attempts := init + [last];
    var r := AddToSection(acc, SectionKey(last), Pct(last));
    assert |r| == |acc| && forall j :: 0 <= j < |acc| ==> r[j].section == acc[j].section;
    forall n | 0 <= n < |attempts| ensures FindSection(r, SectionKey(attempts[n])) < |r| {
      FindSectionSameKeys(acc, r, SectionKey(attempts[n]));
      if n < |init| { assert attempts[n] == init[n]; }
    }
  }

  /** The reduce step on a section met for the first time. */
  lemma {:induction false} AddNewSection(init: seq<CompletedAttempt>, last: CompletedAttempt, acc: seq<SectionStats>)
    requires SectionsCorrect(init, acc)
    requires FindSection(acc, SectionKey(last)) == |acc|
    ensures SectionsCorrect(init + [last], AddToSection(acc, SectionKey(last), Pct(last)))
  {
    var key := SectionKey(last);
    var attempts := init + [last];
    var r := AddToSection(acc, key, Pct(last));
    NotFoundMeansAbsent(init, key, acc);
    assert r[..|acc|] == acc;
    assert TotalTests(r) == TotalTests(acc) + 1;
    forall s | FindSection(acc, s) < |acc| ensures FindSection(r, s) == FindSection(acc, s) {
      FindSectionPrefix(acc, r, s);
    }
    forall j | 0 <= j < |r|
      ensures r[j].totalTests == CountSection(attempts, r[j].section)
      ensures r[j].totalScore == ScoreSection(attempts, r[j].section)
    {
      SectionSnoc(init, last, r[j].section);
    }
    assert DistinctSections(r);
    assert SectionsCover(attempts, r) by {
      forall n | 0 <= n < |attempts| ensures FindSection(r, SectionKey(attempts[n])) < |r| {
        if n < |init| { assert attempts[n] == init[n]; }
        else { FindSectionPrefix(acc, r, key); }
      }
    }
  }

  lemma {:induction false} SectionFoldCorrect(attempts: seq<CompletedAttempt>)
    ensures SectionsCorrect(attempts, SectionFold(attempts))
  {
    if attempts != [] {
      var init := attempts[..|attempts| - 1];
      var last := attempts[|attempts| - 1];
      assert init + [last] == attempts;
      SectionFoldCorrect(init);
      if FindSection(SectionFold(init), SectionKey(last)) < |SectionFold(init)| {
        AddExistingSection(init, last, SectionFold(init));
      } else {
        AddNewSection(init, last, SectionFold(init));
      }
    }
  }

  /** Entries with the same keys are found at the same place. */
  lemma {:induction false} FindSectionSameKeys(a: seq<SectionStats>, b: seq<SectionStats>, key: string)
    requires |a| == |b|
    requires forall j :: 0 <= j < |a| ==> a[j].section == b[j].section
    ensures FindSection(a, key) == FindSection(b, key)
  {
    if a != [] && a[0].section != key {
      FindSectionSameKeys(a[1..], b[1..], key);
    }
  }

  /** Appending entries does not move an entry found in the prefix, and a key
      absent from the prefix is found at the first appended entry with it. */
  lemma {:induction false} FindSectionPrefix(a: seq<SectionStats>, b: seq<SectionStats>, key: string)
    requires |a| <= |b| && b[..|a|] == a
    ensures FindSection(a, key) < |a| ==> FindSection(b, key) == FindSection(a, key)
    ensures FindSection(a, key) == |a| ==> FindSection(b, key) >= |a|
  {
    if a != [] && a[0].section != key {
      assert b[1..][..|a| - 1] == a[1..];
      FindSectionPrefix(a[1..], b[1..], key);
    }
  }

  // ----- test-type distribution ----------------------------------------------

  /** `attempt.tests?.test_type || 'Other'`. */
  function TypeKey(a: CompletedAttempt): (k: string)
    ensures a.testType.None? || a.testType.value == "" ==> k == "Other"
    ensures a.testType.Some? && a.testType.value != "" ==> k == a.testType.value
  {
    if a.testType.None? || a.testType.value == "" then "Other" else a.testType.value
  }

  datatype TypeCount = TypeCount(name: string, value: nat)

  /** `acc.find(item => item.name === type)` as an index, `|acc|` when absent. */
  function FindType(acc: seq<TypeCount>, name: string): (i: nat)
    ensures i <= |acc|
    ensures i < |acc| ==> acc[i].name == name
    ensures forall j :: 0 <= j < i ==> acc[j].name != name
  {
    if acc == [] then 0
    else if acc[0].name == name then 0
    else 1 + FindType(acc[1..], name)
  }

  /** One step of the type reduce: increment the existing entry or push a new one. */
  function AddType(acc: seq<TypeCount>, name: string): seq<TypeCount>
  {
    var i := FindType(acc, name);
    if i < |acc| then acc[i := acc[i].(value := acc[i].value + 1)] else acc + [TypeCount(name, 1)]
  }

  function TypeKeys(attempts: seq<CompletedAttempt>): (ks: seq<string>)
    ensures |ks| == |attempts|
    ensures forall i :: 0 <= i < |attempts| ==> ks[i] == TypeKey(attempts[i])
  {
    seq(|attempts|, i requires 0 <= i < |attempts| => TypeKey(attempts[i]))
  }

  /** The reduce folded over the type names in order. */
  function TypeFold(keys: seq<string>): seq<TypeCount>
  {
    if keys == [] then [] else AddType(TypeFold(keys[..|keys| - 1]), keys[|keys| - 1])
  }

  /** `testTypeData`, updating the accumulator in place. */
  method TestTypeData(attempts: seq<CompletedAttempt>) returns (acc: seq<TypeCount>)
    ensures acc == TypeFold(TypeKeys(attempts))
  {
    var keys := TypeKeys(attempts);
    acc := [];
    var n := 0;
    while n < |attempts|
      invariant 0 <= n <= |attempts|
      invariant acc == TypeFold(keys[..n])
    {
      TypeFoldStep(keys, n);
      acc := TallyType(acc, keys[n]);
      n := n + 1;
    }
    assert keys[..|keys|] == keys;
  }

  /** The reduce callback: bump the entry named `name` or push a new one. */
  method TallyType(acc: seq<TypeCount>, name: string) returns (r: seq<TypeCount>)
    ensures r == AddType(acc, name)
  {
    var i := FindType(acc, name);
    if i < |acc| {
      r := acc[i := acc[i].(value := acc[i].value + 1)];
    } else {
      r := acc + [TypeCount(name, 1)];
    }
  }

  lemma {:induction false} TypeFoldStep(keys: seq<string>, n: nat)
    requires n < |keys|
    ensures TypeFold(keys[..n + 1]) == AddType(TypeFold(keys[..n]), keys[n])
  {
    assert keys[..n + 1][..n] == keys[..n];
  }

  function Count(keys: seq<string>, k: string): nat
  {
    if keys == [] then 0 else Count(keys[..|keys| - 1], k) + (if keys[|keys| - 1] == k then 1 else 0)
  }

  /** The position of the first occurrence of `k`. */
  function FirstSeen(keys: seq<string>, k: string): (p: nat)
    requires k in keys
    ensures p < |keys| && keys[p] == k
    ensures forall q :: 0 <= q < p ==> keys[q] != k
  {
    var init := keys[..|keys| - 1];
    if k in init then
      var p := FirstSeen(init, k);
      assert forall q :: 0 <= q < p ==> keys[q] == init[q];
      p
    else
      assert forall q :: 0 <= q < |keys| - 1 ==> keys[q] == init[q];
      |keys| - 1
  }

  function TotalValue(acc: seq<TypeCount>): nat
  {
    if acc == [] then 0 else TotalValue(acc[..|acc| - 1]) + acc[|acc| - 1].value
  }

  lemma {:induction false} TotalValueUpdate(acc: seq<TypeCount>, i: nat, e: TypeCount)
    requires i < |acc|
    ensures TotalValue(acc[i := e]) == TotalValue(acc) - acc[i].value + e.value
  {
    if i < |acc| - 1 {
      assert acc[i := e][..|acc| - 1] == acc[..|acc| - 1][i := e];
      TotalValueUpdate(acc[..|acc| - 1], i, e);
    } else {
      assert acc[i := e][..|acc| - 1] == acc[..|acc| - 1];
    }
  }

  /** Every entry names a type met and counts its attempts. */
  predicate TypeTotals(keys: seq<string>, acc: seq<TypeCount>)
  {
    forall i :: 0 <= i < |acc| ==> acc[i].name in keys && acc[i].value == Count(keys, acc[i].name)
  }

  /** Every type met has an entry. */
  predicate TypesCover(keys: seq<string>, acc: seq<TypeCount>)
  {
    forall n :: 0 <= n < |keys| ==> FindType(acc, keys[n]) < |acc|
  }

  /** Entries appear in the order their types are first met (and so are distinct). */
  predicate FirstSeenOrder(keys: seq<string>, acc: seq<TypeCount>)
    requires forall i :: 0 <= i < |acc| ==> acc[i].name in keys
  {
    forall i, j :: 0 <= i < j < |acc| ==> FirstSeen(keys, acc[i].name) < FirstSeen(keys, acc[j].name)
  }

  /** No type has two entries. */
  predicate DistinctTypes(acc: seq<TypeCount>)
  {
    forall i, j :: 0 <= i < j < |acc| ==> acc[i].name != acc[j].name
  }

  lemma {:induction false} OrderedTypesDistinct(keys: seq<string>, acc: seq<TypeCount>)
    requires TypeTotals(keys, acc) && FirstSeenOrder(keys, acc)
    ensures DistinctTypes(acc)
  {
  }

  /** What the type distribution holds: one entry per distinct type, in the
      order the types are first met, each counting its attempts, with the
      counts adding up to the number of attempts. */
  predicate TypesCorrect(keys: seq<string>, acc: seq<TypeCount>)
  {
    TypeTotals(keys, acc) && TypesCover(keys, acc) && FirstSeenOrder(keys, acc) && TotalValue(acc) == |keys|
  }

  lemma {:induction false} CountAbsent(keys: seq<string>, k: string)
    requires k !in keys
    ensures Count(keys, k) == 0
  {
    if keys != [] {
      CountAbsent(keys[..|keys| - 1], k);
    }
  }

  lemma {:induction false} CountSnoc(init: seq<string>, k: string, name: string)
    ensures Count(init + [k], name) == Count(init, name) + (if k == name then 1 else 0)
  {
    assert (init + [k])[..|init|] == init;
  }

  /** A type met earlier keeps its first position when more attempts follow. */
  lemma {:induction false} FirstSeenSnoc(init: seq<string>, k: string)
    ensures forall s :: s in init ==> FirstSeen(init + [k], s) == FirstSeen(init, s)
  {
    assert (init + [k])[..|init|] == init;
  }

  lemma {:induction false} AddExistingType(init: seq<string>, k: string, acc: seq<TypeCount>)
    requires TypesCorrect(init, acc)
    requires FindType(acc, k) < |acc|
    ensures TypesCorrect(init + [k], AddType(acc, k))
  {
    var i := FindType(acc, k);
    TotalValueUpdate(acc, i, AddType(acc, k)[i]);
    OrderedTypesDistinct(init, acc);
    AddExistingTypeTotals(init, k, acc);
    AddExistingTypeCover(init, k, acc);
    AddExistingTypeOrder(init, k, acc);
  }

  lemma {:induction false} AddExistingTypeOrder(init: seq<string>, k: string, acc: seq<TypeCount>)
    requires TypeTotals(init, acc) && FirstSeenOrder(init, acc)
    requires FindType(acc, k) < |acc|
    ensures forall j :: 0 <= j < |AddType(acc, k)| ==> AddType(acc, k)[j].name in init + [k]
    ensures FirstSeenOrder(init + [k], AddType(acc, k))
  {
    var r := AddType(acc, k);
    assert |r| == |acc| && forall j :: 0 <= j < |acc| ==> r[j].name == acc[j].name;
    FirstSeenSnoc(init, k);
  }

  lemma {:induction false} AddExistingTypeTotals(init: seq<string>, k: string, acc: seq<TypeCount>)
    requires TypeTotals(init, acc) && DistinctTypes(acc)
    requires FindType(acc, k) < |acc|
    ensures TypeTotals(init + [k], AddType(acc, k))
  {
    var i := FindType(acc, k);
    var r := AddType(acc, k);
    forall j | 0 <= j < |r| ensures r[j].name in init + [k] && r[j].value == Count(init + [k], r[j].name) {
      CountSnoc(init, k, r[j].name);
      if j != i { assert r[j] == acc[j]; }
    }
  }

  lemma {:induction false} AddExistingTypeCover(init: seq<string>, k: string, acc: seq<TypeCount>)
    requires TypesCover(init, acc)
    requires FindType(acc, k) < |acc|
    ensures TypesCover(init + [k], AddType(acc, k))
  {
    var keys := init + [k];
    var r := AddType(acc, k);
    assert |r| == |acc| && forall j :: 0 <= j < |acc| ==> r[j].name == acc[j].name;
    forall n | 0 <= n < |keys| ensures FindType(r, keys[n]) < |r| {
      FindTypeSameNames(acc, r, keys[n]);
      if n < |init| { assert keys[n] == init[n]; }
    }
  }

  lemma {:induction false} AddNewType(init: seq<string>, k: string, acc: seq<TypeCount>)
    requires TypesCorrect(init, acc)
    requires FindType(acc, k) == |acc|
    ensures TypesCorrect(init + [k], AddType(acc, k))
  {
    var r := AddType(acc, k);
    assert r[..|acc|] == acc;
    assert TotalValue(r) == TotalValue(acc) + 1;
    assert k !in init by {
      assert forall n :: 0 <= n < |init| ==> init[n] != k;
    }
    AddNewTypeTotals(init, k, acc);
    AddNewTypeCover(init, k, acc);
    AddNewTypeOrder(init, k, acc);
  }

  lemma {:induction false} AddNewTypeTotals(init: seq<string>, k: string, acc: seq<TypeCount>)
    requires TypeTotals(init, acc) && k !in init
    ensures TypeTotals(init + [k], acc + [TypeCount(k, 1)])
  {
    var r := acc + [TypeCount(k, 1)];
    CountAbsent(init, k);
    forall j | 0 <= j < |r| ensures r[j].name in init + [k] && r[j].value == Count(init + [k], r[j].name) {
      CountSnoc(init, k, r[j].name);
    }
  }

  lemma {:induction false} AddNewTypeCover(init: seq<string>, k: string, acc: seq<TypeCount>)
    requires TypesCover(init, acc) && FindType(acc, k) == |acc|
    ensures TypesCover(init + [k], acc + [TypeCount(k, 1)])
  {
    var keys := init + [k];
    var r := acc + [TypeCount(k, 1)];
    assert r[..|acc|] == acc;
    forall n | 0 <= n < |keys| ensures FindType(r, keys[n]) < |r| {
      if n < |init| {
        assert keys[n] == init[n];
        assert FindType(acc, init[n]) < |acc|;
        FindTypePrefix(acc, r, init[n]);
      } else {
        assert keys[n] == k && r[|acc|].name == k;
        FindTypePrefix(acc, r, k);
      }
    }
  }

  lemma {:induction false} AddNewTypeOrder(init: seq<string>, k: string, acc: seq<TypeCount>)
    requires TypeTotals(init, acc) && FirstSeenOrder(init, acc) && k !in init
    ensures forall j :: 0 <= j < |acc| + 1 ==> (acc + [TypeCount(k, 1)])[j].name in init + [k]
    ensures FirstSeenOrder(init + [k], acc + [TypeCount(k, 1)])
  {
    var keys := init + [k];
    var r := acc + [TypeCount(k, 1)];
    FirstSeenSnoc(init, k);
    assert FirstSeen(keys, k) == |keys| - 1;
    assert forall j :: 0 <= j < |acc| ==> r[j] == acc[j] && FirstSeen(keys, r[j].name) < |init|;
  }

  lemma {:induction false} TypeFoldCorrect(keys: seq<string>)
    ensures TypesCorrect(keys, TypeFold(keys))
  {
    if keys != [] {
      var init := keys[..|keys| - 1];
      var k := keys[|keys| - 1];
      assert init + [k] == keys;
      TypeFoldCorrect(init);
      if FindType(TypeFold(init), k) < |TypeFold(init)| {
        AddExistingType(init, k, TypeFold(init));
      } else {
        AddNewType(init, k, TypeFold(init));
      }
    }
  }

  lemma {:induction false} FindTypeSameNames(a: seq<TypeCount>, b: seq<TypeCount>, name: string)
    requires |a| == |b|
    requires forall j :: 0 <= j < |a| ==> a[j].name == b[j].name
    ensures FindType(a, name) == FindType(b, name)
  {
    if a != [] && a[0].name != name {
      FindTypeSameNames(a[1..], b[1..], name);
    }
  }

  lemma {:induction false} FindTypePrefix(a: seq<TypeCount>, b: seq<TypeCount>, name: string)
    requires |a| <= |b| && b[..|a|] == a
    ensures FindType(a, name) < |a| ==> FindType(b, name) == FindType(a, name)
    ensures FindType(a, name) == |a| ==> FindType(b, name) >= |a|
  {
    if a != [] && a[0].name != name {
      assert b[1..][..|a| - 1] == a[1..];
      FindTypePrefix(a[1..], b[1..], name);
    }
  }

  /** Distinct types met in first-seen order are distinct entries. */
  lemma {:induction false} TypeNamesDistinct(keys: seq<string>)
    ensures forall i, j :: 0 <= i < j < |TypeFold(keys)| ==> TypeFold(keys)[i].name != TypeFold(keys)[j].name
  {
    TypeFoldCorrect(keys);
  }
}
