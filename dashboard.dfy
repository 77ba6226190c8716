/** The dashboard's statistics (Dashboard.tsx): the user's five most
    recently started attempts, the counts, the rounded average and the best
    percentage over them, and the completion rate. */
module Dashboard {
  import opened Common

  /** A `test_attempts` row as the dashboard reads it. */
  datatype RecentAttempt = RecentAttempt(userId: string, isCompleted: bool, percentage: Option<real>)

  /** The rows of one user, in the order given. */
  function OwnRows(rows: seq<RecentAttempt>, userId: string): (r: seq<RecentAttempt>)
    ensures forall a :: a in r ==> a in rows && a.userId == userId
  {
    Filter(rows, (a: RecentAttempt) => a.userId == userId)
  }

  /** The query: the user's rows (given newest first, as `order('started_at',
      { ascending: false })` returns them), at most five. */
  function RecentAttempts(rowsNewestFirst: seq<RecentAttempt>, userId: string): (r: seq<RecentAttempt>)
    ensures |r| <= 5
    ensures forall a :: a in r ==> a in rowsNewestFirst && a.userId == userId
    ensures |r| <= |OwnRows(rowsNewestFirst, userId)| && r == OwnRows(rowsNewestFirst, userId)[..|r|]
    ensures |OwnRows(rowsNewestFirst, userId)| >= 5 ==> |r| == 5
    ensures |OwnRows(rowsNewestFirst, userId)| < 5 ==> r == OwnRows(rowsNewestFirst, userId)
  {
    var mine := OwnRows(rowsNewestFirst, userId);
    assert forall a :: a in mine[..if |mine| < 5 then |mine| else 5] ==> a in mine;
    mine[..if |mine| < 5 then |mine| else 5]
  }

  /** `a.percentage || 0`. */
  function Pct(a: RecentAttempt): real
  {
    a.percentage.GetOr(0.0)
  }

  /** `recentAttempts.filter(a => a.is_completed).length`. */
  function CompletedCount(attempts: seq<RecentAttempt>): nat
  {
    if attempts == [] then 0
    else CompletedCount(attempts[..|attempts| - 1]) + (if attempts[|attempts| - 1].isCompleted then 1 else 0)
  }

  /** The completed count never exceeds the number of attempts; it equals it
      exactly when every attempt is completed, and is 0 exactly when none is. */
  lemma {:induction false} CompletedCountBounds(attempts: seq<RecentAttempt>)
    ensures CompletedCount(attempts) <= |attempts|
    ensures CompletedCount(attempts) == |attempts| <==> forall i :: 0 <= i < |attempts| ==> attempts[i].isCompleted
    ensures CompletedCount(attempts) == 0 <==> forall i :: 0 <= i < |attempts| ==> !attempts[i].isCompleted
  {
    if attempts != [] {
      var init := attempts[..|attempts| - 1];
      CompletedCountBounds(init);
      assert forall i :: 0 <= i < |init| ==> init[i] == attempts[i];
    }
  }

  /** The count is the length of the `filter(a => a.is_completed)` list. */
  lemma {:induction false} CompletedCountIsFilterLength(attempts: seq<RecentAttempt>)
    ensures CompletedCount(attempts) == |Filter(attempts, (a: RecentAttempt) => a.isCompleted)|
  {
    if attempts != [] {
      CompletedCountIsFilterLength(attempts[..|attempts| - 1]);
    }
  }

  /** The `stats` record. */
  datatype Stats = Stats(totalAttempts: nat, completed: nat, avgScore: int, bestScore: real)

  function DashboardStats(attempts: seq<RecentAttempt>): (s: Stats)
    ensures s.totalAttempts == |attempts|
    ensures s.completed == CompletedCount(attempts)
    ensures s.completed <= s.totalAttempts
    ensures s.completed == s.totalAttempts <==> forall i :: 0 <= i < |attempts| ==> attempts[i].isCompleted
    ensures attempts == [] ==> s.avgScore == 0 && s.bestScore == 0.0
    ensures attempts != [] ==>
      Mean(MapSeq(attempts, Pct)) - 0.5 < s.avgScore as real <= Mean(MapSeq(attempts, Pct)) + 0.5
    ensures attempts != [] ==>
      (exists i :: 0 <= i < |attempts| && Pct(attempts[i]) == s.bestScore) &&
      (forall i :: 0 <= i < |attempts| ==> Pct(attempts[i]) <= s.bestScore)
  {
    CompletedCountBounds(attempts);
    var ps := MapSeq(attempts, Pct);
    Stats(
      |attempts|,
      CompletedCount(attempts),
      if |attempts| > 0 then Round(Sum(ps) / |attempts| as real) else 0,
      if |attempts| > 0 then Max(ps) else 0.0)
  }

  /** With every percentage in [0, 100], the average and best stay in range. */
  lemma {:induction false} StatsInRange(attempts: seq<RecentAttempt>)
    requires forall i :: 0 <= i < |attempts| ==> 0.0 <= Pct(attempts[i]) <= 100.0
    ensures 0 <= DashboardStats(attempts).avgScore <= 100
    ensures 0.0 <= DashboardStats(attempts).bestScore <= 100.0
  {
    if attempts != [] {
      var ps := MapSeq(attempts, Pct);
      MeanBounds(ps, 0.0, 100.0);
      RoundWithin(Mean(ps), 0, 100);
    }
  }

  /** The progress bar's value: `completed / totalAttempts * 100`, or 0. */
  function CompletionProgress(s: Stats): (p: real)
    requires s.completed <= s.totalAttempts
    ensures 0.0 <= p <= 100.0
    ensures s.totalAttempts == 0 || s.completed == 0 ==> p == 0.0
    ensures s.totalAttempts > 0 ==> p * s.totalAttempts as real == s.completed as real * 100.0
    ensures s.totalAttempts > 0 && s.completed == s.totalAttempts ==> p == 100.0
  {
    if s.totalAttempts == 0 then 0.0
    else
      var p := s.completed as real / s.totalAttempts as real * 100.0;
      FractionAtMostOne(s.completed, s.totalAttempts);
      p
  }

  lemma FractionAtMostOne(k: nat, n: nat)
    requires 0 < n && k <= n
    ensures 0.0 <= k as real / n as real <= 1.0
  {
    var q := k as real / n as real;
    assert q * n as real == k as real;
    if q > 1.0 {
      ScaleStrict(1.0, q, n as real);
    }
  }

  /** The "Completion Rate" label: the progress rounded to a whole percent. */
  function CompletionRate(attempts: seq<RecentAttempt>): (r: int)
    ensures 0 <= r <= 100
    ensures attempts == [] ==> r == 0
    ensures DashboardStats(attempts).completed == 0 ==> r == 0
    ensures attempts != [] && (forall i :: 0 <= i < |attempts| ==> attempts[i].isCompleted) ==> r == 100
    ensures var p := CompletionProgress(DashboardStats(attempts)); p - 0.5 < r as real <= p + 0.5
  {
    var s := DashboardStats(attempts);
    var p := CompletionProgress(s);
    RoundWithin(p, 0, 100);
    if s.totalAttempts == 0 then 0 else Round(p)
  }
}
