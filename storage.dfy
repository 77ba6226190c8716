/** The server's storage queries that compute something (server/storage.ts):
    the password check against the profile found by e-mail, and the
    aggregate analytics over a user's completed attempts. The tables are
    sequences of rows. */
module Storage {
  import opened Common

  /** A `profiles` row; the password is stored in plain text. */
  datatype ProfileRow = ProfileRow(userId: string, email: string, password: string)

  /** `getProfileByEmail`: the first row with that e-mail, if any. */
  function ProfileByEmail(profiles: seq<ProfileRow>, email: string): (r: Option<ProfileRow>)
    ensures r.None? <==> forall i :: 0 <= i < |profiles| ==> profiles[i].email != email
    ensures r.Some? ==>
      exists i :: (0 <= i < |profiles| && profiles[i] == r.value && r.value.email == email &&
                   forall j :: 0 <= j < i ==> profiles[j].email != email)
  {
    if profiles == [] then None
    else if profiles[0].email == email then Some(profiles[0])
    else
      var rest := ProfileByEmail(profiles[1..], email);
      assert forall i :: 1 <= i < |profiles| ==> profiles[i] == profiles[1..][i - 1];
      rest
  }

  /** `verifyPassword`: the profile when one has the e-mail and its stored
      password equals the given one exactly, null otherwise. */
  function VerifyPassword(profiles: seq<ProfileRow>, email: string, password: string): (r: Option<ProfileRow>)
    ensures r.Some? ==> (r.value.email == email && r.value.password == password && r.value in profiles)
  {
    var profile := ProfileByEmail(profiles, email);
    if profile.None? then None
    else if profile.value.password != password then None
    else profile
  }

  /** No profile with the e-mail: null. */
  lemma UnknownEmailRejected(profiles: seq<ProfileRow>, email: string, password: string)
    requires forall i :: 0 <= i < |profiles| ==> profiles[i].email != email
    ensures VerifyPassword(profiles, email, password).None?
  {
  }

  /** The profile found by the e-mail decides: its password matching exactly
      gives that profile, anything else gives null. */
  lemma PasswordDecides(profiles: seq<ProfileRow>, email: string, password: string)
    requires ProfileByEmail(profiles, email).Some?
    ensures var p := ProfileByEmail(profiles, email).value;
      (p.password == password ==> VerifyPassword(profiles, email, password) == Some(p)) &&
      (p.password != password ==> VerifyPassword(profiles, email, password).None?)
  {
  }

  /** With e-mails unique, a profile is accepted exactly with its own password. */
  lemma {:induction false} UniqueEmailLogin(profiles: seq<ProfileRow>, k: nat, password: string)
    requires k < |profiles|
    requires forall i, j :: 0 <= i < j < |profiles| ==> profiles[i].email != profiles[j].email
    ensures VerifyPassword(profiles, profiles[k].email, password) == Some(profiles[k]) <==> profiles[k].password == password
    ensures profiles[k].password != password ==> VerifyPassword(profiles, profiles[k].email, password).None?
  {
    var r := ProfileByEmail(profiles, profiles[k].email);
    var i :| 0 <= i < |profiles| && profiles[i] == r.value && r.value.email == profiles[k].email &&
             forall j :: 0 <= j < i ==> profiles[j].email != profiles[k].email;
    assert i == k;
  }

  /** A `test_attempts` row as the analytics query reads it; `percentage` is
      a decimal column read through `Number(...)`, so null reads as 0. */
  datatype AttemptRecord = AttemptRecord(userId: string, isCompleted: bool, percentage: Option<real>, durationTaken: Option<int>)

  function Pct(a: AttemptRecord): real
  {
    a.percentage.GetOr(0.0)
  }

  /** `durationTaken || 0`. */
  function Minutes(a: AttemptRecord): int
  {
    a.durationTaken.GetOr(0)
  }

  predicate CompletedBy(a: AttemptRecord, userId: string)
  {
    a.userId == userId && a.isCompleted
  }

  /** `getCompletedTestAttempts`: the user's completed attempts. */
  function CompletedAttempts(rows: seq<AttemptRecord>, userId: string): (r: seq<AttemptRecord>)
    ensures forall a :: a in r ==> a in rows && CompletedBy(a, userId)
  {
    Filter(rows, (a: AttemptRecord) => CompletedBy(a, userId))
  }

  datatype UserAnalytics = UserAnalytics(totalAttempts: nat, averageScore: real, bestScore: real, totalTimeSpent: int)

  /** `getUserAnalytics`: count, unrounded mean, maximum and total minutes of
      the user's completed attempts. */
  function GetUserAnalytics(rows: seq<AttemptRecord>, userId: string): (u: UserAnalytics)
    ensures u.totalAttempts == |CompletedAttempts(rows, userId)| <= |rows|
    ensures var done := CompletedAttempts(rows, userId);
      done == [] ==> u.averageScore == 0.0 && u.bestScore == 0.0 && u.totalTimeSpent == 0
    ensures u.averageScore == Mean(MapSeq(CompletedAttempts(rows, userId), Pct))
    ensures var done := CompletedAttempts(rows, userId);
      done != [] ==> (exists i :: 0 <= i < |done| && Pct(done[i]) == u.bestScore) &&
                     (forall i :: 0 <= i < |done| ==> Pct(done[i]) <= u.bestScore)
    ensures u.totalTimeSpent == SumInt(MapSeq(CompletedAttempts(rows, userId), Minutes))
  {
    var done := CompletedAttempts(rows, userId);
    var ps := MapSeq(done, Pct);
    var best := MaxOrZero(ps);
    assert done != [] ==> exists i :: 0 <= i < |done| && Pct(done[i]) == best by {
      if done != [] {
        var i :| 0 <= i < |ps| && ps[i] == best;
        assert Pct(done[i]) == best;
      }
    }
    UserAnalytics(|done|, Mean(ps), best, SumInt(MapSeq(done, Minutes)))
  }

  /** The average times the number of completed attempts is the sum of their
      percentages. */
  lemma AverageTimesCount(rows: seq<AttemptRecord>, userId: string)
    ensures var done := CompletedAttempts(rows, userId);
      done != [] ==> GetUserAnalytics(rows, userId).averageScore * |done| as real == Sum(MapSeq(done, Pct))
  {
    var ps := MapSeq(CompletedAttempts(rows, userId), Pct);
    assert |ps| == |CompletedAttempts(rows, userId)|;
  }

  /** Rows of other users and unfinished attempts leave the analytics as they were. */
  lemma IgnoredRowChangesNothing(rows: seq<AttemptRecord>, userId: string, other: AttemptRecord)
    requires !CompletedBy(other, userId)
    ensures GetUserAnalytics(rows + [other], userId) == GetUserAnalytics(rows, userId)
  {
    assert (rows + [other])[..|rows|] == rows;
  }

  /** One more completed attempt of the user counts once and adds its minutes. */
  lemma CompletedRowCounts(rows: seq<AttemptRecord>, userId: string, a: AttemptRecord)
    requires CompletedBy(a, userId)
    ensures GetUserAnalytics(rows + [a], userId).totalAttempts == GetUserAnalytics(rows, userId).totalAttempts + 1
    ensures GetUserAnalytics(rows + [a], userId).totalTimeSpent == GetUserAnalytics(rows, userId).totalTimeSpent + Minutes(a)
    ensures GetUserAnalytics(rows + [a], userId).bestScore >= Pct(a)
  {
    assert (rows + [a])[..|rows|] == rows;
    var done := CompletedAttempts(rows, userId);
    assert CompletedAttempts(rows + [a], userId) == done + [a];
    assert MapSeq(done + [a], Minutes) == MapSeq(done, Minutes) + [Minutes(a)];
    SumIntAppend(MapSeq(done, Minutes), [Minutes(a)]);
    assert [Minutes(a)][..0] == [];
    assert MapSeq(done + [a], Pct)[|done|] == Pct(a);
  }

  /** The average lies within the range of the percentages. */
  lemma AverageInRange(rows: seq<AttemptRecord>, userId: string)
    requires forall i :: 0 <= i < |rows| ==> 0.0 <= Pct(rows[i]) <= 100.0
    ensures 0.0 <= GetUserAnalytics(rows, userId).averageScore <= 100.0
    ensures 0.0 <= GetUserAnalytics(rows, userId).bestScore <= 100.0
  {
    var done := CompletedAttempts(rows, userId);
    if done != [] {
      assert forall i :: 0 <= i < |done| ==> done[i] in rows;
      MeanBounds(MapSeq(done, Pct), 0.0, 100.0);
    }
  }
}
