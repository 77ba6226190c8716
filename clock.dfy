/** The `HH:MM:SS` rendering of the remaining time and the Previous/Next
    index clamping of the question navigator (TestTaking.tsx). */
module Clock {
  import opened Common
  import opened Text

  /** Hours, minutes and seconds of a number of seconds. */
  datatype ClockParts = ClockParts(hours: nat, minutes: nat, seconds: nat)

  /** `Math.floor(s / 3600)`, `Math.floor((s % 3600) / 60)`, `s % 60`. */
  function PartsOf(s: nat): (p: ClockParts)
    ensures p.minutes < 60 && p.seconds < 60
    ensures p.hours * 3600 + p.minutes * 60 + p.seconds == s
  {
    ClockParts(s / 3600, (s % 3600) / 60, s % 60)
  }

  /** `formatTime`: each part rendered with at least two digits; the minute
      and second fields are two digits each and read below 60. */
  function FormatTime(s: nat): (t: string)
    ensures s < 360000 ==> |t| == 8 && t[2] == ':' && t[5] == ':'
    ensures |t| >= 8 && t[|t| - 6] == ':' && t[|t| - 3] == ':'
    ensures AllDigits(t[..|t| - 6]) && AllDigits(t[|t| - 5..|t| - 3]) && AllDigits(t[|t| - 2..])
    ensures ParseDigits(t[|t| - 5..|t| - 3]) < 60 && ParseDigits(t[|t| - 2..]) < 60
  {
    var p := PartsOf(s);
    var hh, mm, ss := TwoDigits(p.hours), TwoDigits(p.minutes), TwoDigits(p.seconds);
    var t := hh + ":" + mm + ":" + ss;
    assert t[..|t| - 6] == hh && t[|t| - 5..|t| - 3] == mm && t[|t| - 2..] == ss;
    t
  }

  predicate AllDigits(s: string)
  {
    forall i :: 0 <= i < |s| ==> '0' <= s[i] <= '9'
  }

  /** Reads an `H..H:MM:SS` string back as seconds; None when malformed,
      including a minute or second field of 60 or more. */
  function ParseTime(t: string): Option<nat>
  {
    if |t| < 8 || t[|t| - 6] != ':' || t[|t| - 3] != ':' then None
    else
      var h, m, s := t[..|t| - 6], t[|t| - 5..|t| - 3], t[|t| - 2..];
      if AllDigits(h) && AllDigits(m) && AllDigits(s) && ParseDigits(m) < 60 && ParseDigits(s) < 60
      then Some(ClockValue(h, m, s))
      else None
  }

  /** The seconds denoted by decimal hour, minute and second fields. */
  function ClockValue(h: string, m: string, s: string): nat
    requires AllDigits(h) && AllDigits(m) && AllDigits(s)
  {
    ParseDigits(h) * 3600 + ParseDigits(m) * 60 + ParseDigits(s)
  }

  /** Splitting a well-formed clock string recovers its three fields. */
  lemma ParseTimeOfParts(hh: string, mm: string, ss: string)
    requires |hh| >= 2 && |mm| == 2 && |ss| == 2
    requires AllDigits(hh) && AllDigits(mm) && AllDigits(ss)
    requires ParseDigits(mm) < 60 && ParseDigits(ss) < 60
    ensures ParseTime(hh + ":" + mm + ":" + ss) == Some(ClockValue(hh, mm, ss))
  {
    var tail := [':', mm[0], mm[1], ':', ss[0], ss[1]];
    var t := hh + tail;
    assert hh + ":" + mm + ":" + ss == t;
    assert |t| == |hh| + 6;
    assert t[..|t| - 6] == hh;
    assert t[|t| - 5..|t| - 3] == mm;
    assert t[|t| - 2..] == ss;
    assert t[|t| - 6] == ':' && t[|t| - 3] == ':';
  }

  /** Reading the rendered time gives back the seconds it was made from. */
  lemma FormatTimeRoundTrip(s: nat)
    ensures ParseTime(FormatTime(s)) == Some(s)
  {
    var p := PartsOf(s);
    var hh, mm, ss := TwoDigits(p.hours), TwoDigits(p.minutes), TwoDigits(p.seconds);
    assert FormatTime(s) == hh + ":" + mm + ":" + ss;
    ParseTimeOfParts(hh, mm, ss);
    assert ClockValue(hh, mm, ss) == p.hours * 3600 + p.minutes * 60 + p.seconds;
  }

  /** A two-digit field reads as ten times its first digit plus its second. */
  lemma ParseTwoDigits(u: string)
    requires |u| == 2 && AllDigits(u)
    ensures ParseDigits(u) == (u[0] as int - '0' as int) * 10 + (u[1] as int - '0' as int)
  {
    var first := u[..1];
    assert first[..0] == [] && first[0] == u[0];
    assert ParseDigits(first) == u[0] as int - '0' as int;
  }

  /** Two two-digit fields that read the same are the same field. */
  lemma TwoDigitFieldsEqual(u: string, v: string)
    requires |u| == 2 && |v| == 2 && AllDigits(u) && AllDigits(v)
    requires ParseDigits(u) == ParseDigits(v)
    ensures u == v
  {
    ParseTwoDigits(u);
    ParseTwoDigits(v);
  }

  /** Below 100 hours the rendering is the only eight-character clock string
      for its seconds: `formatTime` is determined by the round trip. */
  lemma ClockStringUnique(t: string, s: nat)
    requires |t| == 8 && ParseTime(t) == Some(s)
    ensures t == FormatTime(s)
  {
    var h, m, sec := t[..2], t[3..5], t[6..];
    var hv, mv, sv := ParseDigits(h), ParseDigits(m), ParseDigits(sec);
    assert hv * 3600 + mv * 60 + sv == s;
    assert hv < 100 by { ParseTwoDigits(h); }
    var p := PartsOf(s);
    assert p.hours == hv && p.minutes == mv && p.seconds == sv by {
      MixedRadixUnique(hv, mv, sv, p.hours, p.minutes, p.seconds);
    }
    TwoDigitFieldsEqual(h, TwoDigits(p.hours));
    TwoDigitFieldsEqual(m, TwoDigits(p.minutes));
    TwoDigitFieldsEqual(sec, TwoDigits(p.seconds));
    assert t == h + ":" + m + ":" + sec;
  }

  /** Hours, minutes below 60 and seconds below 60 that give the same total are equal. */
  lemma MixedRadixUnique(h1: nat, m1: nat, s1: nat, h2: nat, m2: nat, s2: nat)
    requires m1 < 60 && s1 < 60 && m2 < 60 && s2 < 60
    requires h1 * 3600 + m1 * 60 + s1 == h2 * 3600 + m2 * 60 + s2
    ensures h1 == h2 && m1 == m2 && s1 == s2
  {
  }

  /** The Previous button: `Math.max(0, i - 1)`. */
  function Previous(i: int): (r: int)
    ensures i >= 1 ==> r == i - 1
    ensures i <= 1 ==> r == 0
  {
    if i - 1 < 0 then 0 else i - 1
  }

  /** The Next button: `Math.min(n - 1, i + 1)`. */
  function Next(i: int, n: int): (r: int)
    ensures i + 1 <= n - 1 ==> r == i + 1
    ensures i + 1 >= n - 1 ==> r == n - 1
  {
    if n - 1 < i + 1 then n - 1 else i + 1
  }

  /** Both buttons keep a valid question index valid, move it by at most one,
      and stay put only at the boundary. */
  lemma NavigationStaysInRange(i: int, n: int)
    requires 0 <= i < n
    ensures 0 <= Previous(i) < n && 0 <= Next(i, n) < n
    ensures Previous(i) == i <==> i == 0
    ensures Next(i, n) == i <==> i == n - 1
    ensures i - 1 <= Previous(i) <= i <= Next(i, n) <= i + 1
  {
  }
}
