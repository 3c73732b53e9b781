/**
 The key under which one calendar day is stored: the template string
 `${monthIndex}-${day}`, i.e. the decimal rendering of the month index, a dash,
 and the decimal rendering of the day. Distinct days must get distinct keys,
 otherwise toggling one day would show up on another; `DayKeyInjective`
 proves that they do, through the inverse `ParseDayKey`.
 */
module DayKeys {
  import opened Options

  predicate IsDigit(c: char) {
    '0' <= c <= '9'
  }

  predicate AllDigits(s: string) {
    forall i :: 0 <= i < |s| ==> IsDigit(s[i])
  }

  function DigitChar(n: nat): (c: char)
    requires n < 10
    ensures IsDigit(c)
  {
    (48 + n) as char
  }

  function DigitValue(c: char): (n: nat)
    requires IsDigit(c)
    ensures n < 10
  {
    (c as int) - 48
  }

  /** How JavaScript renders a non-negative integer inside a template string:
      decimal, most significant digit first, no leading zeros. */
  function NatToString(n: nat): (s: string)
    ensures 1 <= |s| && AllDigits(s)
    ensures |s| > 1 ==> s[0] != '0'
    decreases n
  {
    if n < 10 then [DigitChar(n)] else NatToString(n / 10) + [DigitChar(n % 10)]
  }

  /** Reads a string of decimal digits back as a number. */
  function StringToNat(s: string): (n: nat)
    requires AllDigits(s)
    decreases |s|
  {
    if |s| == 0 then 0 else StringToNat(s[..|s| - 1]) * 10 + DigitValue(s[|s| - 1])
  }

  lemma {:induction false} NatToStringRoundTrip(n: nat)
    ensures StringToNat(NatToString(n)) == n
    decreases n
  {
    var s := NatToString(n);
    if n >= 10 {
      assert s[..|s| - 1] == NatToString(n / 10);
      NatToStringRoundTrip(n / 10);
    }
  }


  /** Position of the first dash of `s`, or `|s|` when there is none. */
  function FirstDash(s: string): (i: nat)
    ensures i <= |s|
    ensures i < |s| ==> s[i] == '-'
    ensures forall j :: 0 <= j < i ==> s[j] != '-'
  {
    if |s| == 0 then 0 else if s[0] == '-' then 0 else 1 + FirstDash(s[1..])
  }

  lemma {:induction false} FirstDashAfterDigits(a: string, rest: string)
    requires AllDigits(a)
    requires |rest| > 0 && rest[0] == '-'
    ensures FirstDash(a + rest) == |a|
    decreases |a|
  {
    if |a| > 0 {
      assert (a + rest)[1..] == a[1..] + rest;
      FirstDashAfterDigits(a[1..], rest);
    }
  }

  /** Splits a day key back into month index and day; the inverse of `DayKey`. */
  function ParseDayKey(k: string): Option<(nat, nat)> {
    var i := FirstDash(k);
    if i < |k| && 0 < i && AllDigits(k[..i]) && AllDigits(k[i + 1..]) then
      Some((StringToNat(k[..i]), StringToNat(k[i + 1..])))
    else
      None
  }

  /** The dash joining two digit strings is the first dash, so it splits the
      key back into its two parts. */
  lemma DashJoinSplits(a: string, b: string)
    requires AllDigits(a)
    ensures FirstDash(a + "-" + b) == |a|
    ensures (a + "-" + b)[..|a|] == a && (a + "-" + b)[|a| + 1..] == b
  {
    assert a + "-" + b == a + ("-" + b);
    FirstDashAfterDigits(a, "-" + b);
  }

  /** The day key `${monthIndex}-${day}`: its first dash separates the month
      digits from the day digits. */
  function DayKey(monthIndex: nat, day: nat): (k: string)
    ensures FirstDash(k) == |NatToString(monthIndex)| < |k|
    ensures k[..FirstDash(k)] == NatToString(monthIndex)
    ensures k[FirstDash(k) + 1..] == NatToString(day)
  {
    DashJoinSplits(NatToString(monthIndex), NatToString(day));
    NatToString(monthIndex) + "-" + NatToString(day)
  }

  lemma ParseDayKeyRoundTrip(monthIndex: nat, day: nat)
    ensures ParseDayKey(DayKey(monthIndex, day)) == Some((monthIndex, day))
  {
    NatToStringRoundTrip(monthIndex);
    NatToStringRoundTrip(day);
  }

  /** Two days share a key exactly when they are the same day. */
  lemma DayKeyInjective(m1: nat, d1: nat, m2: nat, d2: nat)
    ensures DayKey(m1, d1) == DayKey(m2, d2) <==> m1 == m2 && d1 == d2
  {
    ParseDayKeyRoundTrip(m1, d1);
    ParseDayKeyRoundTrip(m2, d2);
  }
}
