/**
 The fixed month table and month navigation. The current month is an index
 0..11; stepping forward and back uses JavaScript's remainder operator, which
 truncates toward zero (unlike Dafny's Euclidean `%`), so it is written out.
 */
module Months {

  /** Days per month, indexed 0..11; February always has 28 days. */
  const DaysInMonth: seq<nat> := [31, 28, 31, 30, 31, 30, 31, 31, 30, 31, 30, 31]

  /** `daysInMonth[monthIndex]` as a loop bound: outside 0..11 the lookup is
      `undefined`, `day <= undefined` is false, and the loop runs zero times. */
  function MonthLength(monthIndex: int): (n: nat)
    ensures 0 <= monthIndex < 12 ==> 28 <= n <= 31
    ensures n == 28 <==> monthIndex == 1
    ensures !(0 <= monthIndex < 12) ==> n == 0
  {
    if 0 <= monthIndex < 12 then DaysInMonth[monthIndex] else 0
  }

  /** JavaScript's integer quotient for a positive divisor: rounded toward zero. */
  function JsQuot(a: int, b: int): int
    requires b > 0
  {
    if a >= 0 then a / b else -((-a) / b)
  }

  /** JavaScript's `a % b` for a positive divisor: what is left of `a` after
      taking away the quotient rounded toward zero, so the sign follows `a`. */
  function JsRem(a: int, b: int): (r: int)
    requires b > 0
    ensures a == JsQuot(a, b) * b + r
    ensures a >= 0 ==> 0 <= r < b
    ensures a < 0 ==> -b < r <= 0
  {
    if a >= 0 then
      assert a == (a / b) * b + a % b;
      a % b
    else
      assert -a == ((-a) / b) * b + (-a) % b;
      -((-a) % b)
  }

  /** `(prev + 1) % 12`: one month on, with December wrapping to January. */
  function NextMonth(m: int): (r: int)
    ensures -1 <= m ==> 0 <= r < 12
    ensures -1 <= m < 11 ==> r == m + 1
    ensures m == 11 ==> r == 0
  {
    JsRem(m + 1, 12)
  }

  /** `(prev - 1 + 12) % 12`: one month back, with January wrapping to December. */
  function PrevMonth(m: int): (r: int)
    ensures -11 <= m ==> 0 <= r < 12
    ensures 0 < m <= 12 ==> r == m - 1
    ensures m == 0 ==> r == 11
  {
    JsRem(m - 1 + 12, 12)
  }

  /** Within one lap the remainder is a subtraction. */
  lemma RemOneLap(x: int)
    requires 0 <= x < 24
    ensures JsRem(x, 12) == if x < 12 then x else x - 12
  {
    if x >= 12 {
      assert x == 1 * 12 + (x - 12);
    }
  }

  lemma NextPrevInverse(m: int)
    requires 0 <= m < 12
    ensures PrevMonth(NextMonth(m)) == m
    ensures NextMonth(PrevMonth(m)) == m
  {
    RemOneLap(m + 1);
    RemOneLap(m + 11);
    RemOneLap(NextMonth(m) + 11);
    RemOneLap(PrevMonth(m) + 1);
  }

  /** `k` presses of the "next" button. */
  function Forward(m: int, k: nat): int
    decreases k
  {
    if k == 0 then m else NextMonth(Forward(m, k - 1))
  }

  lemma {:induction false} ForwardWithinLap(m: int, k: nat)
    requires 0 <= m < 12 && k <= 12
    ensures Forward(m, k) == if m + k < 12 then m + k else m + k - 12
    decreases k
  {
    if k > 0 {
      ForwardWithinLap(m, k - 1);
      RemOneLap(Forward(m, k - 1) + 1);
    }
  }

  /** Twelve "next" presses return to the starting month. */
  lemma TwelveStepsReturn(m: int)
    requires 0 <= m < 12
    ensures Forward(m, 12) == m
  {
    ForwardWithinLap(m, 12);
  }

  lemma {:induction false} ForwardCompose(m: int, a: nat, b: nat)
    ensures Forward(m, a + b) == Forward(Forward(m, a), b)
    decreases b
  {
    if b > 0 {
      ForwardCompose(m, a, b - 1);
    }
  }

  lemma {:induction false} ForwardInRange(m: int, k: nat)
    requires 0 <= m < 12
    ensures 0 <= Forward(m, k) < 12
    decreases k
  {
    if k > 0 {
      ForwardInRange(m, k - 1);
    }
  }

  /** Month navigation is periodic with period twelve. */
  lemma ForwardPeriodic(m: int, k: nat)
    requires 0 <= m < 12
    ensures Forward(m, k + 12) == Forward(m, k)
  {
    ForwardCompose(m, 12, k);
    TwelveStepsReturn(m);
  }
}
