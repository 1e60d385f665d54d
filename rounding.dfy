/** Python's `round(x)` and `round(x, 2)`, taken on the exact real value: the nearest
    integer (or hundredth), a tie going to the even neighbour. */
module Rounding {

  /** `round(x)` with no digit argument. */
  function RoundHalfEven(x: real): (n: int)
    ensures -0.5 <= n as real - x <= 0.5
    ensures (n as real - x == 0.5 || x - n as real == 0.5) ==> n % 2 == 0
  {
    var f := x.Floor;
    var frac := x - f as real;
    if frac < 0.5 then f
    else if frac > 0.5 then f + 1
    else if f % 2 == 0 then f else f + 1
  }

  /** The two properties of RoundHalfEven's contract single out one integer. */
  lemma {:induction false} RoundHalfEvenUnique(x: real, m: int)
    requires -0.5 <= m as real - x <= 0.5
    requires (m as real - x == 0.5 || x - m as real == 0.5) ==> m % 2 == 0
    ensures m == RoundHalfEven(x)
  {
  }

  lemma {:induction false} RoundHalfEvenOfInt(k: int)
    ensures RoundHalfEven(k as real) == k
  {
    RoundHalfEvenUnique(k as real, k);
  }

  lemma {:induction false} RoundHalfEvenMonotone(x: real, y: real)
    requires x <= y
    ensures RoundHalfEven(x) <= RoundHalfEven(y)
  {
  }

  /** `round(x, 2)`. */
  function Round2(x: real): (r: real)
    ensures -0.005 <= r - x <= 0.005
  {
    RoundHalfEven(x * 100.0) as real / 100.0
  }

  lemma {:induction false} Round2Monotone(x: real, y: real)
    requires x <= y
    ensures Round2(x) <= Round2(y)
  {
    RoundHalfEvenMonotone(x * 100.0, y * 100.0);
  }

  /** Rounding never leaves an interval whose ends are whole numbers. */
  lemma {:induction false} Round2Within(x: real, lo: int, hi: int)
    requires lo as real <= x <= hi as real
    ensures lo as real <= Round2(x) <= hi as real
  {
    RoundHalfEvenMonotone((lo * 100) as real, x * 100.0);
    RoundHalfEvenMonotone(x * 100.0, (hi * 100) as real);
    RoundHalfEvenOfInt(lo * 100);
    RoundHalfEvenOfInt(hi * 100);
  }

  /** A value that already has at most two decimals is left unchanged. */
  lemma {:induction false} Round2OfHundredths(k: int)
    ensures Round2(k as real / 100.0) == k as real / 100.0
  {
    assert (k as real / 100.0) * 100.0 == k as real;
    RoundHalfEvenOfInt(k);
  }

  /** A value strictly closer than half a hundredth to k/100 rounds to k/100. */
  lemma {:induction false} Round2Nearest(x: real, k: int)
    requires -0.005 < k as real / 100.0 - x < 0.005
    ensures Round2(x) == k as real / 100.0
  {
    RoundHalfEvenUnique(x * 100.0, k);
  }
}
