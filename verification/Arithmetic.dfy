/** Powers of two and the little arithmetic on which the other modules agree. */
module Arithmetic {

  function Power(n: nat): (r: nat)
    ensures 0 < r
  {
    if n == 0 then 1 else 2 * Power(n - 1)
  }

  lemma {:induction false} PowerAdds(a: nat, b: nat)
    ensures Power(a + b) == Power(a) * Power(b)
  {
    if a > 0 {
      PowerAdds(a - 1, b);
    }
  }

  /** Numbers with a leading digit and a rest below the base compare by the digit first. */
  lemma LeadingDigit(x: nat, y: nat, p: nat, r: nat, s: nat)
    requires r < p && s < p
    ensures x * p + r <= y * p + s <==> x < y || (x == y && r <= s)
  {
    if x < y {
      assert (x + 1) * p <= y * p;
    } else if y < x {
      assert (y + 1) * p <= x * p;
    }
  }

  /** An interval below the base, put behind a byte: a number lies in it iff its byte is that one and its rest in the
      interval. */
  lemma FirstDigitDecides(x: nat, y: nat, p: nat, low: nat, tail: nat, rest: nat)
    requires x < 256 && y < 256 && low + tail <= p && 0 < tail && rest < p
    ensures x == y && low <= rest < low + tail <==> x * p + low <= y * p + rest < x * p + low + tail
    ensures x * p + low + tail <= 256 * p
  {
    LeadingDigit(x, y, p, low, rest);
    LeadingDigit(y, x, p, rest, low + tail - 1);
    LeadingDigit(x, 255, p, low + tail - 1, p - 1);
  }

  lemma ScaledInterval(low: nat, tail: nat, x: nat, p: nat, rest: nat)
    requires rest < p
    ensures low <= x < low + tail <==> low * p <= x * p + rest < low * p + tail * p
  {
    LeadingDigit(low, x, p, 0, rest);
    LeadingDigit(low + tail, x, p, 0, rest);
    assert (low + tail) * p == low * p + tail * p;
  }

  lemma ScaledBound(low: nat, tail: nat, bound: nat, p: nat)
    requires low + tail <= bound
    ensures low * p + tail * p <= bound * p
  {
  }

  lemma HalfInterval(low: nat, y: nat, tail: nat)
    ensures low <= y / 2 < low + tail <==> 2 * low <= y < 2 * low + 2 * tail
  {
  }

  lemma DivisionOfMultiple(q: nat, t: nat)
    requires 0 < t
    ensures (q * t) / t == q && (q * t) % t == 0
  {
    var x := q * t;
    LeadingDigit(q, x / t, t, 0, x % t);
    LeadingDigit(x / t, q, t, x % t, 0);
  }

  lemma HalfOfMultiple(x: nat, t: nat)
    requires 0 < t && x % (2 * t) == 0
    ensures x % 2 == 0 && (x / 2) % t == 0
  {
    var q := x / (2 * t);
    assert x == q * (2 * t) == 2 * (q * t);
    DivisionOfMultiple(q, t);
  }
}
