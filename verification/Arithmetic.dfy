/** Facts about products, quotients and base 256 that the solver needs one at a time. */
module Arithmetic {

  lemma {:induction false} MultiplyMonotone(c: nat, x: nat, y: nat)
    requires x <= y
    ensures c * x <= c * y
  {
  }

  lemma {:induction false} QuotientBounds(x: nat, d: nat)
    requires d > 0
    ensures d * (x / d) <= x < d * (x / d + 1)
  {
    assert x == d * (x / d) + x % d;
    assert d * (x / d + 1) == d * (x / d) + d;
  }

  lemma {:induction false} Division(x: nat, d: nat)
    requires d > 0
    ensures x == d * (x / d) + x % d && 0 <= x % d < d
  {
  }

  /** Cancelling a positive factor. */
  lemma {:induction false} Cancel(d: nat, p: nat, q: nat)
    requires d * p < d * (q + 1)
    ensures p <= q
  {
    if p > q {
      MultiplyMonotone(d, q + 1, p);
    }
  }

  lemma {:induction false} QuotientAtMost(x: nat, d: nat, q: nat)
    requires d > 0 && x <= d * q
    ensures x / d <= q
  {
    var p := x / d;
    assert d * p <= x by { QuotientBounds(x, d); }
    assert d * (q + 1) == d * q + d;
    Cancel(d, p, q);
  }

  lemma {:induction false} DivideMonotone(x: nat, y: nat, d: nat)
    requires d > 0 && x <= y
    ensures x / d <= y / d
  {
    var p, q := x / d, y / d;
    assert d * p <= x by { QuotientBounds(x, d); }
    assert y < d * (q + 1) by { QuotientBounds(y, d); }
    Cancel(d, p, q);
  }

  lemma {:induction false} QuotientFalls(x: nat, y: nat, d: nat)
    requires d > 0 && x + d <= y
    ensures x / d < y / d
  {
    var p, q := x / d, y / d;
    assert d * p <= x by { QuotientBounds(x, d); }
    assert y < d * (q + 1) by { QuotientBounds(y, d); }
    assert d * (p + 1) == d * p + d;
    Cancel(d, p + 1, q);
  }

  lemma {:induction false} QuotientIs(x: nat, d: nat, q: nat)
    requires d > 0 && d * q <= x < d * (q + 1)
    ensures x / d == q
  {
    var p := x / d;
    assert d * p <= x < d * (p + 1) by { QuotientBounds(x, d); }
    Cancel(d, p, q);
    Cancel(d, q, p);
  }

  lemma {:induction false} BelowMultiple(x: nat, d: nat, q: nat)
    requires d > 0 && x < d * q
    ensures x / d < q
  {
    var p := x / d;
    assert d * p <= x by { QuotientBounds(x, d); }
    assert q > 0;
    Cancel(d, p, q - 1);
  }

  /** Two shifts by a byte are one shift by two bytes, and so on. */
  lemma {:induction false} Shifts(v: nat)
    ensures v / 0x100 / 0x100 == v / 0x1_0000
    ensures v / 0x1_0000 / 0x100 == v / 0x100_0000
  {
  }

  lemma {:induction false} LastByte(v: nat)
    ensures v == v / 0x100 * 0x100 + v % 0x100
  {
  }

  lemma {:induction false} FourBytesSum(v: nat)
    ensures v == v / 0x100_0000 * 0x100_0000 + v / 0x1_0000 % 0x100 * 0x1_0000 + v / 0x100 % 0x100 * 0x100 + v % 0x100
  {
    Shifts(v);
    LastByte(v);
    LastByte(v / 0x100);
    LastByte(v / 0x1_0000);
  }
}
