/** pow2gt: rounding a buffer size up to a power of two by smearing bits. */
module Rounding {
  import opened Bits
  import Utf8

  /** The largest size that pow2gt can round up within an int. */
  const MAX_SIZE := 0x4000_0000

  lemma {:induction false} OrAtLeast(a: nat, b: nat)
    ensures Or(a, b) >= a && Or(a, b) >= b
  {
    if a > 0 && b > 0 {
      OrAtLeast(a / 2, b / 2);
    }
  }

  lemma {:induction false} OrBelow(a: nat, b: nat, k: nat)
    requires a < Pow2(k) && b < Pow2(k)
    ensures Or(a, b) < Pow2(k)
  {
    if a > 0 && b > 0 {
      OrBelow(a / 2, b / 2, k - 1);
    }
  }

  lemma {:induction false} PowSum(a: nat, b: nat)
    ensures Pow2(a + b) == Pow2(a) * Pow2(b)
  {
    if a > 0 {
      PowSum(a - 1, b);
      Utf8.Twice(Pow2(b), Pow2(a), Pow2(a - 1));
    }
  }

  /** Of the n low bits, y uses none above, and the top m are set. */
  predicate Smeared(y: nat, n: nat, m: nat) {
    m <= n && y < Pow2(n) && y + Pow2(n - m) >= Pow2(n)
  }

  /** y / p against q when y is within q of p * q; r * p == q or q <= p tells how close. */
  lemma {:induction false} Quotient(s: nat, y: nat, p: nat, q: nat, r: nat)
    requires s * p <= y < (s + 1) * p && y < p * q && y + q >= p * q
    requires p * r == q || (q <= p && r == 1)
    ensures s < q <= s + r
  {
    assert (s + 1 + r) * p == (s + 1) * p + r * p;
    if s >= q {
      Scale(q, s, p);
    }
    if s + 1 + r <= q {
      Scale(s + 1 + r, q, p);
    }
  }

  /** What shifting leaves of m set bits at the top. */
  lemma {:induction false} ShiftedBits(y: nat, n: nat, m: nat)
    requires Smeared(y, n, m)
    ensures Shr(y, m) < Pow2(n - m)
    ensures if 2 * m <= n then Shr(y, m) + Pow2(n - 2 * m) >= Pow2(n - m) else Shr(y, m) + 1 >= Pow2(n - m)
  {
    PowSum(m, n - m);
    if 2 * m <= n {
      PowSum(m, n - 2 * m);
      Quotient(Shr(y, m), y, Pow2(m), Pow2(n - m), Pow2(n - 2 * m));
    } else {
      PowBelow(n - m, m);
      Quotient(Shr(y, m), y, Pow2(m), Pow2(n - m), 1);
    }
  }

  lemma {:induction false} Scale(a: nat, b: nat, p: nat)
    requires a <= b
    ensures a * p <= b * p
  {
  }

  lemma {:induction false} PowBelow(a: nat, b: nat)
    requires a <= b
    ensures Pow2(a) <= Pow2(b)
  {
    if a < b {
      PowBelow(a, b - 1);
    }
  }

  function Least(a: nat, b: nat): (m: nat) {
    if a <= b then a else b
  }

  /** One step doubles the number of set bits at the top. */
  lemma {:induction false} SmearStep(y: nat, n: nat, m: nat)
    requires Smeared(y, n, Least(m, n))
    ensures Smeared(Or(y, Shr(y, m)), n, Least(2 * m, n))
  {
    var s := Shr(y, m);
    OrAtLeast(y, s);
    if m > n {
      ShrBelow(y, m);
      OrBelow(y, s, n);
    } else {
      var p, q := Pow2(m), Pow2(n - m);
      ShiftedBits(y, n, m);
      PowBelow(n - m, n);
      OrBelow(y, s, n);
      PowSum(m, n - m);
      OrTop(y, s, p, q, n - m);
    }
  }

  /** Below the top bits of y, an or with s leaves at least s. */
  lemma {:induction false} OrTop(y: nat, s: nat, p: nat, q: nat, k: nat)
    requires p > 0 && q == Pow2(k) && s < q && y < p * q && y + q >= p * q
    ensures Or(y, s) + q >= p * q + s
  {
    HighPart(y, p, q);
    Utf8.OrZero(p - 1);
    OrAtLeast(y % q, s);
    assert (p - 1) * q == p * q - q;
    hide Or, Pow2;
    Utf8.OrSplit(y, p - 1, y % q, s, 0, s, k, q);
  }

  lemma {:induction false} ShrBelow(y: nat, m: nat)
    ensures Shr(y, m) <= y
  {
    Scale(1, Pow2(m), Shr(y, m));
  }

  /** The top bits of y are all set. */
  lemma {:induction false} HighPart(y: nat, p: nat, q: nat)
    requires p > 0 && q > 0 && y < p * q && y + q >= p * q
    ensures y / q == p - 1 && y == (y / q) * q + y % q
  {
    assert (p - 1) * q == p * q - q;
    ModUnique(y, q, p - 1, y - (p - 1) * q);
  }

  /** The number of bits y needs. */
  ghost function Width(y: nat): (n: nat)
    ensures y < Pow2(n) && (n > 0 ==> Pow2(n - 1) <= y)
  {
    if y == 0 then 0 else Width(y / 2) + 1
  }

  /** pow2gt */
  function Pow2gt(x: nat): (r: nat)
    requires x > 0
  {
    var x := x - 1;
    var x := Or(x, Shr(x, 1));
    var x := Or(x, Shr(x, 2));
    var x := Or(x, Shr(x, 4));
    var x := Or(x, Shr(x, 8));
    var x := Or(x, Shr(x, 16));
    x + 1
  }

  /** Over the range of the C type, pow2gt is the least power of two that is not below x. */
  lemma {:induction false} Pow2gtIsLeastPower(x: nat)
    requires 0 < x <= MAX_SIZE
    ensures exists k :: k <= 30 && Pow2gt(x) == Pow2(k)
    ensures Pow2gt(x) >= x && (forall k | Pow2(k) >= x :: Pow2(k) >= Pow2gt(x))
  {
    hide Or, Shr, Pow2, Pow2gt, Width;
    var y := x - 1;
    var n := Width(y);
    WidthBound(y);
    SmearAll(y, n);
    forall k | Pow2(k) >= x
      ensures Pow2(k) >= Pow2(n)
    {
      NoPowerBetween(y, n, k);
    }
  }

  lemma {:induction false} NoPowerBetween(y: nat, n: nat, k: nat)
    requires n > 0 ==> Pow2(n - 1) <= y
    requires y < Pow2(k)
    ensures Pow2(n) <= Pow2(k)
  {
    hide Pow2;
    if k < n {
      PowBelow(k, n - 1);
    } else {
      PowBelow(n, k);
    }
  }

  lemma {:induction false} WidthBound(y: nat)
    requires y < MAX_SIZE
    ensures Width(y) <= 30
  {
    hide Pow2, Width;
    MaxIsPower();
    if Width(y) > 30 {
      PowBelow(30, Width(y) - 1);
    }
  }

  lemma {:induction false} MaxIsPower()
    ensures Pow2(30) == MAX_SIZE
  {
    hide Pow2;
    Utf8.Powers();
    PowSum(10, 10);
    PowSum(20, 10);
  }

  lemma {:induction false} SmearAll(y: nat, n: nat)
    requires n <= 30 && y < Pow2(n) && (n > 0 ==> Pow2(n - 1) <= y)
    ensures Pow2gt(y + 1) == Pow2(n)
  {
    assert Smeared(y, n, Least(1, n));
    SmearStep(y, n, 1);
    var y1 := Or(y, Shr(y, 1));
    SmearStep(y1, n, 2);
    var y2 := Or(y1, Shr(y1, 2));
    SmearStep(y2, n, 4);
    var y3 := Or(y2, Shr(y2, 4));
    SmearStep(y3, n, 8);
    var y4 := Or(y3, Shr(y3, 8));
    SmearStep(y4, n, 16);
  }
}
