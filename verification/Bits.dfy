/**
 Bitwise operators on natural numbers, as far as the C sources use them on
 unsigned values: `&` with a mask of low bits, and `|` with a shifted copy.
 */
module Bits {
  function Pow2(k: nat): (p: nat)
    ensures p >= 1
  {
    if k == 0 then 1 else 2 * Pow2(k - 1)
  }

  /** The C expression a & b. */
  function And(a: nat, b: nat): nat {
    if a == 0 || b == 0 then 0
    else 2 * And(a / 2, b / 2) + (if a % 2 == 1 && b % 2 == 1 then 1 else 0)
  }

  /** The C expression a | b. */
  function Or(a: nat, b: nat): nat {
    if a == 0 then b
    else if b == 0 then a
    else 2 * Or(a / 2, b / 2) + (if a % 2 == 1 || b % 2 == 1 then 1 else 0)
  }

  /** The C expression a >> k. */
  function Shr(a: nat, k: nat): (r: nat)
    ensures r * Pow2(k) <= a < (r + 1) * Pow2(k)
  {
    var p := Pow2(k);
    DivBounds(a, p);
    a / p
  }

  lemma {:induction false} DivBounds(a: nat, p: nat)
    requires p > 0
    ensures a / p >= 0 && (a / p) * p + a % p == a
    ensures (a / p) * p <= a < (a / p + 1) * p
  {
  }

  lemma {:induction false} AndZero(a: nat)
    ensures And(a, 0) == And(0, a) == 0 && And(a, Pow2(0) - 1) == a % Pow2(0)
  {
  }

  /** Masking with 2^k - 1 is the remainder modulo 2^k. */
  lemma {:induction false} AndMask(h: nat, k: nat)
    ensures And(h, Pow2(k) - 1) == h % Pow2(k)
  {
    if k == 0 {
      AndZero(h);
    } else {
      hide And, Pow2;
      var p := Pow2(k - 1);
      AndMask(h / 2, k - 1);
      PowStep(k);
      AndStep(h, 2 * p - 1);
      ModDouble(h, p);
    }
  }

  lemma {:induction false} PowStep(k: nat)
    requires k > 0
    ensures Pow2(k) == 2 * Pow2(k - 1)
  {
  }

  lemma {:induction false} OrStep(a: nat, b: nat)
    ensures Or(a, b) == 2 * Or(a / 2, b / 2) + (if a % 2 == 1 || b % 2 == 1 then 1 else 0)
  {
  }

  lemma {:induction false} AndStep(a: nat, b: nat)
    ensures And(a, b) == 2 * And(a / 2, b / 2) + (if a % 2 == 1 && b % 2 == 1 then 1 else 0)
  {
  }

  lemma {:induction false} ModDouble(h: nat, p: nat)
    requires p > 0
    ensures h % (2 * p) == 2 * ((h / 2) % p) + h % 2
  {
    var q, r := (h / 2) / p, (h / 2) % p;
    assert h / 2 == q * p + r;
    assert h == (2 * p) * q + (2 * r + h % 2);
    ModUnique(h, 2 * p, q, 2 * r + h % 2);
  }

  lemma {:induction false} QuotientNotAbove(n: nat, q: nat, r: nat, q': nat, r': nat)
    requires n * q + r == n * q' + r' && r < n && r' < n
    ensures q <= q'
  {
    if q > q' {
      calc {
        n * q;
      == { assert q == q' + (q - q'); }
        n * q' + n * (q - q');
      >= { assert n * (q - q') >= n by { Grow(n, q - q'); } }
        n * q' + n;
      }
    }
  }

  lemma {:induction false} Grow(n: nat, d: nat)
    requires d >= 1
    ensures n * d >= n
  {
  }

  lemma {:induction false} ModUnique(h: nat, n: nat, q: nat, r: nat)
    requires n > 0 && h == n * q + r && r < n
    ensures h % n == r && h / n == q
  {
    QuotientNotAbove(n, q, r, h / n, h % n);
    QuotientNotAbove(n, h / n, h % n, q, r);
  }

  /** Doubling the modulus only splits a residue class in two. */
  lemma {:induction false} ModOfDoubled(h: nat, n: nat)
    requires n > 0
    ensures (h % (2 * n)) % n == h % n
  {
    var q, r := h / (2 * n), h % (2 * n);
    var q2, r2 := r / n, r % n;
    DivBounds(h, 2 * n);
    DivBounds(r, n);
    Regroup(n, q, q2);
    ModUnique(h, n, 2 * q + q2, r2);
  }

  lemma {:induction false} Regroup(n: nat, q: nat, q2: nat)
    ensures n * (2 * q + q2) == q * (2 * n) + q2 * n
  {
    assert n * (2 * q + q2) == n * (2 * q) + n * q2;
    assert n * (2 * q) == q * (2 * n);
  }
}
