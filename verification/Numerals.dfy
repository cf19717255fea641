/** The grammar and the value of the numbers that parse_number reads, stated with powers of ten on natural numbers. */
module Numerals {
  import opened CText
  import opened Numbers

  /** The value of a string of digits. */
  function NatOf(s: string): (n: nat)
    requires forall i | 0 <= i < |s| :: IsDigit(s[i])
  {
    if s == "" then 0
    else
      var m := |s| - 1;
      assert IsDigit(s[m]);
      10 * NatOf(s[..m]) + (s[m] as int - 48)
  }

  /** All digits from position a on stand before position b. */
  predicate DigitRun(t: string, a: nat, b: nat) {
    a <= b <= |t| && (forall k | a <= k < b :: IsDigit(t[k])) && !IsDigit(CharAt(t, b))
  }

  /** The digits before the point: at most one zero, then digits that do not begin with a zero. */
  predicate Whole(t: string, p: nat, q: nat) {
    var z := if CharAt(t, p) == '0' then p + 1 else p;
    if '1' <= CharAt(t, z) <= '9' then DigitRun(t, z, q) else q == z
  }

  /** A point counts only with a digit after it. */
  predicate Fraction(t: string, q: nat, r: nat) {
    if CharAt(t, q) == '.' && IsDigit(CharAt(t, q + 1)) then DigitRun(t, q + 1, r) else r == q
  }

  predicate IsE(c: char) {
    c == 'e' || c == 'E'
  }

  predicate IsSign(c: char) {
    c == '+' || c == '-'
  }

  /** Where the digits of an exponent start. */
  function ExponentStart(t: string, r: nat): (s: nat) {
    if IsSign(CharAt(t, r + 1)) then r + 2 else r + 1
  }

  /** An exponent may lack its digits. */
  predicate Power(t: string, r: nat, j: nat) {
    if IsE(CharAt(t, r)) then DigitRun(t, ExponentStart(t, r), j) else j == r
  }

  /** What the parts of a numeral stand for: a digit string, the digits after the point, and the exponent. */
  datatype Parts = Parts(n: nat, d: nat, k: nat, down: bool)

  function PartsOf(t: string, p: nat, q: nat, r: nat, j: nat): (m: Parts)
    requires p <= q <= r <= j <= |t| && Whole(t, p, q) && Fraction(t, q, r) && Power(t, r, j)
  {
    WholeDigits(t, p, q);
    var whole := t[p..q];
    var fraction := if r > q then t[q + 1..r] else "";
    var power := if IsE(CharAt(t, r)) then t[ExponentStart(t, r)..j] else "";
    Parts(NatOf(whole + fraction), |fraction|, NatOf(power), IsE(CharAt(t, r)) && CharAt(t, r + 1) == '-')
  }

  lemma {:induction false} WholeDigits(t: string, p: nat, q: nat)
    requires Whole(t, p, q) && q <= |t|
    ensures p <= q && forall k | p <= k < q :: IsDigit(t[k])
  {
  }

  /** x is the number that the parts stand for: n / 10^d, times or divided by 10^k. */
  predicate Scaled(x: real, negative: bool, m: Parts) {
    x * Divisor(m) as real == Dividend(negative, m)
  }

  function Divisor(m: Parts): (p: nat) {
    PowNat(if m.down then m.d + m.k else m.d)
  }

  function Dividend(negative: bool, m: Parts): (y: real) {
    var n := if negative then -(m.n as real) else m.n as real;
    if m.down then n else n * PowNat(m.k) as real
  }

  function AfterSign(t: string, i: nat): (p: nat) {
    if CharAt(t, i) == '-' then i + 1 else i
  }

  /** From i to j stands a numeral for x, the digits before its point end at q, those after it at r. */
  predicate Numeral(t: string, i: nat, q: nat, r: nat, j: nat, x: real) {
    var p := AfterSign(t, i);
    && p <= q <= r <= j <= |t| && Whole(t, p, q) && Fraction(t, q, r) && Power(t, r, j)
    && Scaled(x, CharAt(t, i) == '-', PartsOf(t, p, q, r, j))
  }

  // Digits

  lemma {:induction false} NatOfCons(s: string)
    requires s != "" && forall i | 0 <= i < |s| :: IsDigit(s[i])
    ensures NatOf(s) == (s[0] as int - 48) * PowNat(|s| - 1) + NatOf(s[1..])
  {
    var m := |s| - 1;
    if m > 0 {
      NatOfCons(s[..m]);
      assert s[1..][..m - 1] == s[..m][1..] && s[1..][m - 1] == s[m];
      Shifted(s[0] as int - 48, PowNat(m - 1), NatOf(s[1..m]));
      assert s[..m][1..] == s[1..m];
    } else {
      assert s[..0] == "" && s[1..] == "";
    }
  }

  /** Reading digits appends them to the number. */
  lemma {:induction false} ReadRun(t: string, a: nat, n: nat)
    requires a <= |t|
    ensures var r := ReadDigits(t, a, n);
            DigitRun(t, a, r.next) && r.n == n * PowNat(r.next - a) + NatOf(t[a..r.next])
    decreases |t| - a
  {
    var r := ReadDigits(t, a, n);
    if IsDigit(CharAt(t, a)) {
      var d := t[a] as int - 48;
      ReadRun(t, a + 1, 10 * n + d);
      var s, k := t[a..r.next], r.next - a - 1;
      assert s[1..] == t[a + 1..r.next];
      NatOfCons(s);
      Accumulate(n, d, PowNat(k));
    } else {
      assert t[a..a] == "";
    }
  }

  lemma {:induction false} Shifted(d: int, p: nat, n: nat)
    ensures 10 * (d * p + n) == d * (10 * p) + 10 * n
  {
  }

  lemma {:induction false} Accumulate(n: nat, d: nat, p: nat)
    ensures (10 * n + d) * p == n * (10 * p) + d * p
  {
  }

  lemma {:induction false} RunUnique(t: string, a: nat, b: nat, c: nat)
    requires DigitRun(t, a, b) && DigitRun(t, a, c)
    ensures b == c
  {
  }

  lemma {:induction false} NatOfConcat(s: string, u: string)
    requires (forall i | 0 <= i < |s| :: IsDigit(s[i])) && (forall i | 0 <= i < |u| :: IsDigit(u[i]))
    ensures NatOf(s + u) == NatOf(s) * PowNat(|u|) + NatOf(u)
    decreases |u|
  {
    hide NatOf;
    if u == "" {
      assert s + u == s && PowNat(0) == 1 && NatOf("") == 0 by { ZeroPower(); EmptyNatOf(); }
    } else {
      hide PowNat;
      var m := |u| - 1;
      NatOfConcat(s, u[..m]);
      NatOfSnoc(s + u);
      NatOfSnoc(u);
      assert (s + u)[..|s| + m] == s + u[..m] && (s + u)[|s| + m] == u[m];
      TenTimes(NatOf(s), m);
    }
  }

  lemma {:induction false} NatOfSnoc(s: string)
    requires s != "" && forall i | 0 <= i < |s| :: IsDigit(s[i])
    ensures NatOf(s) == 10 * NatOf(s[..|s| - 1]) + (s[|s| - 1] as int - 48)
  {
  }

  lemma {:induction false} TenTimes(a: nat, m: nat)
    ensures a * PowNat(m + 1) == 10 * (a * PowNat(m))
  {
  }

  lemma {:induction false} NatOfDigits(n: nat)
    ensures NatOf(Digits(n)) == n
  {
    var s := Digits(n);
    if n >= 10 {
      NatOfDigits(n / 10);
      assert s[..|s| - 1] == Digits(n / 10);
    } else {
      assert s[..0] == "";
    }
  }

  // Powers of ten

  lemma {:induction false} Shift(k: int, d: nat)
    ensures Pow10(k) * PowNat(d) as real == Pow10(k + d)
  {
    if d > 0 {
      Shift(k, d - 1);
      assert Pow10(k + d) == 10.0 * Pow10(k + d - 1);
      var x, p := Pow10(k), PowNat(d - 1) as real;
      assert PowNat(d) as real == 10.0 * p;
      assert x * (10.0 * p) == 10.0 * (x * p);
    }
  }

  lemma {:induction false} PowerIs(k: nat)
    ensures Pow10(k) == PowNat(k) as real && PowNat(k) > 0
  {
    if k > 0 {
      PowerIs(k - 1);
    }
  }

  /** The power that parse_number computes scales as the parts say. */
  lemma {:induction false} AssembleScales(negative: bool, m: Parts)
    ensures Scaled(Assemble(negative, m.n, 0 - m.d, if m.down then 0 - m.k else m.k), negative, m)
  {
    hide Pow10, PowNat;
    var e := if m.down then 0 - m.k else m.k;
    var n := (if negative then -1.0 else 1.0) * m.n as real;
    var p := Pow10(e - m.d);
    if m.down {
      Shift(0 - m.d - m.k, m.d + m.k);
      Regroup(n, p, PowNat(m.d + m.k) as real);
      assert Pow10(0) == 1.0 by { PowerIs(0); ZeroPower(); }
    } else {
      Shift(m.k - m.d, m.d);
      PowerIs(m.k);
      Regroup(n, p, PowNat(m.d) as real);
    }
  }

  lemma {:induction false} ZeroPower()
    ensures PowNat(0) == 1
  {
  }

  lemma {:induction false} Regroup(n: real, p: real, q: real)
    ensures n * p * q == n * (p * q)
  {
  }

  lemma {:induction false} ScaledUnique(x: real, y: real, negative: bool, m: Parts)
    requires Scaled(x, negative, m) && Scaled(y, negative, m)
    ensures x == y
  {
    hide Divisor, Dividend;
    DivisorPositive(m);
    Cancel(x, y, Divisor(m) as real);
  }

  lemma {:induction false} DivisorPositive(m: Parts)
    ensures Divisor(m) > 0
  {
    PowerIs(if m.down then m.d + m.k else m.d);
  }

  lemma {:induction false} Cancel(x: real, y: real, p: real)
    requires x * p == y * p && p > 0.0
    ensures x == y
  {
    assert x == (x * p) / p && y == (y * p) / p;
  }

  // parse_number reads numerals

  lemma {:induction false} WholeReads(t: string, p: nat)
    requires p <= |t|
    ensures var r := ScanWhole(t, p); Whole(t, p, r.next) && r.n == NatOf(t[p..r.next])
  {
    var z := if CharAt(t, p) == '0' then p + 1 else p;
    ReadRun(t, z, 0);
    var r := ScanWhole(t, p);
    var s := t[p..r.next];
    if z > p {
      NatOfCons(s);
      assert s[1..] == t[z..r.next];
    }
    if !('1' <= CharAt(t, z) <= '9') {
      assert t[z..z] == "";
    }
  }

  lemma {:induction false} FractionReads(t: string, p: nat, q: nat)
    requires p <= q <= |t| && forall k | p <= k < q :: IsDigit(t[k])
    ensures var m := ScanFraction(t, q, NatOf(t[p..q]));
            && Fraction(t, q, m.next) && q <= m.next
            && var f := if m.next > q then t[q + 1..m.next] else "";
               (forall k | 0 <= k < |f| :: IsDigit(f[k])) && m.n == NatOf(t[p..q] + f) && m.scale == -|f|
  {
    hide NatOf;
    var n := NatOf(t[p..q]);
    if CharAt(t, q) == '.' && IsDigit(CharAt(t, q + 1)) {
      ReadRun(t, q + 1, n);
      var r := ReadDigits(t, q + 1, n);
      NatOfConcat(t[p..q], t[q + 1..r.next]);
    } else {
      assert t[p..q] + "" == t[p..q];
    }
  }

  lemma {:induction false} PowerReads(t: string, r: nat)
    requires r <= |t|
    ensures var e := ScanExponent(t, r);
            && Power(t, r, e.next)
            && (IsE(CharAt(t, r)) ==>
                 var k := NatOf(t[ExponentStart(t, r)..e.next]);
                 e.subscale == if CharAt(t, r + 1) == '-' then 0 - k else k)
            && (!IsE(CharAt(t, r)) ==> e.subscale == 0)
  {
    if IsE(CharAt(t, r)) {
      ReadRun(t, ExponentStart(t, r), 0);
    }
  }

  /** What parse_number reads is a numeral for what it returns. */
  lemma {:induction false} ReadsNumeral(t: string, i: nat) returns (q: nat, r: nat)
    requires i <= |t|
    ensures Numeral(t, i, q, r, ScanNumber(t, i).next, ScanNumber(t, i).value)
  {
    hide NatOf, ScanWhole, ScanFraction, ScanExponent, Assemble, Scaled, DigitRun;
    var p := AfterSign(t, i);
    WholeReads(t, p);
    q := ScanWhole(t, p).next;
    WholeDigits(t, p, q);
    FractionReads(t, p, q);
    r := ScanFraction(t, q, ScanWhole(t, p).n).next;
    PowerReads(t, r);
    var j := ScanExponent(t, r).next;
    EmptyNatOf();
    AssembleScales(CharAt(t, i) == '-', PartsOf(t, p, q, r, j));
  }

  lemma {:induction false} EmptyNatOf()
    ensures NatOf("") == 0
  {
  }

  /** parse_number reads every numeral to its end, and returns its value. */
  lemma {:induction false} NumeralReads(t: string, i: nat, q: nat, r: nat, j: nat, x: real)
    requires i <= |t| && Numeral(t, i, q, r, j, x)
    ensures ScanNumber(t, i) == Number(x, j)
  {
    hide ScanNumber, Scaled, PartsOf, Whole, Fraction, Power;
    var q', r' := ReadsNumeral(t, i);
    EndsUnique(t, AfterSign(t, i), q, r, j, q', r', ScanNumber(t, i).next);
    ScaledUnique(x, ScanNumber(t, i).value, CharAt(t, i) == '-', PartsOf(t, AfterSign(t, i), q, r, j));
  }

  lemma {:induction false} EndsUnique(t: string, p: nat, q: nat, r: nat, j: nat, q': nat, r': nat, j': nat)
    requires Whole(t, p, q) && Fraction(t, q, r) && Power(t, r, j)
    requires Whole(t, p, q') && Fraction(t, q', r') && Power(t, r', j')
    ensures q == q' && r == r' && j == j'
  {
    hide DigitRun;
    var z := if CharAt(t, p) == '0' then p + 1 else p;
    if '1' <= CharAt(t, z) <= '9' { RunUnique(t, z, q, q'); }
    if CharAt(t, q) == '.' && IsDigit(CharAt(t, q + 1)) { RunUnique(t, q + 1, r, r'); }
    if IsE(CharAt(t, r)) { RunUnique(t, ExponentStart(t, r), j, j'); }
  }

  predicate AllDigits(s: string) {
    s != "" && forall k | 0 <= k < |s| :: IsDigit(s[k])
  }

  /** Where the parts of a numeral with a point and an exponent stand. */
  predicate Stands(t: string, i: nat, sign: string, w: string, ds: string, e: string, pw: string) {
    var p := i + |sign|;
    var q := p + |w|;
    var r := q + 1 + |ds|;
    var s := r + |e|;
    && s + |pw| <= |t|
    && t[i..p] == sign && t[p..q] == w && t[q] == '.' && t[q + 1..r] == ds && t[r..s] == e && t[s..s + |pw|] == pw
  }

  lemma {:induction false} OccursStands(t: string, i: nat, sign: string, w: string, ds: string, e: string, pw: string)
    requires Occurs(t, i, sign + w + "." + ds + e + pw)
    ensures Stands(t, i, sign, w, ds, e, pw)
  {
    hide Occurs;
    OccursConcat(t, i, sign + w + "." + ds + e, pw);
    OccursConcat(t, i, sign + w + "." + ds, e);
    OccursConcat(t, i, sign + w + ".", ds);
    OccursConcat(t, i, sign + w, ".");
    OccursConcat(t, i, sign, w);
    var q := i + |sign| + |w|;
    OccursSlice(t, i, sign);
    OccursSlice(t, i + |sign|, w);
    OccursSlice(t, q, ".");
    OccursSlice(t, q + 1, ds);
    OccursSlice(t, q + 1 + |ds|, e);
    OccursSlice(t, q + 1 + |ds| + |e|, pw);
    assert t[q..q + 1][0] == t[q];
  }

  lemma {:induction false} RunStands(t: string, a: nat, s: string)
    requires a + |s| <= |t| && t[a..a + |s|] == s && AllDigits(s) && !IsDigit(CharAt(t, a + |s|))
    ensures DigitRun(t, a, a + |s|) && IsDigit(CharAt(t, a))
  {
    forall k | a <= k < a + |s|
      ensures IsDigit(t[k])
    {
      assert t[k] == s[k - a];
    }
  }

  lemma {:induction false} StandsReads(t: string, i: nat, sign: string, w: string, ds: string, e: string, pw: string)
    requires sign in ["", "-"] && e in ["e", "E", "e+", "E+", "e-", "E-"]
    requires AllDigits(w) && (w[0] == '0' ==> |w| == 1) && AllDigits(ds) && AllDigits(pw)
    requires Stands(t, i, sign, w, ds, e, pw) && !IsDigit(CharAt(t, i + |sign| + |w| + 1 + |ds| + |e| + |pw|))
    ensures var p := i + |sign|;
            var q := p + |w|;
            var r := q + 1 + |ds|;
            var j := r + |e| + |pw|;
            && j <= |t| && p == AfterSign(t, i) && (CharAt(t, i) == '-' <==> sign == "-")
            && Whole(t, p, q) && Fraction(t, q, r) && Power(t, r, j)
            && PartsOf(t, p, q, r, j) == Parts(NatOf(w + ds), |ds|, NatOf(pw), e in ["e-", "E-"])
  {
    hide NatOf, DigitRun;
    var p := i + |sign|;
    var q := p + |w|;
    var r := q + 1 + |ds|;
    var s := r + |e|;
    assert t[p] == t[p..q][0] && t[q + 1] == t[q + 1..r][0] && t[r] == t[r..s][0] && t[s] == t[s..s + |pw|][0];
    assert |e| == 2 ==> t[r + 1] == t[r..s][1];
    assert sign == "-" ==> t[i] == t[i..p][0];
    RunStands(t, p, w);
    RunStands(t, q + 1, ds);
    RunStands(t, s, pw);
  }

  /**
   A sign, a natural number a, a point with d digits of value b, and an exponent of
   absolute value k, where no digit follows: the number is (a + b / 10^d) times, or
   divided by, 10^k, and ends there.
   */
  lemma {:induction false} ScanScientific(t: string, i: nat, sign: string, a: nat, ds: string, e: string, k: nat)
    requires sign in ["", "-"] && e in ["e", "E", "e+", "E+", "e-", "E-"]
    requires ds != "" && forall m | 0 <= m < |ds| :: IsDigit(ds[m])
    requires Occurs(t, i, sign + Digits(a) + "." + ds + e + Digits(k))
    requires !IsDigit(CharAt(t, i + |sign| + |Digits(a)| + 1 + |ds| + |e| + |Digits(k)|))
    ensures i <= |t| && ScanNumber(t, i).next == i + |sign| + |Digits(a)| + 1 + |ds| + |e| + |Digits(k)|
    ensures var x, n := ScanNumber(t, i).value, a * PowNat(|ds|) + NatOf(ds);
            var signed := if sign == "-" then -(n as real) else n as real;
            if e in ["e-", "E-"] then x * PowNat(|ds| + k) as real == signed
            else x * PowNat(|ds|) as real == signed * PowNat(k) as real
  {
    hide Digits, NatOf, PowNat, ScanNumber, Whole, Fraction, Power, PartsOf, Stands;
    var p := i + |sign|;
    var q := p + |Digits(a)|;
    var r := q + 1 + |ds|;
    var j := r + |e| + |Digits(k)|;
    OccursStands(t, i, sign, Digits(a), ds, e, Digits(k));
    NoLeadingZero(a);
    StandsReads(t, i, sign, Digits(a), ds, e, Digits(k));
    NatOfDigits(a);
    NatOfDigits(k);
    NatOfConcat(Digits(a), ds);
    var q', r' := ReadsNumeral(t, i);
    EndsUnique(t, p, q, r, j, q', r', ScanNumber(t, i).next);
  }

  lemma {:induction false} NoLeadingZero(a: nat)
    ensures AllDigits(Digits(a)) && (Digits(a)[0] == '0' ==> |Digits(a)| == 1)
  {
  }

  /** An exponent without a point. */
  lemma {:induction false} HundredScans()
    ensures ScanNumber("1e2", 0) == Number(100.0, 3)
  {
    var t := "1e2";
    assert t[0..1] == "1" && t[2..3] == "2" && "1" + "" == "1" && "1"[..0] == "" && "2"[..0] == "";
    assert DigitRun(t, 0, 1) && DigitRun(t, 2, 3) && NatOf("1") == 1 && NatOf("2") == 2;
    assert PowNat(2) == 10 * PowNat(1) && PowNat(1) == 10 * PowNat(0);
    assert PartsOf(t, 0, 1, 1, 3) == Parts(1, 0, 2, false);
    NumeralReads(t, 0, 1, 1, 3, 100.0);
  }

  /** The conversion to int drops the fraction, for both signs. */
  lemma {:induction false} TruncateDropsFraction(x: real)
    ensures if x >= 0.0 then Truncate(x) >= 0 && Truncate(x) as real <= x < Truncate(x) as real + 1.0
            else Truncate(x) <= 0 && Truncate(x) as real - 1.0 < x <= Truncate(x) as real
  {
    assert x < 0.0 ==> (-x).Floor as real <= -x < (-x).Floor as real + 1.0;
  }
}
