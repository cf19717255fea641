/** Numbers as texts: printing with %d and %.0f, and parse_number. */
module Numbers {
  import opened CText

  function DigitChar(d: nat): (c: char)
    requires d < 10
    ensures IsDigit(c) && DigitValue(c) == d
  {
    '0' + d as char
  }

  function DigitValue(c: char): (d: nat)
    requires IsDigit(c)
  {
    c as nat - '0' as nat
  }

  function Digits(n: nat): (s: string)
    ensures |s| > 0 && forall i | 0 <= i < |s| :: IsDigit(s[i])
    ensures n > 0 ==> s[0] != '0'
  {
    if n < 10 then [DigitChar(n)] else Digits(n / 10) + [DigitChar(n % 10)]
  }

  /** The text %d gives an integer, and %.0f an integral double. */
  function Decimal(n: int): (s: string) {
    if n < 0 then "-" + Digits(-n) else Digits(n)
  }

  function Pow10(k: int): (p: real)
    ensures p > 0.0
    decreases if k < 0 then -k else k
  {
    if k == 0 then 1.0 else if k > 0 then 10.0 * Pow10(k - 1) else Pow10(k + 1) / 10.0
  }

  /** The C conversion from double to int. */
  function Truncate(x: real): (n: int) {
    if x >= 0.0 then x.Floor else -((-x).Floor)
  }

  datatype Scanned = Scanned(n: nat, next: nat)

  /** The digits from position i, accumulated onto n. */
  function ReadDigits(t: string, i: nat, n: nat): (r: Scanned)
    requires i <= |t|
    ensures i <= r.next <= |t| && !IsDigit(CharAt(t, r.next))
    decreases |t| - i
  {
    if IsDigit(CharAt(t, i)) then ReadDigits(t, i + 1, 10 * n + DigitValue(CharAt(t, i))) else Scanned(n, i)
  }

  datatype Number = Number(value: real, next: nat)

  /** The value of the sign, digits and exponent that parse_number has collected. */
  function Assemble(negative: bool, n: nat, scale: int, subscale: int): (x: real) {
    (if negative then -1.0 else 1.0) * n as real * Pow10(scale + subscale)
  }

  datatype Mantissa = Mantissa(n: nat, scale: int, next: nat)

  function ScanWhole(t: string, i: nat): (r: Scanned)
    requires i <= |t|
    ensures i <= r.next <= |t|
  {
    var a := if CharAt(t, i) == '0' then i + 1 else i;
    if '1' <= CharAt(t, a) <= '9' then ReadDigits(t, a, 0) else Scanned(0, a)
  }

  function ScanFraction(t: string, i: nat, n: nat): (r: Mantissa)
    requires i <= |t|
    ensures i <= r.next <= |t|
  {
    if CharAt(t, i) == '.' && IsDigit(CharAt(t, i + 1)) then
      var f := ReadDigits(t, i + 1, n);
      Mantissa(f.n, i + 1 - f.next, f.next)
    else Mantissa(n, 0, i)
  }

  datatype Exponent = Exponent(subscale: int, next: nat)

  function ScanExponent(t: string, i: nat): (r: Exponent)
    requires i <= |t|
    ensures i <= r.next <= |t|
  {
    if CharAt(t, i) != 'e' && CharAt(t, i) != 'E' then Exponent(0, i)
    else if CharAt(t, i + 1) == '-' then
      var e := ReadDigits(t, i + 2, 0);
      Exponent(-1 * e.n, e.next)
    else
      var e := ReadDigits(t, if CharAt(t, i + 1) == '+' then i + 2 else i + 1, 0);
      Exponent(e.n, e.next)
  }

  /** parse_number as a function of the text; doubles are taken as exact. */
  function ScanNumber(t: string, i: nat): (r: Number)
    requires i <= |t|
    ensures i <= r.next <= |t|
  {
    var negative := CharAt(t, i) == '-';
    var whole := ScanWhole(t, if negative then i + 1 else i);
    var m := ScanFraction(t, whole.next, whole.n);
    var e := ScanExponent(t, m.next);
    Number(Assemble(negative, m.n, m.scale, e.subscale), e.next)
  }

  /** The loop that reads a run of digits. */
  method CollectDigits(t: string, start: nat, n0: nat) returns (n: nat, num: nat)
    requires start <= |t|
    ensures ReadDigits(t, start, n0) == Scanned(n, num)
  {
    n, num := n0, start;
    while IsDigit(CharAt(t, num))
      invariant num <= |t| && ReadDigits(t, num, n) == ReadDigits(t, start, n0)
      decreases |t| - num
    {
      n := n * 10 + DigitValue(CharAt(t, num));
      num := num + 1;
    }
  }

  /** The digits before and after the point. */
  method CollectMantissa(t: string, start: nat) returns (n: nat, scale: int, num: nat)
    requires start <= |t|
    ensures var whole := ScanWhole(t, start); ScanFraction(t, whole.next, whole.n) == Mantissa(n, scale, num)
  {
    n, scale, num := 0, 0, start;
    if CharAt(t, num) == '0' { num := num + 1; }
    if '1' <= CharAt(t, num) <= '9' {
      n, num := CollectDigits(t, num, n);
    }
    assert ScanWhole(t, start) == Scanned(n, num);
    hide ReadDigits;
    if CharAt(t, num) == '.' && IsDigit(CharAt(t, num + 1)) {
      num := num + 1;
      var point := num;
      n, num := CollectDigits(t, num, n);
      scale := point - num;
    }
  }

  method CollectExponent(t: string, start: nat) returns (subscale: nat, signsubscale: int, num: nat)
    requires start <= |t|
    ensures ScanExponent(t, start) == Exponent(signsubscale * subscale, num)
  {
    hide ReadDigits;
    subscale, signsubscale, num := 0, 1, start;
    if CharAt(t, num) == 'e' || CharAt(t, num) == 'E' {
      num := num + 1;
      if CharAt(t, num) == '+' { num := num + 1; }
      else if CharAt(t, num) == '-' { signsubscale, num := -1, num + 1; }
      subscale, num := CollectDigits(t, num, 0);
    }
  }

  /** parse_number */
  method ParseNumber(t: string, start: nat) returns (valueint: int, valuedouble: real, num: nat)
    requires start <= |t|
    ensures Number(valuedouble, num) == ScanNumber(t, start)
    ensures valueint == Truncate(valuedouble)
  {
    var negative := CharAt(t, start) == '-';
    var n, scale, subscale, signsubscale;
    n, scale, num := CollectMantissa(t, if negative then start + 1 else start);
    subscale, signsubscale, num := CollectExponent(t, num);
    valuedouble := Assemble(negative, n, scale, signsubscale * subscale);
    valueint := Truncate(valuedouble);
  }

  /** What must not follow a number for parse_number to stop after it. */
  predicate Continues(c: char) {
    IsDigit(c) || c == '.' || c == 'e' || c == 'E'
  }

  function PowNat(k: nat): (p: nat) {
    if k == 0 then 1 else 10 * PowNat(k - 1)
  }

  lemma {:induction false} ReadDigitsOf(t: string, i: nat, m: nat, n: nat)
    requires Occurs(t, i, Digits(m))
    ensures ReadDigits(t, i, n) == ReadDigits(t, i + |Digits(m)|, n * PowNat(|Digits(m)|) + m)
  {
    hide Digits, PowNat, Occurs, DigitChar;
    DigitsParts(m);
    if m < 10 {
      OccursChar(t, i, Digits(m), 0);
    } else {
      var d, k := Digits(m / 10), |Digits(m / 10)|;
      OccursConcat(t, i, d, [DigitChar(m % 10)]);
      ReadDigitsOf(t, i, m / 10, n);
      OccursChar(t, i + k, [DigitChar(m % 10)], 0);
      OneMore(n, k, m);
    }
  }

  lemma {:induction false} DigitsParts(m: nat)
    ensures Digits(m) == if m < 10 then [DigitChar(m)] else Digits(m / 10) + [DigitChar(m % 10)]
    ensures PowNat(1) == 10
  {
  }

  lemma {:induction false} OneMore(n: nat, k: nat, m: nat)
    ensures 10 * (n * PowNat(k) + m / 10) + m % 10 == n * PowNat(k + 1) + m
  {
    assert n * PowNat(k + 1) == 10 * (n * PowNat(k));
  }

  /** parse_number undoes %d, provided that the text does not go on as a number. */
  lemma {:induction false} ScanDecimal(t: string, i: nat, n: int)
    requires Occurs(t, i, Decimal(n)) && !Continues(CharAt(t, i + |Decimal(n)|))
    ensures ScanNumber(t, i) == Number(n as real, i + |Decimal(n)|)
  {
    var s, m := Decimal(n), if n < 0 then -n else n;
    if n < 0 {
      OccursConcat(t, i, "-", Digits(m));
    }
    OccursChar(t, i, s, 0);
    var a := if n < 0 then i + 1 else i;
    ScanWholeOf(t, a, m);
    hide ScanWhole;
  }

  lemma {:induction false} ScanWholeOf(t: string, i: nat, m: nat)
    requires Occurs(t, i, Digits(m)) && !Continues(CharAt(t, i + |Digits(m)|))
    ensures ScanWhole(t, i) == Scanned(m, i + |Digits(m)|)
  {
    OccursChar(t, i, Digits(m), 0);
    if m > 0 {
      ReadDigitsOf(t, i, m, 0);
    }
  }
}
