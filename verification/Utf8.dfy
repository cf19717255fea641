/** The UTF-16 to UTF-8 transcoding inside parse_string. */
module Utf8 {
  import opened Bits

  lemma {:induction false} OrSplit(x: nat, a: nat, b: nat, y: nat, c: nat, d: nat, k: nat, p: nat)
    requires p == Pow2(k) && x == a * p + b && y == c * p + d && b < p && d < p
    ensures Or(x, y) == Or(a, c) * p + Or(b, d)
  {
    hide Or, Pow2;
    if k == 0 {
      PowZero();
      OrZero(0);
    } else {
      var q := Pow2(k - 1);
      PowStep(k);
      Halve(x, a, b, p, q);
      Halve(y, c, d, p, q);
      OrSplit(x / 2, a, b / 2, y / 2, c, d / 2, k - 1, q);
      OrStep(x, y);
      OrStep(b, d);
      Twice(Or(a, c), p, q);
    }
  }

  lemma {:induction false} AndSplit(x: nat, a: nat, b: nat, y: nat, c: nat, d: nat, k: nat, p: nat)
    requires p == Pow2(k) && x == a * p + b && y == c * p + d && b < p && d < p
    ensures And(x, y) == And(a, c) * p + And(b, d)
  {
    hide And, Pow2;
    if k == 0 {
      PowZero();
      AndZero(0);
    } else {
      var q := Pow2(k - 1);
      PowStep(k);
      Halve(x, a, b, p, q);
      Halve(y, c, d, p, q);
      AndSplit(x / 2, a, b / 2, y / 2, c, d / 2, k - 1, q);
      AndStep(x, y);
      AndStep(b, d);
      Twice(And(a, c), p, q);
    }
  }

  lemma {:induction false} PowZero()
    ensures Pow2(0) == 1
  {
  }

  lemma {:induction false} Twice(x: nat, p: nat, q: nat)
    requires p == 2 * q
    ensures x * p == 2 * (x * q)
  {
  }

  lemma {:induction false} Halve(x: nat, a: nat, b: nat, p: nat, q: nat)
    requires p == 2 * q && x == a * p + b
    ensures x / 2 == a * q + b / 2 && x % 2 == b % 2
  {
    assert a * p == 2 * (a * q);
  }

  /** The assignment of an unsigned to a char. */
  function Byte(x: nat): (c: char) {
    (x % 256) as char
  }

  /** firstByteMark */
  const FIRST_BYTE_MARK: seq<nat> := [0x00, 0x00, 0xC0, 0xE0, 0xF0, 0xF8, 0xFC]

  /** The fall-through switch that stores len bytes, last byte first. */
  function Stored(uc: nat, k: nat, len: nat): (s: string)
    requires 1 <= k <= len < |FIRST_BYTE_MARK|
    ensures |s| == k
  {
    if k == 1 then [Byte(Or(uc, FIRST_BYTE_MARK[len]))]
    else Stored(Shr(uc, 6), k - 1, len) + [Byte(And(Or(uc, 0x80), 0xBF))]
  }

  function Length(uc: nat): (len: nat)
    ensures 1 <= len <= 4
  {
    if uc < 0x80 then 1 else if uc < 0x800 then 2 else if uc < 0x10000 then 3 else 4
  }

  function Transcode(uc: nat): (s: string)
    ensures |s| == Length(uc)
  {
    Stored(uc, Length(uc), Length(uc))
  }

  /** The surrogate pair uc, uc2 as one code point. */
  function Combine(uc: nat, uc2: nat): (cp: nat) {
    0x10000 + Or(And(uc, 0x3FF) * 1024, And(uc2, 0x3FF))
  }

  predicate HighSurrogate(uc: nat) { 0xD800 <= uc <= 0xDBFF }
  predicate LowSurrogate(uc: nat) { 0xDC00 <= uc <= 0xDFFF }

  /** A code point that is not a surrogate. */
  predicate Scalar(cp: nat) {
    cp <= 0x10FFFF && !(0xD800 <= cp <= 0xDFFF)
  }

  /** The octets of section 3 of RFC 3629. */
  function Octets(cp: nat): (s: string)
    requires Scalar(cp)
  {
    if cp <= 0x7F then [cp as char]
    else if cp <= 0x7FF then [(0xC0 + cp / 64) as char, (0x80 + cp % 64) as char]
    else if cp <= 0xFFFF then [(0xE0 + cp / 4096) as char, (0x80 + cp / 64 % 64) as char, (0x80 + cp % 64) as char]
    else [(0xF0 + cp / 262144) as char, (0x80 + cp / 4096 % 64) as char,
          (0x80 + cp / 64 % 64) as char, (0x80 + cp % 64) as char]
  }

  lemma {:induction false} Powers()
    ensures Pow2(3) == 8 && Pow2(4) == 16 && Pow2(5) == 32 && Pow2(6) == 64 && Pow2(10) == 1024
  {
    assert Pow2(3) == 8;
    assert Pow2(6) == 64;
    assert Pow2(9) == 512;
  }

  /** A continuation byte carries six bits. */
  lemma {:induction false} Continuation(uc: nat)
    ensures And(Or(uc, 0x80), 0xBF) == 0x80 + uc % 64
  {
    hide Or, And, Pow2;
    var h, l := uc / 64, uc % 64;
    Powers();
    OrSplit(uc, h, l, 0x80, 2, 0, 6, 64);
    OrZero(l);
    AndSplit(Or(uc, 0x80), Or(h, 2), l, 0xBF, 2, 63, 6, 64);
    AndMask(l, 6);
    SecondBit(h);
  }

  lemma {:induction false} SecondBit(h: nat)
    ensures And(Or(h, 2), 2) == 2
  {
    OrStep(h, 2);
    OrStep(h / 2, 1);
    AndStep(Or(h, 2), 2);
    AndStep(Or(h / 2, 1), 1);
    assert And(Or(h / 2, 1) / 2, 0) == 0;
  }

  /** The first byte: the length mark above the remaining bits. */
  lemma {:induction false} FirstByte(uc: nat, len: nat)
    requires (len == 2 && uc < 32) || (len == 3 && uc < 16) || (len == 4 && uc < 8)
    ensures Or(uc, FIRST_BYTE_MARK[len]) == FIRST_BYTE_MARK[len] + uc < 256
  {
    Powers();
    OrZero(uc);
    OrZero(6);
    OrZero(14);
    OrZero(30);
    hide Or, Pow2;
    if len == 2 {
      OrSplit(uc, 0, uc, 0xC0, 6, 0, 5, 32);
    } else if len == 3 {
      OrSplit(uc, 0, uc, 0xE0, 14, 0, 4, 16);
    } else {
      OrSplit(uc, 0, uc, 0xF0, 30, 0, 3, 8);
    }
  }

  lemma {:induction false} ShrSix(uc: nat)
    ensures Shr(uc, 6) == uc / 64
  {
    Powers();
  }

  /** One step of the switch. */
  lemma {:induction false} StoredStep(uc: nat, k: nat, len: nat)
    requires 2 <= k <= len < |FIRST_BYTE_MARK|
    ensures Stored(uc, k, len) == Stored(uc / 64, k - 1, len) + [(0x80 + uc % 64) as char]
  {
    ShrSix(uc);
    Continuation(uc);
  }

  lemma {:induction false} StoredFirst(uc: nat, len: nat)
    requires (len == 2 && uc < 32) || (len == 3 && uc < 16) || (len == 4 && uc < 8)
    ensures Stored(uc, 1, len) == [(FIRST_BYTE_MARK[len] + uc) as char]
  {
    FirstByte(uc, len);
  }

  /** The bytes stored for a scalar value are its UTF-8 octets. */
  lemma {:induction false} TranscodeIsUtf8(cp: nat)
    requires Scalar(cp)
    ensures Transcode(cp) == Octets(cp)
  {
    var c1, c2, c3 := cp / 64, cp / 4096, cp / 262144;
    Quotients(cp);
    if cp < 0x80 {
      OrZero(cp);
    } else {
      hide Stored, Shr, Or, And;
      StoredStep(cp, Length(cp), Length(cp));
      if cp < 0x800 {
        StoredFirst(c1, 2);
      } else if cp < 0x10000 {
        StoredStep(c1, 2, 3);
        StoredFirst(c2, 3);
      } else {
        StoredStep(c1, 3, 4);
        StoredStep(c2, 2, 4);
        StoredFirst(c3, 4);
      }
    }
  }

  lemma {:induction false} Quotients(cp: nat)
    ensures cp / 64 / 64 == cp / 4096 && cp / 4096 / 64 == cp / 262144
  {
  }

  lemma {:induction false} OrZero(a: nat)
    ensures Or(a, 0) == Or(0, a) == a
  {
  }

  lemma {:induction false} LowTen(uc: nat, base: nat)
    requires base <= uc < base + 1024 && base % 1024 == 0
    ensures And(uc, 0x3FF) == uc - base
  {
    Powers();
    hide And, Pow2;
    AndMask(uc, 10);
  }

  /** A surrogate pair as in section 2.2 of RFC 2781. */
  lemma {:induction false} CombineIsUtf16(uc: nat, uc2: nat)
    requires HighSurrogate(uc) && LowSurrogate(uc2)
    ensures Combine(uc, uc2) == 0x10000 + (uc - 0xD800) * 0x400 + (uc2 - 0xDC00)
    ensures Scalar(Combine(uc, uc2)) && Combine(uc, uc2) >= 0x10000
  {
    Powers();
    OrZero(uc - 0xD800);
    OrZero(uc2 - 0xDC00);
    LowTen(uc, 0xD800);
    LowTen(uc2, 0xDC00);
    hide Or, And, Pow2;
    OrSplit((uc - 0xD800) * 1024, uc - 0xD800, 0, uc2 - 0xDC00, 0, uc2 - 0xDC00, 10, 1024);
  }
}
