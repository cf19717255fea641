/** Reading JSON string literals: parse_hex4 and parse_string. */
module Strings {
  import opened Bits
  import opened CText
  import opened Utf8

  /** The outcome of parsing from a position: Overrun is a read past the terminator, which C leaves undefined. */
  datatype Parsed<T> = Ok(value: T, next: nat) | Fail(at: nat) | Overrun

  predicate IsHex(c: char) {
    IsDigit(c) || 'A' <= c <= 'F' || 'a' <= c <= 'f'
  }

  function HexValue(c: char): (d: nat)
    requires IsHex(c)
    ensures d < 16
  {
    if IsDigit(c) then c as nat - '0' as nat
    else if 'A' <= c <= 'F' then 10 + c as nat - 'A' as nat
    else 10 + c as nat - 'a' as nat
  }

  predicate Hex4(t: string, i: nat) {
    && IsHex(CharAt(t, i)) && IsHex(CharAt(t, i + 1)) && IsHex(CharAt(t, i + 2)) && IsHex(CharAt(t, i + 3))
  }

  function Hex4Value(t: string, i: nat): (h: nat)
    requires Hex4(t, i)
    ensures h < 0x10000
  {
    HexValue(CharAt(t, i)) * 4096 + HexValue(CharAt(t, i + 1)) * 256
    + HexValue(CharAt(t, i + 2)) * 16 + HexValue(CharAt(t, i + 3))
  }

  /** parse_hex4 */
  function ParseHex4(t: string, i: nat): (h: nat)
    ensures h == if Hex4(t, i) then Hex4Value(t, i) else 0
  {
    if !IsHex(CharAt(t, i)) then 0 else
    var h := HexValue(CharAt(t, i)) * 16;
    if !IsHex(CharAt(t, i + 1)) then 0 else
    var h := (h + HexValue(CharAt(t, i + 1))) * 16;
    if !IsHex(CharAt(t, i + 2)) then 0 else
    var h := (h + HexValue(CharAt(t, i + 2))) * 16;
    if !IsHex(CharAt(t, i + 3)) then 0 else h + HexValue(CharAt(t, i + 3))
  }

  datatype Size = At(end: nat, len: nat) | Unbounded

  /** The sizing scan of parse_string: where the literal ends, and how many steps that takes. */
  function Sizing(t: string, p: nat): (r: Size)
    requires p <= |t|
    ensures r.At? ==> p <= r.end <= |t| && (CharAt(t, r.end) == '\"' || CharAt(t, r.end) == '\0')
    decreases |t| - p
  {
    if CharAt(t, p) == '\"' || CharAt(t, p) == '\0' then At(p, 0)
    else if CharAt(t, p) == '\\' && p + 2 > |t| then Unbounded
    else
      var r := Sizing(t, if t[p] == '\\' then p + 2 else p + 1);
      if r.At? then At(r.end, r.len + 1) else Unbounded
  }

  datatype Decoded = Bytes(s: string, next: nat) | Invalid

  /** The case 'u' of the decoding loop; u is the position of the letter. */
  function DecodeUnicode(t: string, u: nat, end: nat): (r: Decoded)
    ensures r.Bytes? ==> u + 4 < r.next
  {
    var uc, p := ParseHex4(t, u + 1), u + 4;
    if p >= end then Invalid
    else if LowSurrogate(uc) || uc == 0 then Invalid
    else if !HighSurrogate(uc) then Bytes(Transcode(uc), p + 1)
    else if p + 6 > end || CharAt(t, p + 1) != '\\' || CharAt(t, p + 2) != 'u' then Invalid
    else
      var uc2 := ParseHex4(t, p + 3);
      if !LowSurrogate(uc2) then Invalid else Bytes(Transcode(Combine(uc, uc2)), p + 7)
  }

  /** One step of the decoding loop. */
  function DecodeOne(t: string, p: nat, end: nat): (r: Decoded)
    requires p < end <= |t|
    ensures r.Bytes? ==> p < r.next
  {
    if t[p] != '\\' then Bytes([t[p]], p + 1)
    else
      match CharAt(t, p + 1)
      case 'b' => Bytes([BACKSPACE], p + 2)
      case 'f' => Bytes([FORM_FEED], p + 2)
      case 'n' => Bytes("\n", p + 2)
      case 'r' => Bytes("\r", p + 2)
      case 't' => Bytes("\t", p + 2)
      case 'u' => DecodeUnicode(t, p + 1, end)
      case c => Bytes([c], p + 2)
  }

  /** rest, after the bytes s. */
  function Onto(s: string, rest: Decoded): (r: Decoded) {
    if rest.Invalid? then Invalid else Bytes(s + rest.s, rest.next)
  }

  lemma {:induction false} OntoEnd(s: string, p: nat)
    ensures Onto(s, Bytes("", p)) == Bytes(s, p)
  {
    assert s + "" == s;
  }

  lemma {:induction false} OntoOnto(s: string, b: string, rest: Decoded)
    ensures Onto(s, Onto(b, rest)) == Onto(s + b, rest)
  {
    if rest.Bytes? {
      assert s + (b + rest.s) == (s + b) + rest.s;
    }
  }

  /** The decoding loop from position p. */
  function Decode(t: string, p: nat, end: nat): (r: Decoded)
    requires end <= |t|
    decreases end - p
  {
    if p >= end then Bytes("", p)
    else
      var first := DecodeOne(t, p, end);
      if first.Invalid? then Invalid
      else
        Onto(first.s, Decode(t, first.next, end))
  }

  /** parse_string as a function of the text. */
  function StringAt(t: string, str: nat): (r: Parsed<string>)
    requires str <= |t|
    ensures r.Ok? ==> str < r.next <= |t|
  {
    if CharAt(t, str) != '\"' then Fail(str)
    else
      var size := Sizing(t, str + 1);
      if size.Unbounded? then Overrun
      else
        var out := Decode(t, str + 1, size.end);
        if out.Invalid? then Fail(str)
        else
          DecodeStaysAligned(t, str + 1, size.end);
          Ok(out.s, if CharAt(t, out.next) == '\"' then out.next + 1 else out.next)
  }

  /** A window without quotes and backslashes is passed one character at a time. */
  lemma {:induction false} SizingSkips(t: string, p: nat, k: nat)
    requires p + k <= |t|
    requires forall i | p <= i < p + k :: t[i] != '\"' && t[i] != '\\' && t[i] != '\0'
    ensures Sizing(t, p).At? <==> Sizing(t, p + k).At?
    ensures Sizing(t, p).At? ==> Sizing(t, p) == At(Sizing(t, p + k).end, Sizing(t, p + k).len + k)
    decreases k
  {
    if k > 0 {
      SizingSkips(t, p + 1, k - 1);
    }
  }

  lemma {:induction false} SizingHex(t: string, u: nat)
    requires Hex4(t, u + 1)
    ensures u + 5 <= |t|
    ensures Sizing(t, u + 1).At? <==> Sizing(t, u + 5).At?
    ensures Sizing(t, u + 1).At? ==> Sizing(t, u + 1) == At(Sizing(t, u + 5).end, Sizing(t, u + 5).len + 4)
  {
    SizingSkips(t, u + 1, 4);
  }

  /**
   The decoding cursor stays aligned with the sizing scan: from an aligned
   position, a decoding step ends at an aligned position, and it stores at most
   as many bytes as the scan counted on the way.
   */
  lemma {:induction false} StepStaysAligned(t: string, p: nat, end: nat)
    requires p < end <= |t| && Sizing(t, p).At? && Sizing(t, p).end == end
    ensures var r := DecodeOne(t, p, end);
            r.Bytes? ==>
              && r.next <= end
              && Sizing(t, r.next).At? && Sizing(t, r.next).end == end
              && |r.s| + Sizing(t, r.next).len <= Sizing(t, p).len
  {
    hide ParseHex4, Transcode, Combine, Hex4Value;
    if t[p] == '\\' && CharAt(t, p + 1) == 'u' && DecodeUnicode(t, p + 1, end).Bytes? {
      var u := p + 1;
      assert Sizing(t, p) == At(end, Sizing(t, u + 1).len + 1);
      SizingHex(t, u);
      if HighSurrogate(ParseHex4(t, u + 1)) {
        assert Hex4(t, u + 7);
        assert Sizing(t, u + 5).len == Sizing(t, u + 7).len + 1;
        SizingHex(t, u + 6);
      }
    }
  }

  lemma {:induction false} DecodeStaysAligned(t: string, p: nat, end: nat)
    requires p <= end <= |t| && Sizing(t, p).At? && Sizing(t, p).end == end
    ensures Decode(t, p, end).Bytes? ==>
              Decode(t, p, end).next == end && |Decode(t, p, end).s| <= Sizing(t, p).len
    decreases end - p
  {
    if p < end {
      StepStaysAligned(t, p, end);
      var first := DecodeOne(t, p, end);
      if first.Bytes? {
        DecodeStaysAligned(t, first.next, end);
      }
    }
  }

  /**
   An accepted literal ends just past its closing quote if the sizing scan found
   one, and otherwise at the terminator.
   */
  lemma {:induction false} ClosedIffQuoted(t: string, str: nat)
    requires CString(t) && str <= |t| && StringAt(t, str).Ok?
    ensures Sizing(t, str + 1).At?
    ensures var end, next := Sizing(t, str + 1).end, StringAt(t, str).next;
            if CharAt(t, end) == '\"' then next == end + 1 else next == end == |t|
  {
    DecodeStaysAligned(t, str + 1, Sizing(t, str + 1).end);
  }

  /** A literal without its closing quote is accepted. */
  lemma {:induction false} UnclosedAccepted()
    ensures StringAt("\"a", 0) == Ok("a", 2)
  {
    var t := "\"a";
    assert Sizing(t, 2) == At(2, 0) && Sizing(t, 1) == At(2, 1);
    assert Decode(t, 2, 2) == Bytes("", 2) && DecodeOne(t, 1, 2) == Bytes("a", 2);
    assert "a" + "" == "a";
  }

  datatype Denoted = CodePoint(cp: nat, next: nat) | NoScalar

  /** The scalar value that the escape with its letter u at position u stands for (section 7 of RFC 8259). */
  function UnicodeAt(t: string, u: nat): (r: Denoted) {
    if !Hex4(t, u + 1) then NoScalar
    else
      var h := Hex4Value(t, u + 1);
      if Scalar(h) then CodePoint(h, u + 5)
      else if HighSurrogate(h) && CharAt(t, u + 5) == '\\' && CharAt(t, u + 6) == 'u' && Hex4(t, u + 7)
           && LowSurrogate(Hex4Value(t, u + 7)) then
        CodePoint(0x10000 + (h - 0xD800) * 0x400 + (Hex4Value(t, u + 7) - 0xDC00), u + 11)
      else NoScalar
  }

  /**
   An escape inside a literal is decoded to the UTF-8 octets of the scalar value
   it stands for; it is rejected exactly when it stands for none, as lone and
   reversed surrogates do, or for U+0000.
   */
  lemma {:induction false} UnicodeIsUtf8(t: string, p: nat, end: nat)
    requires p < end <= |t| && t[p] == '\\' && CharAt(t, p + 1) == 'u'
    requires Sizing(t, p).At? && Sizing(t, p).end == end
    ensures var d := UnicodeAt(t, p + 1);
            if d.NoScalar? || d.cp == 0 then DecodeOne(t, p, end) == Invalid
            else Scalar(d.cp) && DecodeOne(t, p, end) == Bytes(Octets(d.cp), d.next)
  {
    var u := p + 1;
    hide Transcode, Combine, Octets, ParseHex4, Hex4Value, HexValue;
    assert Sizing(t, p) == At(end, Sizing(t, u + 1).len + 1);
    if Hex4(t, u + 1) {
      var h := Hex4Value(t, u + 1);
      SizingHex(t, u);
      if Scalar(h) {
        TranscodeIsUtf8(h);
      } else if HighSurrogate(h) && CharAt(t, u + 5) == '\\' && CharAt(t, u + 6) == 'u' && Hex4(t, u + 7) {
        SizingHex(t, u + 6);
        if LowSurrogate(Hex4Value(t, u + 7)) {
          CombineIsUtf16(h, Hex4Value(t, u + 7));
          TranscodeIsUtf8(Combine(h, Hex4Value(t, u + 7)));
        }
      }
    }
  }

  /** The switch that stores a transcoded character, last byte first. */
  method StoreUtf8(out: array<char>, at: nat, uc0: nat) returns (ptr2: nat)
    requires at + Length(uc0) <= out.Length
    modifies out
    ensures ptr2 == at + Length(uc0)
    ensures out[..ptr2] == old(out[..at]) + Transcode(uc0)
  {
    hide And, Or, Shr;
    var len := Length(uc0);
    var uc, k := uc0, len;
    ghost var tail := "";
    while k > 1
      invariant 1 <= k <= len && |tail| == len - k
      invariant Transcode(uc0) == Stored(uc, k, len) + tail
      invariant out[..at] == old(out[..at]) && out[at + k..at + len] == tail
    {
      k := k - 1;
      out[at + k] := Byte(And(Or(uc, 0x80), 0xBF));
      tail := [out[at + k]] + tail;
      uc := Shr(uc, 6);
    }
    out[at] := Byte(Or(uc, FIRST_BYTE_MARK[len]));
    ptr2 := at + len;
    assert out[..ptr2] == out[..at] + [out[at]] + out[at + 1..ptr2];
  }

  /** The case 'u' of the decoding loop; u is the position of the letter. */
  method DecodeUtf16(t: string, u: nat, end: nat, out: array<char>, ptr2: nat) returns (ok: bool, next: nat, next2: nat)
    requires DecodeUnicode(t, u, end).Bytes? ==> ptr2 + |DecodeUnicode(t, u, end).s| < out.Length
    modifies out
    ensures ok == DecodeUnicode(t, u, end).Bytes?
    ensures ok ==> DecodeUnicode(t, u, end).next == next && next2 < out.Length
                   && out[..next2] == old(out[..ptr2]) + DecodeUnicode(t, u, end).s
  {
    hide ParseHex4, Combine;
    var uc := ParseHex4(t, u + 1);
    ok, next, next2 := false, u + 4, ptr2;
    if next >= end { return; }
    if LowSurrogate(uc) || uc == 0 { return; }
    if HighSurrogate(uc) {
      if next + 6 > end { return; }
      if CharAt(t, next + 1) != '\\' || CharAt(t, next + 2) != 'u' { return; }
      var uc2 := ParseHex4(t, next + 3);
      next := next + 6;
      if !LowSurrogate(uc2) { return; }
      uc := Combine(uc, uc2);
    }
    next2 := StoreUtf8(out, ptr2, uc);
    ok, next := true, next + 1;
  }

  /** The body of the decoding loop: what it stores, and where both cursors go. */
  method DecodeInto(t: string, ptr: nat, end: nat, out: array<char>, ptr2: nat)
    returns (ok: bool, next: nat, next2: nat)
    requires ptr < end <= |t| && Sizing(t, ptr).At? && Sizing(t, ptr).end == end
    requires ptr2 + Sizing(t, ptr).len < out.Length
    modifies out
    ensures ok == DecodeOne(t, ptr, end).Bytes?
    ensures ok ==> DecodeOne(t, ptr, end).next == next && next2 < out.Length
                   && out[..next2] == old(out[..ptr2]) + DecodeOne(t, ptr, end).s
  {
    StepStaysAligned(t, ptr, end);
    ok, next, next2 := true, ptr, ptr2;
    if t[ptr] != '\\' {
      out[ptr2] := t[ptr];
      return true, ptr + 1, ptr2 + 1;
    }
    next := ptr + 1;
    match CharAt(t, next) {
    case 'b' => out[ptr2] := BACKSPACE; next2 := ptr2 + 1;
    case 'f' => out[ptr2] := FORM_FEED; next2 := ptr2 + 1;
    case 'n' => out[ptr2] := '\n'; next2 := ptr2 + 1;
    case 'r' => out[ptr2] := '\r'; next2 := ptr2 + 1;
    case 't' => out[ptr2] := '\t'; next2 := ptr2 + 1;
    case 'u' =>
      ok, next, next2 := DecodeUtf16(t, next, end, out, ptr2);
      return;
    case c => out[ptr2] := c; next2 := ptr2 + 1;
    }
    next := next + 1;
  }

  /** The sizing loop. */
  method FindEnd(t: string, start: nat) returns (r: Size)
    requires start <= |t|
    ensures r == Sizing(t, start)
  {
    var end_ptr, len := start, 0;
    while CharAt(t, end_ptr) != '\"' && CharAt(t, end_ptr) != '\0'
      invariant start <= end_ptr <= |t|
      invariant Sizing(t, start) == (var rest := Sizing(t, end_ptr); if rest.At? then At(rest.end,
                  len + rest.len) else Unbounded)
      decreases |t| - end_ptr
    {
      len := len + 1;
      if t[end_ptr] == '\\' {
        if end_ptr + 2 > |t| { return Unbounded; }
        end_ptr := end_ptr + 1;
      }
      end_ptr := end_ptr + 1;
    }
    r := At(end_ptr, len);
  }

  /** parse_string */
  method ParseString(t: string, str: nat) returns (r: Parsed<string>)
    requires str <= |t|
    ensures r == StringAt(t, str)
  {
    if CharAt(t, str) != '\"' { return Fail(str); }
    var size := FindEnd(t, str + 1);
    if size.Unbounded? { return Overrun; }
    var end_ptr := size.end;
    var out := new char[size.len + 1];
    var ptr: nat, ptr2: nat := str + 1, 0;
    DecodeStaysAligned(t, ptr, end_ptr);
    assert Onto(out[..0], Decode(t, ptr, end_ptr)) == Decode(t, ptr, end_ptr);
    hide DecodeOne, Onto, Sizing;
    while ptr < end_ptr
      invariant ptr <= end_ptr && Sizing(t, ptr).At? && Sizing(t, ptr).end == end_ptr
      invariant ptr2 + Sizing(t, ptr).len < out.Length
      invariant Decode(t, str + 1, end_ptr) == Onto(out[..ptr2], Decode(t, ptr, end_ptr))
    {
      StepStaysAligned(t, ptr, end_ptr);
      ghost var before := out[..ptr2];
      var ok, next, next2 := DecodeInto(t, ptr, end_ptr, out, ptr2);
      if !ok {
        return Fail(str);
      }
      OntoOnto(before, DecodeOne(t, ptr, end_ptr).s, Decode(t, next, end_ptr));
      ptr, ptr2 := next, next2;
    }
    out[ptr2] := '\0';
    OntoEnd(out[..ptr2], ptr);
    if CharAt(t, ptr) == '\"' { ptr := ptr + 1; }
    r := Ok(out[..ptr2], ptr);
  }
}
