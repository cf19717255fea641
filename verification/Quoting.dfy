/** print_string_ptr, and that parse_string undoes it. */
module Quoting {
  import opened CText
  import opened Strings

  /** Characters with an escape of their own. */
  const SHORT_ESCAPES: string := ['\"', '\\', BACKSPACE, FORM_FEED, '\n', '\r', '\t']

  function HexChar(d: nat): (c: char)
    requires d < 16
    ensures IsHex(c) && HexValue(c) == d
  {
    if d < 10 then '0' + d as char else 'a' + (d - 10) as char
  }

  /** How one byte appears in a string literal. */
  function Escape(c: char): (s: string)
    requires c as int <= 255
    ensures 1 <= |s| <= 6
  {
    if c as int > 31 && c != '\"' && c != '\\' then [c]
    else if c == '\\' then "\\\\"
    else if c == '\"' then "\\\""
    else if c == BACKSPACE then "\\b"
    else if c == FORM_FEED then "\\f"
    else if c == '\n' then "\\n"
    else if c == '\r' then "\\r"
    else if c == '\t' then "\\t"
    else "\\u00" + [HexChar(c as nat / 16), HexChar(c as nat % 16)]
  }

  function Escaped(s: string): (e: string)
    requires CString(s)
    ensures |e| >= |s|
  {
    if s == "" then "" else Escape(s[0]) + Escaped(s[1..])
  }

  /** The string literal for s. */
  function Quote(s: string): (q: string)
    requires CString(s)
  {
    "\"" + Escaped(s) + "\""
  }

  lemma {:induction false} EscapedByte(t: string, p: nat, c: char, end: nat)
    requires 1 <= c as int <= 255 && Occurs(t, p, Escape(c)) && p + |Escape(c)| <= end <= |t|
    requires Sizing(t, p + |Escape(c)|).At? && Sizing(t, p + |Escape(c)|).end == end
    ensures Sizing(t, p).At? && Sizing(t, p).end == end
    ensures DecodeOne(t, p, end) == Bytes([c], p + |Escape(c)|)
  {
    var e := Escape(c);
    OccursChar(t, p, e, 0);
    if |e| >= 2 {
      OccursChar(t, p, e, 1);
    }
    if |e| == 6 {
      UnicodeByte(t, p, c, end);
    }
  }

  /** The four digits of a \u escape for a control character. */
  lemma {:induction false} HexDigits(t: string, p: nat, c: char)
    requires c as int <= 255 && Occurs(t, p, Escape(c)) && |Escape(c)| == 6
    ensures CharAt(t, p) == '\\' && CharAt(t, p + 1) == 'u' && Hex4(t, p + 2) && Hex4Value(t, p + 2) == c as nat < 0x80
  {
    var e := Escape(c);
    OccursChar(t, p, e, 0);
    OccursChar(t, p, e, 1);
    OccursChar(t, p, e, 2);
    OccursChar(t, p, e, 3);
    OccursChar(t, p, e, 4);
    OccursChar(t, p, e, 5);
  }

  lemma {:induction false} UnicodeByte(t: string, p: nat, c: char, end: nat)
    requires 1 <= c as int <= 255 && Occurs(t, p, Escape(c)) && |Escape(c)| == 6 && p + 6 <= end <= |t|
    requires Sizing(t, p + 6).At? && Sizing(t, p + 6).end == end
    ensures Sizing(t, p).At? && Sizing(t, p).end == end
    ensures DecodeOne(t, p, end) == Bytes([c], p + 6)
  {
    hide Escape, Hex4Value, Hex4, DecodeOne, Occurs;
    HexDigits(t, p, c);
    SizingHex(t, p + 1);
    UnicodeIsUtf8(t, p, end);
  }

  lemma {:induction false} EscapedReads(t: string, p: nat, s: string)
    requires CString(s) && Occurs(t, p, Escaped(s)) && CharAt(t, p + |Escaped(s)|) == '\"'
    ensures Sizing(t, p).At? && Sizing(t, p).end == p + |Escaped(s)|
    ensures Decode(t, p, p + |Escaped(s)|) == Bytes(s, p + |Escaped(s)|)
    decreases |s|
  {
    hide Escape, Escaped, Sizing, DecodeOne, Occurs;
    EscapedParts(s);
    if s == "" {
      SizingStops(t, p);
    } else {
      var e, rest := Escape(s[0]), Escaped(s[1..]);
      var end := p + |Escaped(s)|;
      OccursConcat(t, p, e, rest);
      EscapedReads(t, p + |e|, s[1..]);
      EscapedByte(t, p, s[0], end);
      assert [s[0]] + s[1..] == s;
    }
  }

  lemma {:induction false} EscapedParts(s: string)
    requires CString(s)
    ensures if s == "" then |Escaped(s)| == 0 else Escaped(s) == Escape(s[0]) + Escaped(s[1..])
  {
  }

  lemma {:induction false} SizingStops(t: string, p: nat)
    requires CharAt(t, p) == '\"'
    ensures Sizing(t, p) == At(p, 0)
  {
  }

  /** parse_string undoes print_string_ptr. */
  lemma {:induction false} ParseQuoted(t: string, i: nat, s: string)
    requires CString(s) && Occurs(t, i, Quote(s))
    ensures StringAt(t, i) == Ok(s, i + |Quote(s)|)
  {
    hide Escaped, Sizing, Occurs, Decode;
    var e := Escaped(s);
    OccursConcat(t, i, "\"" + e, "\"");
    OccursConcat(t, i, "\"", e);
    OccursChar(t, i, "\"", 0);
    OccursChar(t, i + 1 + |e|, "\"", 0);
    EscapedReads(t, i + 1, s);
  }

  lemma {:induction false} EscapedConcat(a: string, b: string)
    requires CString(a) && CString(b)
    ensures CString(a + b) && Escaped(a + b) == Escaped(a) + Escaped(b)
  {
    if a == "" {
      assert a + b == b;
    } else {
      EscapedConcat(a[1..], b);
      assert (a + b)[0] == a[0] && (a + b)[1..] == a[1..] + b;
    }
  }

  /** The prefix of length k + 1 escapes to one more escape. */
  lemma {:induction false} EscapedStep(s: string, k: nat)
    requires CString(s) && k < |s|
    ensures Escaped(s[..k + 1]) == Escaped(s[..k]) + Escape(s[k])
  {
    assert s[..k + 1] == s[..k] + [s[k]];
    EscapedConcat(s[..k], [s[k]]);
    assert Escaped([s[k]]) == Escape(s[k]) + Escaped([s[k]][1..]);
  }

  lemma {:induction false} EscapedPrefix(s: string, k: nat)
    requires CString(s) && k <= |s|
    ensures |Escaped(s[..k])| <= |Escaped(s)|
  {
    assert s == s[..k] + s[k..];
    EscapedConcat(s[..k], s[k..]);
  }

  lemma {:induction false} PlainEscapes(s: string)
    requires CString(s) && forall i | 0 <= i < |s| :: Escape(s[i]) == [s[i]]
    ensures Escaped(s) == s
  {
    if s != "" {
      PlainEscapes(s[1..]);
    }
  }

  /** The two counting loops of print_string_ptr. */
  method Measure(str: string) returns (plain: bool, len: nat)
    requires CString(str)
    ensures len == |Escaped(str)| && (plain ==> Escaped(str) == str)
  {
    var ptr := 0;
    plain := true;
    while CharAt(str, ptr) != '\0'
      invariant ptr <= |str|
      invariant plain ==> forall i | 0 <= i < ptr :: Escape(str[i]) == [str[i]]
      decreases |str| - ptr
    {
      var c := CharAt(str, ptr);
      if ('\0' < c && c as int < 32) || c == '\"' || c == '\\' {
        plain := false;
      }
      ptr := ptr + 1;
    }
    len := ptr;
    if plain {
      PlainEscapes(str);
      return;
    }
    ptr, len := 0, 0;
    while CharAt(str, ptr) != '\0'
      invariant ptr <= |str| && len == |Escaped(str[..ptr])|
      decreases |str| - ptr
    {
      EscapedStep(str, ptr);
      var token := CharAt(str, ptr);
      len := len + 1;
      if token in SHORT_ESCAPES {
        len := len + 1;
      } else if token as int < 32 {
        len := len + 5;
      }
      ptr := ptr + 1;
    }
    assert str[..ptr] == str;
  }

  /** One more character in a buffer. */
  method Put(out: array<char>, at: nat, c: char) returns (next: nat)
    requires at < out.Length
    modifies out
    ensures next == at + 1
    ensures out[..next] == old(out[..at]) + [c]
  {
    out[at] := c;
    next := at + 1;
  }

  /** A copied stretch of characters. */
  method PutAll(out: array<char>, at: nat, s: string) returns (next: nat)
    requires at + |s| <= out.Length
    modifies out
    ensures next == at + |s|
    ensures out[..next] == old(out[..at]) + s
  {
    next := at;
    for k := 0 to |s|
      invariant next == at + k
      invariant out[..next] == old(out[..at]) + s[..k]
    {
      next := Put(out, next, s[k]);
    }
  }

  /** strcpy, or sprintf of a text: the terminator is stored as well. */
  method PutString(out: array<char>, at: nat, s: string) returns (next: nat)
    requires at + |s| < out.Length
    modifies out
    ensures next == at + |s|
    ensures out[..next] == old(out[..at]) + s && out[next] == '\0'
  {
    next := PutAll(out, at, s);
    out[next] := '\0';
  }

  /** One turn of the writing loop. */
  method PutEscape(out: array<char>, at: nat, token: char) returns (next: nat)
    requires token as int <= 255 && at + |Escape(token)| < out.Length
    modifies out
    ensures next == at + |Escape(token)|
    ensures out[..next] == old(out[..at]) + Escape(token)
  {
    if token as int > 31 && token != '\"' && token != '\\' {
      next := Put(out, at, token);
    } else {
      next := Put(out, at, '\\');
      if token == '\\' { next := Put(out, next, '\\'); }
      else if token == '\"' { next := Put(out, next, '\"'); }
      else if token == BACKSPACE { next := Put(out, next, 'b'); }
      else if token == FORM_FEED { next := Put(out, next, 'f'); }
      else if token == '\n' { next := Put(out, next, 'n'); }
      else if token == '\r' { next := Put(out, next, 'r'); }
      else if token == '\t' { next := Put(out, next, 't'); }
      else { next := PutString(out, next, "u00" + [HexChar(token as nat / 16), HexChar(token as nat % 16)]); }
    }
  }

  lemma {:induction false} EscapedStart(s: string, start: string)
    ensures Escaped(s[..0]) == "" && start + Escaped(s[..0]) == start
  {
  }

  lemma {:induction false} EscapedOnto(s: string, k: nat, start: string)
    requires CString(s) && k < |s|
    ensures start + Escaped(s[..k]) + Escape(s[k]) == start + Escaped(s[..k + 1])
    ensures |Escaped(s[..k])| + |Escape(s[k])| == |Escaped(s[..k + 1])| <= |Escaped(s)|
  {
    hide Escaped, Escape;
    EscapedStep(s, k);
    EscapedPrefix(s, k + 1);
  }

  /** The writing loop. */
  method PutEscaped(out: array<char>, at: nat, str: string) returns (next: nat)
    requires CString(str) && at + |Escaped(str)| < out.Length
    modifies out
    ensures next == at + |Escaped(str)|
    ensures out[..next] == old(out[..at]) + Escaped(str)
  {
    var ptr := 0;
    next := at;
    hide Escaped, Escape;
    ghost var start := out[..at];
    EscapedStart(str, start);
    while CharAt(str, ptr) != '\0'
      invariant ptr <= |str| && |start| == at && next < out.Length
      invariant next == at + |Escaped(str[..ptr])|
      invariant out[..next] == start + Escaped(str[..ptr])
      decreases |str| - ptr
    {
      EscapedOnto(str, ptr, start);
      next := PutEscape(out, next, str[ptr]);
      ptr := ptr + 1;
    }
    assert str[..ptr] == str;
  }

  /** What a buffer of characters holds at a position: the text s with its terminator. */
  ghost predicate Holds(out: array<char>, at: nat, s: string)
    reads out
  {
    at + |s| < out.Length && out[at..at + |s|] == s && out[at + |s|] == '\0'
  }

  lemma {:induction false} HoldsAt(out: array<char>, at: nat, s: string, before: string)
    requires |before| == at && at + |s| < out.Length
    requires out[..at + |s|] == before + s && out[at + |s|] == '\0'
    ensures out[..at] == before && Holds(out, at, s)
  {
    var all := out[..at + |s|];
    assert out[..at] == all[..at] && out[at..at + |s|] == all[at..];
  }

  /** The writing half of print_string_ptr, into a buffer that has room for len + 3 characters. */
  method WriteQuoted(str: string, plain: bool, out: array<char>, at: nat)
    requires CString(str) && (plain ==> Escaped(str) == str)
    requires at + |Escaped(str)| + 3 <= out.Length
    modifies out
    ensures out[..at] == old(out[..at]) && Holds(out, at, Quote(str))
  {
    hide Escaped;
    var ptr2 := Put(out, at, '\"');
    if plain {
      ptr2 := PutString(out, ptr2, str);
    } else {
      ptr2 := PutEscaped(out, ptr2, str);
    }
    ptr2 := Put(out, ptr2, '\"');
    ghost var all := out[..ptr2];
    assert all == old(out[..at]) + Quote(str);
    ptr2 := Put(out, ptr2, '\0');
    assert out[..ptr2 - 1] == all;
    HoldsAt(out, at, Quote(str), old(out[..at]));
  }

  /** print_string_ptr, allocating: the size is exact. */
  method PrintString(str: string) returns (out: array<char>)
    requires CString(str)
    ensures fresh(out) && out.Length == |Quote(str)| + 1 && Holds(out, 0, Quote(str))
  {
    var plain, len := Measure(str);
    out := new char[len + 3];
    WriteQuoted(str, plain, out, 0);
  }

  /** Between the quotes stand no control character and no quote without a backslash (section 7 of RFC 8259). */
  lemma {:induction false} QuotedIsClean(s: string)
    requires CString(s)
    ensures forall k | 0 <= k < |Escaped(s)| :: Escaped(s)[k] as int >= 32
    ensures forall k | 0 <= k < |Escaped(s)| && Escaped(s)[k] == '\"' :: k > 0 && Escaped(s)[k - 1] == '\\'
  {
    if s != "" {
      QuotedIsClean(s[1..]);
      EscapedParts(s);
      EscapeIsClean(s[0]);
      var e, rest := Escape(s[0]), Escaped(s[1..]);
      assert Escaped(s) == e + rest;
    }
  }

  lemma {:induction false} EscapeIsClean(c: char)
    requires 1 <= c as int <= 255
    ensures forall k | 0 <= k < |Escape(c)| :: Escape(c)[k] as int >= 32
    ensures forall k | 0 <= k < |Escape(c)| && Escape(c)[k] == '\"' :: k > 0 && Escape(c)[k - 1] == '\\'
  {
  }
}
