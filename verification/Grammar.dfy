/** The grammar that the parser accepts, stated apart from it, and that it accepts nothing else. */
module Grammar {
  import opened CText
  import opened Numbers
  import opened Numerals
  import opened Utf8
  import opened Strings
  import opened Json
  import opened Parser

  /** Only characters up to the space stand between these positions. */
  predicate Blanks(t: string, a: nat, b: nat) {
    a <= b <= |t| && forall k | a <= k < b :: t[k] <= ' '
  }

  /**
   Between the quotes of a literal: characters as they are, the short escapes, and
   the \u escapes of scalar values other than U+0000 (sections 7 and 8.2 of RFC
   8259); a backslash before any other character stands for that character.
   */
  predicate Body(t: string, p: nat, e: nat, s: string)
    requires e <= |t|
    decreases e - p
  {
    if p >= e then p == e && s == ""
    else if t[p] != '\\' then t[p] != '\"' && s != "" && s[0] == t[p] && Body(t, p + 1, e, s[1..])
    else if CharAt(t, p + 1) == 'u' then
      var d := UnicodeAt(t, p + 1);
      && d.CodePoint? && d.cp != 0 && Scalar(d.cp) && Octets(d.cp) <= s && d.next > p
      && Body(t, d.next, e, s[|Octets(d.cp)|..])
    else p + 2 <= e && s != "" && s[0] == Short(CharAt(t, p + 1)) && Body(t, p + 2, e, s[1..])
  }

  /** What a character after a backslash stands for. */
  function Short(c: char): (r: char) {
    match c
    case 'b' => 8 as char
    case 't' => 9 as char
    case 'n' => 10 as char
    case 'f' => 12 as char
    case 'r' => 13 as char
    case _ => c
  }

  /** A string literal, with its closing quote or up to the terminator. */
  predicate Literal(t: string, i: nat, j: nat, s: string) {
    && i < j <= |t| && t[i] == '\"'
    && ((i + 1 < j && t[j - 1] == '\"' && Body(t, i + 1, j - 1, s)) || (j == |t| && Body(t, i + 1, j, s)))
  }

  /** From i to j stands the text of v. */
  ghost predicate Derives(t: string, i: nat, j: nat, v: Json)
    decreases v
  {
    match v
    case Null => Occurs(t, i, "null") && j == i + 4
    case False => Occurs(t, i, "false") && j == i + 5
    case True => Occurs(t, i, "true") && j == i + 4
    case Number(n, x) =>
      && (CharAt(t, i) == '-' || IsDigit(CharAt(t, i)))
      && n == Truncate(x)
      && exists q: nat, r: nat :: Numeral(t, i, q, r, j, x)
    case String(s) => Literal(t, i, j, s)
    case Array(items) =>
      CharAt(t, i) == '[' && if items == [] then Empty(t, i + 1, j, ']') else ItemsDerive(t, i + 1, j, items)
    case Object(members) =>
      CharAt(t, i) == '{' && if members == [] then Empty(t, i + 1, j, '}') else MembersDerive(t, i + 1, j, members)
  }

  /** Only blanks before the closing character. */
  predicate Empty(t: string, i: nat, j: nat, close: char) {
    i < j <= |t| && Blanks(t, i, j - 1) && t[j - 1] == close
  }

  /** Items with blanks around them, commas between them, and the bracket at the end. */
  ghost predicate ItemsDerive(t: string, i: nat, j: nat, items: seq<Json>)
    requires items != []
    decreases items
  {
    exists a: nat, b: nat, c: nat ::
      && Blanks(t, i, a) && Derives(t, a, b, items[0]) && Blanks(t, b, c)
      && if |items| == 1 then CharAt(t, c) == ']' && j == c + 1
         else CharAt(t, c) == ',' && ItemsDerive(t, c + 1, j, items[1..])
  }

  /** A name, a colon and a value, with blanks around the colon. */
  ghost predicate MemberDerives(t: string, i: nat, j: nat, m: Member)
    decreases m
  {
    exists b: nat, c: nat, d: nat ::
      && Literal(t, i, b, m.name) && Blanks(t, b, c) && CharAt(t, c) == ':'
      && Blanks(t, c + 1, d) && Derives(t, d, j, m.value)
  }

  ghost predicate MembersDerive(t: string, i: nat, j: nat, members: seq<Member>)
    requires members != []
    decreases members
  {
    exists a: nat, b: nat, c: nat ::
      && Blanks(t, i, a) && MemberDerives(t, a, b, members[0]) && Blanks(t, b, c)
      && if |members| == 1 then CharAt(t, c) == '}' && j == c + 1
         else CharAt(t, c) == ',' && MembersDerive(t, c + 1, j, members[1..])
  }

  // Blanks

  lemma {:induction false} SkipBlanks(t: string, a: nat)
    requires CString(t) && a <= |t|
    ensures Blanks(t, a, Skip(t, a)) && (Skip(t, a) < |t| ==> t[Skip(t, a)] > ' ')
    decreases |t| - a
  {
    if a < |t| && t[a] <= ' ' {
      SkipBlanks(t, a + 1);
    }
  }

  lemma {:induction false} BlanksSkip(t: string, a: nat, b: nat)
    requires CString(t) && Blanks(t, a, b) && (b < |t| ==> t[b] > ' ')
    ensures Skip(t, a) == b
    decreases b - a
  {
    if a < b {
      BlanksSkip(t, a + 1, b);
    }
  }

  // Literals

  lemma {:induction false} BodyDecodes(t: string, p: nat, e: nat, s: string)
    requires CString(t) && e <= |t| && Body(t, p, e, s) && (e == |t| || t[e] == '\"')
    ensures p <= e && Sizing(t, p).At? && Sizing(t, p).end == e && Decode(t, p, e) == Bytes(s, e)
    decreases e - p
  {
    hide Octets, UnicodeAt, Decode, DecodeOne;
    if p < e {
      if t[p] != '\\' {
        BodyDecodes(t, p + 1, e, s[1..]);
        PlainStep(t, p, e, s);
      } else if CharAt(t, p + 1) == 'u' {
        var d := UnicodeAt(t, p + 1);
        BodyDecodes(t, d.next, e, s[|Octets(d.cp)|..]);
        UnicodeSizes(t, p, d, e);
        UnicodeStep(t, p, d, e, s);
      } else {
        BodyDecodes(t, p + 2, e, s[1..]);
        ShortStep(t, p, e, s);
      }
    } else {
      DecodeDone(t, e);
    }
  }

  lemma {:induction false} DecodeDone(t: string, e: nat)
    requires e <= |t|
    ensures Decode(t, e, e) == Bytes("", e)
  {
  }

  lemma {:induction false} PlainStep(t: string, p: nat, e: nat, s: string)
    requires CString(t) && p < e <= |t| && t[p] != '\\' && s != "" && s[0] == t[p]
    requires Decode(t, p + 1, e) == Bytes(s[1..], e)
    ensures Decode(t, p, e) == Bytes(s, e)
  {
    hide UnicodeAt, DecodeUnicode;
    assert [s[0]] + s[1..] == s;
  }

  lemma {:induction false} ShortStep(t: string, p: nat, e: nat, s: string)
    requires CString(t) && p + 2 <= e <= |t| && t[p] == '\\' && t[p + 1] != 'u' && s != "" && s[0] == Short(t[p + 1])
    requires Decode(t, p + 2, e) == Bytes(s[1..], e)
    ensures Decode(t, p, e) == Bytes(s, e)
  {
    hide UnicodeAt, DecodeUnicode;
    assert [s[0]] + s[1..] == s;
  }

  /** The sizing scan passes the digits of an escape. */
  lemma {:induction false} UnicodeSizes(t: string, p: nat, d: Denoted, e: nat)
    requires p < |t| && t[p] == '\\' && CharAt(t, p + 1) == 'u' && d == UnicodeAt(t, p + 1) && d.CodePoint?
    requires d.next <= e <= |t| && Sizing(t, d.next).At? && Sizing(t, d.next).end == e
    ensures Sizing(t, p).At? && Sizing(t, p).end == e
  {
    hide Hex4Value;
    SizingHex(t, p + 1);
    if d.next > p + 6 {
      SizingHex(t, p + 7);
    }
  }

  lemma {:induction false} UnicodeStep(t: string, p: nat, d: Denoted, e: nat, s: string)
    requires p < e <= |t| && t[p] == '\\' && CharAt(t, p + 1) == 'u' && d == UnicodeAt(t, p + 1) && d.CodePoint?
    requires d.cp != 0 && Scalar(d.cp) && Octets(d.cp) <= s && Sizing(t, p).At? && Sizing(t, p).end == e
    requires p < d.next && Decode(t, d.next, e) == Bytes(s[|Octets(d.cp)|..], e)
    ensures Decode(t, p, e) == Bytes(s, e)
  {
    hide Octets, UnicodeAt, DecodeOne;
    UnicodeIsUtf8(t, p, e);
    assert Octets(d.cp) + s[|Octets(d.cp)|..] == s;
  }

  lemma {:induction false} DecodesBody(t: string, p: nat, e: nat)
    requires CString(t) && p <= e <= |t| && Sizing(t, p).At? && Sizing(t, p).end == e && Decode(t, p, e).Bytes?
    ensures Body(t, p, e, Decode(t, p, e).s)
    decreases e - p
  {
    hide Octets, UnicodeAt, DecodeOne, Decode;
    DecodeSplits(t, p, e);
    if p < e {
      var first := DecodeOne(t, p, e);
      StepStaysAligned(t, p, e);
      DecodesBody(t, first.next, e);
      var rest := Decode(t, first.next, e).s;
      assert (first.s + rest)[|first.s|..] == rest;
      StepIs(t, p, e);
    }
  }

  lemma {:induction false} DecodeSplits(t: string, p: nat, e: nat)
    requires e <= |t| && Decode(t, p, e).Bytes?
    ensures p >= e ==> Decode(t, p, e) == Bytes("", p)
    ensures p < e ==> var first := DecodeOne(t, p, e);
                      && first.Bytes? && Decode(t, first.next, e).Bytes?
                      && Decode(t, p, e).s == first.s + Decode(t, first.next, e).s
  {
  }

  /** One decoding step in terms of the grammar. */
  lemma {:induction false} StepIs(t: string, p: nat, e: nat)
    requires CString(t) && p < e <= |t| && Sizing(t, p).At? && Sizing(t, p).end == e && DecodeOne(t, p, e).Bytes?
    ensures var r := DecodeOne(t, p, e);
            if t[p] != '\\' then t[p] != '\"' && r == Bytes([t[p]], p + 1)
            else if CharAt(t, p + 1) != 'u' then p + 2 <= e && r == Bytes([Short(CharAt(t, p + 1))], p + 2)
            else
              var d := UnicodeAt(t, p + 1);
              d.CodePoint? && d.cp != 0 && Scalar(d.cp) && r == Bytes(Octets(d.cp), d.next)
  {
    hide Octets, UnicodeAt, DecodeUnicode;
    if t[p] == '\\' && CharAt(t, p + 1) == 'u' {
      UnicodeIsUtf8(t, p, e);
    }
  }

  /** parse_string accepts exactly the literals. */
  lemma {:induction false} StringIff(t: string, i: nat, j: nat, s: string)
    requires CString(t) && i <= |t|
    ensures StringAt(t, i) == Ok(s, j) <==> Literal(t, i, j, s)
  {
    hide Body, Decode, Sizing;
    if Literal(t, i, j, s) {
      var e := if i + 1 < j && t[j - 1] == '\"' && Body(t, i + 1, j - 1, s) then j - 1 else j;
      BodyDecodes(t, i + 1, e, s);
    }
    if StringAt(t, i) == Ok(s, j) {
      var e := Sizing(t, i + 1).end;
      DecodeStaysAligned(t, i + 1, e);
      DecodesBody(t, i + 1, e);
    }
  }

  /** How many backslashes stand right before position k, counted back to position p. */
  function Slashes(t: string, p: nat, k: nat): (n: nat)
    requires k <= |t|
    decreases k
  {
    if p < k && t[k - 1] == '\\' then 1 + Slashes(t, p, k - 1) else 0
  }

  predicate Escaping(t: string, p: nat, k: nat)
    requires k <= |t|
  {
    Slashes(t, p, k) % 2 == 1
  }

  lemma {:induction false} SlashesFrom(t: string, p: nat, k: nat)
    requires p < k <= |t|
    ensures t[p] != '\\' ==> Slashes(t, p, k) == Slashes(t, p + 1, k)
    ensures t[p] == '\\' && p + 2 <= k ==> Slashes(t, p, k) % 2 == Slashes(t, p + 2, k) % 2
    ensures t[p] == '\\' && k == p + 1 ==> Slashes(t, p, k) == 1
    decreases k
  {
    if p + 1 < k {
      SlashesFrom(t, p, k - 1);
    }
  }

  /**
   The sizing scan stops at the first quote that an even number of backslashes
   precedes. Without one it stops at the terminator, unless an odd number of
   backslashes precedes that: then it runs over it.
   */
  lemma {:induction false} LiteralEnds(t: string, p: nat)
    requires CString(t) && p <= |t|
    ensures var e := if Sizing(t, p).At? then Sizing(t, p).end else |t|;
            && p <= e <= |t|
            && (forall k | p <= k < e :: t[k] == '\"' ==> Escaping(t, p, k))
            && (e < |t| ==> t[e] == '\"')
            && (Escaping(t, p, e) <==> Sizing(t, p).Unbounded?)
    decreases |t| - p
  {
    if CharAt(t, p) != '\"' && CharAt(t, p) != '\0' {
      var m := if t[p] == '\\' then 2 else 1;
      if p + m <= |t| {
        LiteralEnds(t, p + m);
        forall k | p < k <= |t|
          ensures m == 1 || p + 2 <= k ==> Escaping(t, p, k) == Escaping(t, p + m, k)
          ensures m == 2 && k == p + 1 ==> Escaping(t, p, k)
        {
          SlashesFrom(t, p, k);
        }
      } else {
        SlashesFrom(t, p, p + 1);
      }
    }
  }

  /** A literal runs over the terminator exactly if no quote closes it and an odd number of backslashes ends it. */
  lemma {:induction false} StringOverruns(t: string, i: nat)
    requires CString(t) && i <= |t|
    ensures StringAt(t, i) == Overrun <==>
            && CharAt(t, i) == '\"'
            && Escaping(t, i + 1, |t|)
            && forall k | i < k < |t| :: t[k] == '\"' ==> Escaping(t, i + 1, k)
  {
    hide Sizing, Decode, Slashes;
    if i < |t| {
      LiteralEnds(t, i + 1);
    }
  }

  // Every accepted text is derived

  lemma {:induction false} NumberDerives(t: string, i: nat)
    requires i <= |t| && (CharAt(t, i) == '-' || IsDigit(CharAt(t, i)))
    ensures var n := ScanNumber(t, i); Derives(t, i, n.next, Json.Number(Truncate(n.value), n.value))
  {
    hide ScanNumber, Numeral, Truncate;
    var q, r := ReadsNumeral(t, i);
  }

  lemma {:induction false} EmptyIs(t: string, i: nat, close: char)
    requires CString(t) && i <= |t| && CharAt(t, Skip(t, i)) == close && close != '\0'
    ensures Empty(t, i, Skip(t, i) + 1, close)
  {
    SkipBlanks(t, i);
  }

  lemma {:induction false} ValueDerives(t: string, i: nat)
    requires CString(t) && i <= |t| && ValueAt(t, i).Ok?
    ensures Derives(t, i, ValueAt(t, i).next, ValueAt(t, i).value)
    decreases |t| - i, 2
  {
    hide StringAt, ScanNumber, Numeral, Literal, ItemsDerive, MembersDerive, Empty, Truncate;
    if CharAt(t, i) == '\"' {
      StringIff(t, i, StringAt(t, i).next, StringAt(t, i).value);
    } else if CharAt(t, i) == '-' || IsDigit(CharAt(t, i)) {
      NumberDerives(t, i);
    } else if CharAt(t, i) == '[' {
      ArrayDerives(t, i);
    } else if CharAt(t, i) == '{' {
      ObjectDerives(t, i);
    }
  }

  lemma {:induction false} ArrayDerives(t: string, i: nat)
    requires CString(t) && i <= |t| && ValueAt(t, i).Ok? && CharAt(t, i) == '['
    ensures Derives(t, i, ValueAt(t, i).next, ValueAt(t, i).value)
    decreases |t| - i, 1
  {
    hide ValueAt, ItemsAt, ItemsDerive, MembersDerive, Empty, Blanks, Numeral, Literal, Truncate;
    ArrayOpens(t, i);
    if CharAt(t, Skip(t, i + 1)) == ']' {
      EmptyIs(t, i + 1, ']');
    } else {
      SkipBlanks(t, i + 1);
      var items := ItemsDerived(t, i + 1, Skip(t, i + 1), []);
      assert [] + items == items;
    }
  }

  lemma {:induction false} ObjectDerives(t: string, i: nat)
    requires CString(t) && i <= |t| && ValueAt(t, i).Ok? && CharAt(t, i) == '{'
    ensures Derives(t, i, ValueAt(t, i).next, ValueAt(t, i).value)
    decreases |t| - i, 1
  {
    hide ValueAt, MembersAt, ItemsDerive, MembersDerive, Empty, Blanks, Numeral, Literal, Truncate;
    ObjectOpens(t, i);
    if CharAt(t, Skip(t, i + 1)) == '}' {
      EmptyIs(t, i + 1, '}');
    } else {
      SkipBlanks(t, i + 1);
      var members := MembersDerived(t, i + 1, Skip(t, i + 1), []);
      assert [] + members == members;
    }
  }

  /** The parts of a list of items: the first one from a to b, and c after the blanks behind it. */
  ghost predicate FirstItem(t: string, i: nat, j: nat, items: seq<Json>, a: nat, b: nat, c: nat)
    requires items != []
  {
    && Blanks(t, i, a) && Derives(t, a, b, items[0]) && Blanks(t, b, c)
    && if |items| == 1 then CharAt(t, c) == ']' && j == c + 1
       else CharAt(t, c) == ',' && ItemsDerive(t, c + 1, j, items[1..])
  }

  lemma {:induction false} ItemsFrom(t: string, i: nat, j: nat, items: seq<Json>, a: nat, b: nat, c: nat)
    requires items != [] && FirstItem(t, i, j, items, a, b, c)
    ensures ItemsDerive(t, i, j, items)
  {
    hide Derives, Blanks;
  }

  lemma {:induction false} ItemsOf(t: string, i: nat, j: nat, items: seq<Json>) returns (a: nat, b: nat, c: nat)
    requires items != [] && ItemsDerive(t, i, j, items)
    ensures FirstItem(t, i, j, items, a, b, c)
  {
    hide Derives, Blanks;
    a, b, c :|
      && Blanks(t, i, a) && Derives(t, a, b, items[0]) && Blanks(t, b, c)
      && if |items| == 1 then CharAt(t, c) == ']' && j == c + 1
         else CharAt(t, c) == ',' && ItemsDerive(t, c + 1, j, items[1..]);
  }

  /** The items that the loop adds are derived from where the blanks before them start. */
  lemma {:induction false} ItemsDerived(t: string, i: nat, k: nat, acc: seq<Json>) returns (rest: seq<Json>)
    requires CString(t) && Blanks(t, i, k) && k <= |t| && ItemsAt(t, k, acc).Ok?
    ensures rest != [] && ItemsAt(t, k, acc).value == Array(acc + rest)
    ensures ItemsDerive(t, i, ItemsAt(t, k, acc).next, rest)
    decreases |t| - k, 3
  {
    hide ValueAt, ItemsAt, Derives, ItemsDerive, Blanks, Skip, CString;
    SkipBlanks(t, k);
    var a := Skip(t, k);
    ItemsStep(t, k, acc);
    ValueDerives(t, a);
    var v, b := ValueAt(t, a).value, ValueAt(t, a).next;
    SkipBlanks(t, b);
    var c := Skip(t, b);
    BlanksJoin(t, i, k, a);
    if CharAt(t, c) == ',' {
      BlanksNone(t, c + 1);
      var more := ItemsDerived(t, c + 1, c + 1, acc + [v]);
      rest := [v] + more;
      assert rest[0] == v && rest[1..] == more && acc + [v] + more == acc + rest;
    } else {
      rest := [v];
    }
    ItemsFrom(t, i, ItemsAt(t, k, acc).next, rest, a, b, c);
  }

  lemma {:induction false} BlanksNone(t: string, a: nat)
    requires a <= |t|
    ensures Blanks(t, a, a)
  {
  }

  ghost predicate FirstMember(t: string, i: nat, j: nat, members: seq<Member>, a: nat, b: nat, c: nat)
    requires members != []
  {
    && Blanks(t, i, a) && MemberDerives(t, a, b, members[0]) && Blanks(t, b, c)
    && if |members| == 1 then CharAt(t, c) == '}' && j == c + 1
       else CharAt(t, c) == ',' && MembersDerive(t, c + 1, j, members[1..])
  }

  lemma {:induction false} MembersFrom(t: string, i: nat, j: nat, members: seq<Member>, a: nat, b: nat, c: nat)
    requires members != [] && FirstMember(t, i, j, members, a, b, c)
    ensures MembersDerive(t, i, j, members)
  {
    hide MemberDerives, Blanks;
  }

  lemma {:induction false} MembersOf(t: string, i: nat, j: nat, members: seq<Member>) returns (a: nat, b: nat, c: nat)
    requires members != [] && MembersDerive(t, i, j, members)
    ensures FirstMember(t, i, j, members, a, b, c)
  {
    hide MemberDerives, Blanks;
    a, b, c :|
      && Blanks(t, i, a) && MemberDerives(t, a, b, members[0]) && Blanks(t, b, c)
      && if |members| == 1 then CharAt(t, c) == '}' && j == c + 1
         else CharAt(t, c) == ',' && MembersDerive(t, c + 1, j, members[1..]);
  }

  lemma {:induction false} MembersDerived(t: string, i: nat, k: nat, acc: seq<Member>) returns (rest: seq<Member>)
    requires CString(t) && Blanks(t, i, k) && k <= |t| && MembersAt(t, k, acc).Ok?
    ensures rest != [] && MembersAt(t, k, acc).value == Object(acc + rest)
    ensures MembersDerive(t, i, MembersAt(t, k, acc).next, rest)
    decreases |t| - k, 4
  {
    hide MemberAt, MembersAt, MemberDerives, MembersDerive, Blanks, Skip, CString;
    SkipBlanks(t, k);
    var a := Skip(t, k);
    MembersStep(t, k, acc);
    MemberDerived(t, k);
    var m, b := MemberAt(t, k).value, MemberAt(t, k).next;
    SkipBlanks(t, b);
    var c := Skip(t, b);
    BlanksJoin(t, i, k, a);
    if CharAt(t, c) == ',' {
      BlanksNone(t, c + 1);
      var more := MembersDerived(t, c + 1, c + 1, acc + [m]);
      rest := [m] + more;
      assert rest[0] == m && rest[1..] == more && acc + [m] + more == acc + rest;
    } else {
      rest := [m];
    }
    MembersFrom(t, i, MembersAt(t, k, acc).next, rest, a, b, c);
  }

  lemma {:induction false} BlanksJoin(t: string, a: nat, b: nat, c: nat)
    requires Blanks(t, a, b) && Blanks(t, b, c)
    ensures Blanks(t, a, c)
  {
  }

  lemma {:induction false} MemberDerived(t: string, i: nat)
    requires CString(t) && i <= |t| && MemberAt(t, i).Ok?
    ensures Skip(t, i) <= |t| && MemberDerives(t, Skip(t, i), MemberAt(t, i).next, MemberAt(t, i).value)
    decreases |t| - i, 3
  {
    hide ValueAt, Derives, StringAt, Literal;
    SkipBlanks(t, i);
    var a := Skip(t, i);
    var s := StringAt(t, a);
    StringIff(t, a, s.next, s.value);
    SkipBlanks(t, s.next);
    var c := Skip(t, s.next);
    SkipBlanks(t, c + 1);
    ValueDerives(t, Skip(t, c + 1));
  }

  // Every derived text is accepted

  lemma {:induction false} Starts(t: string, i: nat, j: nat, v: Json)
    requires Derives(t, i, j, v)
    ensures i < |t| && t[i] > ' ' && t[i] != ']' && t[i] != '}' && t[i] != ','
  {
    hide Numeral, ItemsDerive, MembersDerive, Body, Empty;
  }

  lemma {:induction false} EmptyAccepted(t: string, i: nat, j: nat, close: char)
    requires CString(t) && Empty(t, i, j, close) && close > ' '
    ensures Skip(t, i) == j - 1 && CharAt(t, Skip(t, i)) == close
  {
    BlanksSkip(t, i, j - 1);
  }

  lemma {:induction false} DerivedAccepted(t: string, i: nat, j: nat, v: Json)
    requires CString(t) && i <= |t| && Derives(t, i, j, v)
    ensures ValueAt(t, i) == Ok(v, j)
    decreases v, 0
  {
    hide ValueAt, ScanNumber, StringAt, ItemsDerive, MembersDerive, Empty, Literal, Numeral;
    match v {
      case Null => WordAccepted(t, i);
      case False => WordAccepted(t, i);
      case True => WordAccepted(t, i);
      case Number(_, x) =>
        var q: nat, r: nat :| Numeral(t, i, q, r, j, x);
        NumeralReads(t, i, q, r, j, x);
        NumberAccepted(t, i);
      case String(s) =>
        StringIff(t, i, j, s);
        LiteralAccepted(t, i, j, s);
      case Array(items) =>
        ArrayOpens(t, i);
        if items == [] {
          EmptyAccepted(t, i + 1, j, ']');
        } else {
          ItemsAccepted(t, i + 1, Skip(t, i + 1), j, items, []);
          assert [] + items == items;
        }
      case Object(members) =>
        ObjectOpens(t, i);
        if members == [] {
          EmptyAccepted(t, i + 1, j, '}');
        } else {
          MembersAccepted(t, i + 1, Skip(t, i + 1), j, members, []);
          assert [] + members == members;
        }
    }
  }

  lemma {:induction false} WordAccepted(t: string, i: nat)
    requires i <= |t|
    ensures Occurs(t, i, "null") ==> ValueAt(t, i) == Ok(Null, i + 4)
    ensures Occurs(t, i, "false") ==> ValueAt(t, i) == Ok(False, i + 5)
    ensures Occurs(t, i, "true") ==> ValueAt(t, i) == Ok(True, i + 4)
  {
  }

  lemma {:induction false} NumberAccepted(t: string, i: nat)
    requires i <= |t| && (CharAt(t, i) == '-' || IsDigit(CharAt(t, i)))
    ensures var n := ScanNumber(t, i); ValueAt(t, i) == Ok(Json.Number(Truncate(n.value), n.value), n.next)
  {
    hide ScanNumber, Truncate;
  }

  lemma {:induction false} LiteralAccepted(t: string, i: nat, j: nat, s: string)
    requires i <= |t| && StringAt(t, i) == Ok(s, j)
    ensures ValueAt(t, i) == Ok(String(s), j)
  {
  }

  /** From any blank before them the items are parsed; the first is no closing bracket. */
  lemma {:induction false} ItemsAccepted(t: string, i: nat, k: nat, j: nat, items: seq<Json>, acc: seq<Json>)
    requires CString(t) && items != [] && ItemsDerive(t, i, j, items) && i <= |t| && (k == i || k == Skip(t, i))
    ensures k <= |t| && ItemsAt(t, k, acc) == Ok(Array(acc + items), j) && CharAt(t, Skip(t, i)) != ']'
    decreases items
  {
    hide ValueAt, ItemsAt, Derives, ItemsDerive, Blanks, Skip, CString;
    var a, b, c := ItemsOf(t, i, j, items);
    Starts(t, a, b, items[0]);
    BlanksBefore(t, i, a, k);
    DerivedAccepted(t, a, b, items[0]);
    BlanksBeforeMark(t, b, c);
    ItemsStep(t, k, acc);
    if |items| > 1 {
      ItemsAccepted(t, c + 1, c + 1, j, items[1..], acc + [items[0]]);
      assert acc + [items[0]] + items[1..] == acc + items;
    } else {
      assert acc + [items[0]] == acc + items;
    }
  }

  /** Blanks before a character that is none are skipped, from wherever in between. */
  lemma {:induction false} BlanksBefore(t: string, i: nat, a: nat, k: nat)
    requires CString(t) && Blanks(t, i, a) && a < |t| && t[a] > ' ' && i <= |t| && (k == i || k == Skip(t, i))
    ensures Skip(t, i) == a && k <= |t| && Skip(t, k) == a
  {
    BlanksSkip(t, i, a);
    BlanksSkip(t, a, a);
  }

  lemma {:induction false} BlanksBeforeMark(t: string, b: nat, c: nat)
    requires CString(t) && Blanks(t, b, c) && CharAt(t, c) > ' '
    ensures Skip(t, b) == c < |t|
  {
    BlanksSkip(t, b, c);
  }

  lemma {:induction false} MemberAccepted(t: string, i: nat, j: nat, m: Member)
    requires CString(t) && MemberDerives(t, i, j, m)
    ensures i < |t| && t[i] == '\"' && MemberAt(t, i) == Ok(m, j)
    decreases m
  {
    hide ValueAt, Derives, StringAt, Body;
    var b: nat, c: nat, d: nat :|
      && Literal(t, i, b, m.name) && Blanks(t, b, c) && CharAt(t, c) == ':'
      && Blanks(t, c + 1, d) && Derives(t, d, j, m.value);
    BlanksSkip(t, i, i);
    StringIff(t, i, b, m.name);
    BlanksSkip(t, b, c);
    Starts(t, d, j, m.value);
    BlanksSkip(t, c + 1, d);
    DerivedAccepted(t, d, j, m.value);
  }

  lemma {:induction false} MembersAccepted(t: string, i: nat, k: nat, j: nat, members: seq<Member>, acc: seq<Member>)
    requires CString(t) && members != [] && MembersDerive(t, i, j, members) && i <= |t| && (k == i || k == Skip(t, i))
    ensures k <= |t| && MembersAt(t, k, acc) == Ok(Object(acc + members), j) && CharAt(t, Skip(t, i)) != '}'
    decreases members
  {
    hide MemberAt, MembersAt, MemberDerives, MembersDerive, Blanks, Skip, CString;
    var a, b, c := MembersOf(t, i, j, members);
    MemberAccepted(t, a, b, members[0]);
    BlanksBefore(t, i, a, k);
    SameMember(t, i, a, k);
    BlanksBeforeMark(t, b, c);
    MembersStep(t, k, acc);
    if |members| > 1 {
      MembersAccepted(t, c + 1, c + 1, j, members[1..], acc + [members[0]]);
      assert acc + [members[0]] + members[1..] == acc + members;
    } else {
      assert acc + [members[0]] == acc + members;
    }
  }

  /** Blanks before a member make no difference. */
  lemma {:induction false} SameMember(t: string, i: nat, a: nat, k: nat)
    requires CString(t) && i <= |t| && Skip(t, i) == a && a < |t| && t[a] > ' ' && (k == i || k == a)
    ensures MemberAt(t, k) == MemberAt(t, a) && Skip(t, k) == a
  {
    BlanksSkip(t, a, a);
  }

  /** parse_value accepts exactly what the grammar derives, and returns the value and the end. */
  lemma {:induction false} ValueIff(t: string, i: nat, j: nat, v: Json)
    requires CString(t) && i <= |t|
    ensures ValueAt(t, i) == Ok(v, j) <==> Derives(t, i, j, v)
  {
    hide ValueAt, Derives;
    if ValueAt(t, i) == Ok(v, j) { ValueDerives(t, i); }
    if Derives(t, i, j, v) { DerivedAccepted(t, i, j, v); }
  }

  /**
   A whole text is accepted exactly if it is a derived value after blanks; with the
   required terminator only blanks may follow, and the end is the end of the text.
   */
  lemma {:induction false} ParsingIff(t: string, v: Json, j: nat)
    requires CString(t)
    ensures Parsing(t, true) == Ok(v, j) <==>
              j == |t| && exists a: nat, b: nat :: Blanks(t, 0, a) && Derives(t, a, b, v) && Blanks(t, b, |t|)
    ensures Parsing(t, false) == Ok(v, j) <==> exists a: nat :: Blanks(t, 0, a) && Derives(t, a, j, v)
  {
    hide ValueAt, Derives;
    var a := Skip(t, 0);
    SkipBlanks(t, 0);
    if ValueAt(t, a).Ok? {
      var b := ValueAt(t, a).next;
      ValueIff(t, a, b, ValueAt(t, a).value);
      SkipBlanks(t, b);
    }
    forall a': nat, b: nat | Blanks(t, 0, a') && Derives(t, a', b, v)
      ensures a' == a && ValueAt(t, a) == Ok(v, b)
    {
      Starts(t, a', b, v);
      BlanksSkip(t, 0, a');
      ValueIff(t, a, b, v);
    }
    forall b: nat | Blanks(t, b, |t|)
      ensures Skip(t, b) == |t|
    {
      BlanksSkip(t, b, |t|);
    }
  }

  /** A letter alone is no value. */
  lemma {:induction false} LetterRejected()
    ensures Parsing("x", true) == Fail(0) && Parsing("x", false) == Fail(0)
  {
  }
}
