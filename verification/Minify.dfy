/** cJSON_Minify, which overwrites its input with the text without blanks and comments. */
module Minify {
  import opened CText
  import opened Strings
  import opened Quoting
  import opened Json

  /** The text that is left, or nothing when the scan runs past the terminator, which C leaves undefined. */
  datatype Minified = Left(s: string) | Unterminated

  function Then(s: string, rest: Minified): (r: Minified) {
    if rest.Left? then Left(s + rest.s) else Unterminated
  }

  predicate IsBlank(c: char) {
    c == ' ' || c == '\t' || c == '\r' || c == '\n'
  }

  /** Where a double-slash comment ends. */
  function LineEnd(t: string, i: nat): (j: nat)
    requires i <= |t|
    ensures i <= j <= |t|
    decreases |t| - i
  {
    if CharAt(t, i) != '\0' && CharAt(t, i) != '\n' then LineEnd(t, i + 1) else i
  }

  /** Where the scan for the end of a block comment stops. */
  function BlockEnd(t: string, i: nat): (j: nat)
    requires i <= |t|
    ensures i <= j <= |t|
    decreases |t| - i
  {
    if CharAt(t, i) != '\0' && !(CharAt(t, i) == '*' && CharAt(t, i + 1) == '/') then BlockEnd(t, i + 1) else i
  }

  /** What cJSON_Minify leaves of the text from position i. */
  function MinifyFrom(t: string, i: nat): (r: Minified)
    requires i <= |t|
    decreases |t| - i
  {
    var c := CharAt(t, i);
    if c == '\0' then Left("")
    else if IsBlank(c) then MinifyFrom(t, i + 1)
    else if c == '/' && CharAt(t, i + 1) == '/' then MinifyFrom(t, LineEnd(t, i + 1))
    else if c == '/' && CharAt(t, i + 1) == '*' then
      var j := BlockEnd(t, i);
      if j + 2 > |t| then Unterminated else MinifyFrom(t, j + 2)
    else if c == '\"' then
      var size := Sizing(t, i + 1);
      if size.Unbounded? || CharAt(t, size.end) != '\"' then Unterminated
      else Then(t[i..size.end + 1], MinifyFrom(t, size.end + 1))
    else Then([c], MinifyFrom(t, i + 1))
  }

  /**
   The star that opens a block comment also closes it exactly if a slash
   follows; the comment is then three characters long.
   */
  lemma {:induction false} OpenerCloses(t: string, i: nat)
    requires i <= |t| && CharAt(t, i) == '/' && CharAt(t, i + 1) == '*'
    ensures BlockEnd(t, i) == i + 1 <==> CharAt(t, i + 2) == '/'
    ensures CharAt(t, i + 2) == '/' ==> MinifyFrom(t, i) == MinifyFrom(t, i + 3)
  {
    assert BlockEnd(t, i) == BlockEnd(t, i + 1);
  }

  lemma {:induction false} SlashStarSlash()
    ensures MinifyFrom("/*/1", 0) == Left("1")
  {
    var t := "/*/1";
    OpenerCloses(t, 0);
    assert MinifyFrom(t, 4) == Left("") && "1" + "" == "1";
    assert MinifyFrom(t, 3) == Left("1");
  }

  lemma {:induction false} ThenThen(a: string, b: string, rest: Minified)
    ensures Then(a, Then(b, rest)) == Then(a + b, rest)
  {
    if rest.Left? {
      assert a + (b + rest.s) == (a + b) + rest.s;
    }
  }

  /** The stretch p of t at position i is reduced to s. */
  predicate Reduces(t: string, i: nat, p: string, s: string)
    requires i + |p| <= |t|
  {
    MinifyFrom(t, i) == Then(s, MinifyFrom(t, i + |p|))
  }

  lemma {:induction false} ReducesConcat(t: string, i: nat, p: string, s: string, q: string, u: string)
    requires i + |p| + |q| <= |t| && Reduces(t, i, p, s) && Reduces(t, i + |p|, q, u)
    ensures Reduces(t, i, p + q, s + u)
  {
    ThenThen(s, u, MinifyFrom(t, i + |p| + |q|));
  }

  predicate AllBlank(s: string) {
    forall i | 0 <= i < |s| :: IsBlank(s[i])
  }

  lemma {:induction false} BlankReduces(t: string, i: nat, p: string)
    requires Occurs(t, i, p) && AllBlank(p)
    ensures i + |p| <= |t| && Reduces(t, i, p, "")
    decreases |p|
  {
    if p == "" {
      NothingReduces(t, i);
    } else {
      BlankReduces(t, i + 1, p[1..]);
    }
  }

  lemma {:induction false} NothingReduces(t: string, i: nat)
    requires i <= |t|
    ensures Reduces(t, i, "", "")
  {
    var rest := MinifyFrom(t, i);
    assert rest.Left? ==> "" + rest.s == rest.s;
  }

  predicate IsPlain(c: char) {
    c != '\0' && !IsBlank(c) && c != '/' && c != '\"'
  }

  predicate AllPlain(s: string) {
    forall i | 0 <= i < |s| :: IsPlain(s[i])
  }

  lemma {:induction false} PlainReduces(t: string, i: nat, p: string)
    requires Occurs(t, i, p) && AllPlain(p)
    ensures i + |p| <= |t| && Reduces(t, i, p, p)
    decreases |p|
  {
    if p == "" {
      NothingReduces(t, i);
    } else {
      PlainReduces(t, i + 1, p[1..]);
      ThenThen([p[0]], p[1..], MinifyFrom(t, i + |p|));
      assert [p[0]] + p[1..] == p;
    }
  }

  /** A string literal is left as it is, whatever it contains. */
  lemma {:induction false} QuoteReduces(t: string, i: nat, s: string)
    requires CString(s) && Occurs(t, i, Quote(s))
    ensures i + |Quote(s)| <= |t| && Reduces(t, i, Quote(s), Quote(s))
  {
    hide Escaped, Sizing, Occurs, Decode;
    var e := Escaped(s);
    OccursSlice(t, i, Quote(s));
    OccursConcat(t, i, "\"" + e, "\"");
    OccursConcat(t, i, "\"", e);
    OccursChar(t, i, "\"", 0);
    OccursChar(t, i + 1 + |e|, "\"", 0);
    EscapedReads(t, i + 1, s);
  }

  /** The formatted text of a value is reduced to its unformatted text. */
  lemma {:induction false} ValueReduces(t: string, i: nat, v: Json, depth: nat)
    requires Printable(v) && Occurs(t, i, Text(v, depth, true))
    ensures i + |Text(v, depth, true)| <= |t| && Reduces(t, i, Text(v, depth, true), Text(v, depth, false))
    decreases v, 0
  {
    match v {
      case String(s) => QuoteReduces(t, i, s);
      case Array(items) => ArrayReduces(t, i, items, depth);
      case Object(members) => ObjectReduces(t, i, members, depth);
      case _ =>
        PlainReduces(t, i, Text(v, 0, true));
    }
  }

  lemma {:induction false} ArrayReduces(t: string, i: nat, items: seq<Json>, depth: nat)
    requires PrintableItems(items) && Occurs(t, i, Text(Array(items), depth, true))
    ensures i + |Text(Array(items), depth, true)| <= |t|
    ensures Reduces(t, i, Text(Array(items), depth, true), Text(Array(items), depth, false))
    decreases items, 1
  {
    if items == [] {
      PlainReduces(t, i, "[]");
    } else {
      WrappedItemsReduce(t, i, items, depth + 1);
    }
  }

  lemma {:induction false} WrappedItemsReduce(t: string, i: nat, items: seq<Json>, depth: nat)
    requires PrintableItems(items) && Occurs(t, i, "[" + ItemsText(items, depth, true) + "]")
    ensures i + |ItemsText(items, depth, true)| + 2 <= |t|
    ensures Reduces(t, i, "[" + ItemsText(items, depth, true) + "]", "[" + ItemsText(items, depth, false) + "]")
    decreases items, 0, 2
  {
    hide ItemsText, Occurs, Reduces, Printable;
    var p, u := ItemsText(items, depth, true), ItemsText(items, depth, false);
    OccursConcat(t, i, "[" + p, "]");
    OccursConcat(t, i, "[", p);
    PlainReduces(t, i, "[");
    ItemsReduce(t, i + 1, items, depth);
    PlainReduces(t, i + 1 + |p|, "]");
    ReducesConcat(t, i, "[", "[", p, u);
    ReducesConcat(t, i, "[" + p, "[" + u, "]", "]");
  }

  lemma {:induction false} EndReduces(t: string, i: nat, last: bool)
    requires Occurs(t, i, ItemEnd(last, true))
    ensures i + |ItemEnd(last, true)| <= |t| && Reduces(t, i, ItemEnd(last, true), ItemEnd(last, false))
  {
    if last {
      NothingReduces(t, i);
    } else {
      OccursConcat(t, i, ",", " ");
      PlainReduces(t, i, ",");
      BlankReduces(t, i + 1, " ");
      ReducesConcat(t, i, ",", ",", " ", "");
    }
  }

  lemma {:induction false} ItemsReduce(t: string, i: nat, items: seq<Json>, depth: nat)
    requires PrintableItems(items) && Occurs(t, i, ItemsText(items, depth, true))
    ensures i + |ItemsText(items, depth, true)| <= |t|
    ensures Reduces(t, i, ItemsText(items, depth, true), ItemsText(items, depth, false))
    decreases items, 0, 1
  {
    if items == [] {
      NothingReduces(t, i);
    } else {
      FirstItemReduces(t, i, items, depth);
    }
  }

  lemma {:induction false} FirstItemReduces(t: string, i: nat, items: seq<Json>, depth: nat)
    requires items != [] && PrintableItems(items)
    requires Occurs(t, i, Text(items[0], depth, true) + ItemEnd(|items| == 1, true) +
               ItemsText(items[1..], depth, true))
    ensures i + |Text(items[0], depth, true)| + |ItemEnd(|items| == 1, true)| +
              |ItemsText(items[1..], depth, true)| <= |t|
    ensures Reduces(t, i, Text(items[0], depth, true) + ItemEnd(|items| == 1, true) +
              ItemsText(items[1..], depth, true),
                    Text(items[0], depth, false) + ItemEnd(|items| == 1, false) + ItemsText(items[1..], depth, false))
    decreases items, 0, 0
  {
    hide Text, ItemsText, ItemEnd, Occurs, Reduces, Printable;
    var v, last, rest := items[0], |items| == 1, items[1..];
    var p, e, r := Text(v, depth, true), ItemEnd(last, true), ItemsText(rest, depth, true);
    var p', e', r' := Text(v, depth, false), ItemEnd(last, false), ItemsText(rest, depth, false);
    OccursConcat(t, i, p + e, r);
    OccursConcat(t, i, p, e);
    ValueReduces(t, i, v, depth);
    EndReduces(t, i + |p|, last);
    ReducesConcat(t, i, p, p', e, e');
    ItemsReduce(t, i + |p| + |e|, rest, depth);
    ReducesConcat(t, i, p + e, p' + e', r, r');
  }

  /** Indentation and line ends are blank. */
  lemma {:induction false} TabsBlank(n: nat)
    ensures AllBlank(Tabs(n)) && AllBlank("\n") && AllBlank("\n" + Tabs(n)) && AllBlank("\t")
  {
  }

  lemma {:induction false} ObjectReduces(t: string, i: nat, members: seq<Member>, depth: nat)
    requires PrintableMembers(members) && Occurs(t, i, Text(Object(members), depth, true))
    ensures i + |Text(Object(members), depth, true)| <= |t|
    ensures Reduces(t, i, Text(Object(members), depth, true), Text(Object(members), depth, false))
    decreases members, 1
  {
    if members == [] {
      NoMembersReduce(t, i, depth);
    } else {
      WrappedMembersReduce(t, i, members, depth);
    }
  }

  lemma {:induction false} NoMembersReduce(t: string, i: nat, depth: nat)
    requires Occurs(t, i, "{" + ("\n" + Tabs(depth)) + "}")
    ensures i + 3 + depth <= |t|
    ensures Reduces(t, i, "{" + ("\n" + Tabs(depth)) + "}", "{" + "" + "}")
  {
    hide Occurs, Reduces, Tabs;
    TabsBlank(depth);
    var p := "\n" + Tabs(depth);
    OccursConcat(t, i, "{" + p, "}");
    OccursConcat(t, i, "{", p);
    PlainReduces(t, i, "{");
    BlankReduces(t, i + 1, p);
    PlainReduces(t, i + 1 + |p|, "}");
    ReducesConcat(t, i, "{", "{", p, "");
    ReducesConcat(t, i, "{" + p, "{" + "", "}", "}");
  }

  lemma {:induction false} WrappedMembersReduce(t: string, i: nat, members: seq<Member>, depth: nat)
    requires PrintableMembers(members)
    requires Occurs(t, i, "{" + "\n" + MembersText(members, depth + 1, true) + Tabs(depth) + "}")
    ensures i + 3 + |MembersText(members, depth + 1, true)| + depth <= |t|
    ensures Reduces(t, i, "{" + "\n" + MembersText(members, depth + 1, true) + Tabs(depth) + "}",
                    "{" + "" + MembersText(members, depth + 1, false) + "" + "}")
    decreases members, 0, 2
  {
    hide MembersText, Occurs, Reduces, Tabs, Printable;
    TabsBlank(depth);
    var p, u, q := MembersText(members, depth + 1, true), MembersText(members, depth + 1, false), Tabs(depth);
    OccursConcat(t, i, "{" + "\n" + p + q, "}");
    OccursConcat(t, i, "{" + "\n" + p, q);
    OccursConcat(t, i, "{" + "\n", p);
    OccursConcat(t, i, "{", "\n");
    PlainReduces(t, i, "{");
    BlankReduces(t, i + 1, "\n");
    MembersReduce(t, i + 2, members, depth + 1);
    BlankReduces(t, i + 2 + |p|, q);
    PlainReduces(t, i + 2 + |p| + |q|, "}");
    ReducesConcat(t, i, "{", "{", "\n", "");
    ReducesConcat(t, i, "{" + "\n", "{" + "", p, u);
    ReducesConcat(t, i, "{" + "\n" + p, "{" + "" + u, q, "");
    ReducesConcat(t, i, "{" + "\n" + p + q, "{" + "" + u + "", "}", "}");
  }

  lemma {:induction false} StartReduces(t: string, i: nat, name: string, depth: nat)
    requires CString(name) && Occurs(t, i, MemberStart(name, depth, true))
    ensures i + |MemberStart(name, depth, true)| <= |t|
    ensures Reduces(t, i, MemberStart(name, depth, true), MemberStart(name, depth, false))
  {
    NameReduces(t, i, name, depth);
  }

  lemma {:induction false} NameReduces(t: string, i: nat, name: string, depth: nat)
    requires CString(name) && Occurs(t, i, Tabs(depth) + Quote(name) + ":" + "\t")
    ensures i + depth + |Quote(name)| + 2 <= |t|
    ensures Reduces(t, i, Tabs(depth) + Quote(name) + ":" + "\t", "" + Quote(name) + ":" + "")
  {
    hide Occurs, Reduces, Tabs, Quote;
    TabsBlank(depth);
    var p, q := Tabs(depth), Quote(name);
    OccursConcat(t, i, p + q + ":", "\t");
    OccursConcat(t, i, p + q, ":");
    OccursConcat(t, i, p, q);
    BlankReduces(t, i, p);
    QuoteReduces(t, i + |p|, name);
    PlainReduces(t, i + |p| + |q|, ":");
    BlankReduces(t, i + |p| + |q| + 1, "\t");
    ReducesConcat(t, i, p, "", q, q);
    ReducesConcat(t, i, p + q, "" + q, ":", ":");
    ReducesConcat(t, i, p + q + ":", "" + q + ":", "\t", "");
  }

  lemma {:induction false} MemberEndReduces(t: string, i: nat, last: bool)
    requires Occurs(t, i, MemberEnd(last, true))
    ensures i + |MemberEnd(last, true)| <= |t| && Reduces(t, i, MemberEnd(last, true), MemberEnd(last, false))
  {
    var comma := if last then "" else ",";
    OccursConcat(t, i, comma, "\n");
    PlainReduces(t, i, comma);
    BlankReduces(t, i + |comma|, "\n");
    ReducesConcat(t, i, comma, comma, "\n", "");
  }

  lemma {:induction false} MembersReduce(t: string, i: nat, members: seq<Member>, depth: nat)
    requires PrintableMembers(members) && Occurs(t, i, MembersText(members, depth, true))
    ensures i + |MembersText(members, depth, true)| <= |t|
    ensures Reduces(t, i, MembersText(members, depth, true), MembersText(members, depth, false))
    decreases members, 0, 1
  {
    if members == [] {
      NothingReduces(t, i);
    } else {
      FirstMemberReduces(t, i, members, depth);
    }
  }

  ghost function FirstMember(members: seq<Member>, depth: nat, fmt: bool): (s: string)
    requires members != [] && PrintableMembers(members)
  {
    MemberStart(members[0].name, depth, fmt) + Text(members[0].value, depth, fmt) + MemberEnd(|members| == 1, fmt)
    + MembersText(members[1..], depth, fmt)
  }

  lemma {:induction false} FirstMemberReduces(t: string, i: nat, members: seq<Member>, depth: nat)
    requires members != [] && PrintableMembers(members) && Occurs(t, i, FirstMember(members, depth, true))
    ensures i + |FirstMember(members, depth, true)| <= |t|
    ensures Reduces(t, i, FirstMember(members, depth, true), FirstMember(members, depth, false))
    decreases members, 0, 0
  {
    hide Text, MembersText, MemberStart, MemberEnd, Occurs, Reduces, Printable;
    var m, last, rest := members[0], |members| == 1, members[1..];
    var n, p, e, r := MemberStart(m.name, depth, true), Text(m.value, depth, true), MemberEnd(last, true),
        MembersText(rest, depth, true);
    var n', p', e', r' :=
      MemberStart(m.name, depth, false), Text(m.value, depth, false), MemberEnd(last, false),
          MembersText(rest, depth, false);
    OccursConcat(t, i, n + p + e, r);
    OccursConcat(t, i, n + p, e);
    OccursConcat(t, i, n, p);
    StartReduces(t, i, m.name, depth);
    ValueReduces(t, i + |n|, m.value, depth);
    ReducesConcat(t, i, n, n', p, p');
    MemberEndReduces(t, i + |n| + |p|, last);
    ReducesConcat(t, i, n + p, n' + p', e, e');
    MembersReduce(t, i + |n| + |p| + |e|, rest, depth);
    ReducesConcat(t, i, n + p + e, n' + p' + e', r, r');
  }

  /** Minifying formatted output gives unformatted output. */
  lemma {:induction false} MinifyUnformats(v: Json)
    requires Printable(v)
    ensures MinifyFrom(Text(v, 0, true), 0) == Left(Text(v, 0, false))
  {
    hide Text;
    var t, u := Text(v, 0, true), Text(v, 0, false);
    assert t[0..] == t && u + "" == u;
    OccursSuffix(t, 0);
    ValueReduces(t, 0, v, 0);
  }

  /** The part of the array that has not been read still holds the text, and the writing cursor is not ahead. */
  ghost predicate Unread(json: array<char>, t: string, into: nat, pos: nat)
    reads json
  {
    && into <= pos <= |t| < json.Length
    && (forall k | pos <= k < |t| :: json[k] == t[k])
    && json[|t|] == '\0'
  }

  /** Copies one character from the reading to the writing cursor. */
  method Copy(json: array<char>, ghost t: string, into: nat, pos: nat)
    requires Unread(json, t, into, pos) && pos < |t|
    modifies json
    ensures Unread(json, t, into + 1, pos + 1)
    ensures json[..into + 1] == old(json[..into]) + [t[pos]]
  {
    json[into] := json[pos];
  }

  /** Another character of a literal that starts at start. */
  method CopyMore(json: array<char>, ghost t: string, into: nat, pos: nat, ghost base: string, ghost start: nat)
    requires Unread(json, t, into, pos) && pos < |t| && start <= pos && json[..into] == base + t[start..pos]
    modifies json
    ensures Unread(json, t, into + 1, pos + 1) && json[..into + 1] == base + t[start..pos + 1]
  {
    Copy(json, t, into, pos);
    assert t[start..pos + 1] == t[start..pos] + [t[pos]];
  }

  /** The inner turn of the loop that copies a literal: a character, with what a backslash escapes. */
  method CopyUnit(json: array<char>, ghost t: string, into0: nat, pos0: nat, ghost base: string, ghost start: nat)
    returns (ok: bool, into: nat, pos: nat)
    requires CString(t) && Unread(json, t, into0, pos0) && pos0 < |t| && t[pos0] != '\"'
    requires start <= pos0 && json[..into0] == base + t[start..pos0]
    modifies json
    ensures if ok then pos0 < pos <= |t| && into - into0 == pos - pos0 && Unread(json, t, into, pos)
                       && json[..into] == base + t[start..pos] && SameEnd(t, pos0, pos)
            else Sizing(t, pos0).Unbounded?
  {
    hide Sizing, CString;
    ok, into, pos := true, into0, pos0;
    SizingStep(t, pos);
    if json[pos] == '\\' {
      CopyMore(json, t, into, pos, base, start);
      into, pos := into + 1, pos + 1;
      SizingStep(t, pos);
      if json[pos] == '\0' { return false, into, pos; }
    }
    CopyMore(json, t, into, pos, base, start);
    into, pos := into + 1, pos + 1;
  }

  /** A string literal, copied with its quotes. */
  method CopyLiteral(json: array<char>, ghost t: string, into0: nat, start: nat) returns (ok: bool, into: nat, pos: nat)
    requires CString(t) && Unread(json, t, into0, start) && start < |t| && t[start] == '\"'
    modifies json
    ensures var size := Sizing(t, start + 1);
            if size.Unbounded? || CharAt(t, size.end) != '\"' then !ok
            else ok && start < pos == size.end + 1 && Unread(json, t, into, pos)
                 && json[..into] == old(json[..into0]) + t[start..pos]
  {
    hide Sizing, CString;
    ghost var base := json[..into0];
    assert base + t[start..start] == base;
    CopyMore(json, t, into0, start, base, start);
    into, pos := into0 + 1, start + 1;
    while json[pos] != '\0' && json[pos] != '\"'
      invariant start < pos <= |t| && into - into0 == pos - start && Unread(json, t, into, pos)
      invariant json[..into] == base + t[start..pos]
      invariant SameEnd(t, start + 1, pos)
      decreases |t| - pos
    {
      var more;
      more, into, pos := CopyUnit(json, t, into, pos, base, start);
      if !more { return false, into, pos; }
    }
    SizingStep(t, pos);
    if json[pos] == '\0' { return false, into, pos; }
    CopyMore(json, t, into, pos, base, start);
    return true, into + 1, pos + 1;
  }

  /** The sizing scans from p and q come to the same end. */
  ghost predicate SameEnd(t: string, p: nat, q: nat)
    requires p <= |t| && q <= |t|
  {
    if Sizing(t, q).Unbounded? then Sizing(t, p).Unbounded?
    else Sizing(t, p).At? && Sizing(t, p).end == Sizing(t, q).end
  }

  lemma {:induction false} SizingStep(t: string, p: nat)
    requires CString(t) && p <= |t|
    ensures if p == |t| || t[p] == '\"' then Sizing(t, p) == At(p, 0)
            else if t[p] != '\\' then SameEnd(t, p, p + 1)
            else if p + 1 == |t| then Sizing(t, p).Unbounded? else SameEnd(t, p, p + 2)
    ensures p < |t| ==> t[p] != '\0'
  {
  }

  /** Skips a double-slash comment, up to the end of its line. */
  method SkipLine(json: array<char>, ghost t: string, ghost into: nat, start: nat) returns (pos: nat)
    requires CString(t) && Unread(json, t, into, start)
    ensures pos == LineEnd(t, start)
  {
    pos := start;
    while json[pos] != '\0' && json[pos] != '\n'
      invariant start <= pos <= |t| && LineEnd(t, pos) == LineEnd(t, start)
      decreases |t| - pos
    {
      pos := pos + 1;
    }
  }

  /** The loop that looks for the end of a block comment. */
  method SkipBlock(json: array<char>, ghost t: string, ghost into: nat, start: nat) returns (pos: nat)
    requires CString(t) && Unread(json, t, into, start)
    ensures pos == BlockEnd(t, start) && (json[pos] != '\0' <==> pos + 2 <= |t|)
  {
    pos := start;
    while json[pos] != '\0' && !(json[pos] == '*' && json[pos + 1] == '/')
      invariant start <= pos <= |t| && BlockEnd(t, pos) == BlockEnd(t, start)
      decreases |t| - pos
    {
      pos := pos + 1;
    }
  }

  /** One turn of the loop of cJSON_Minify; not ok means that it ran past the terminator. */
  method MinifyStep(json: array<char>, ghost t: string, into0: nat, start: nat) returns (ok: bool, into: nat, pos: nat)
    requires CString(t) && Unread(json, t, into0, start) && start < |t|
    modifies json
    ensures if ok
            then start < pos && Unread(json, t, into, pos)
                 && Then(old(json[..into0]), MinifyFrom(t, start)) == Then(json[..into], MinifyFrom(t, pos))
            else MinifyFrom(t, start).Unterminated?
  {
    hide Sizing, LineEnd, BlockEnd;
    ok, into, pos := true, into0, start;
    var c := json[start];
    if c == ' ' || c == '\t' || c == '\r' || c == '\n' {
      pos := pos + 1;
    } else if c == '/' && json[pos + 1] == '/' {
      pos := SkipLine(json, t, into, pos + 1);
    } else if c == '/' && json[pos + 1] == '*' {
      pos := SkipBlock(json, t, into, pos);
      ok, pos := json[pos] != '\0', pos + 2;
    } else if c == '\"' {
      ok, into, pos := CopyLiteral(json, t, into, pos);
      if ok { ThenThen(old(json[..into0]), t[start..pos], MinifyFrom(t, pos)); }
    } else {
      Copy(json, t, into, pos);
      into, pos := into + 1, pos + 1;
      ThenThen(old(json[..into0]), [c], MinifyFrom(t, pos));
    }
  }

  /** cJSON_Minify; it reports whether it stopped at the terminator. */
  method Minify(json: array<char>, ghost t: string) returns (ok: bool)
    requires CString(t) && Unread(json, t, 0, 0)
    modifies json
    ensures ok == MinifyFrom(t, 0).Left?
    ensures ok ==> Holds(json, 0, MinifyFrom(t, 0).s)
  {
    var into: nat, pos: nat := 0, 0;
    assert Then(json[..0], MinifyFrom(t, 0)) == MinifyFrom(t, 0);
    while json[pos] != '\0'
      invariant Unread(json, t, into, pos)
      invariant MinifyFrom(t, 0) == Then(json[..into], MinifyFrom(t, pos))
      decreases |t| - pos
    {
      var more, into', pos' := MinifyStep(json, t, into, pos);
      if !more { return false; }
      into, pos := into', pos';
    }
    json[into] := '\0';
    assert json[..into] + "" == json[..into] == json[0..into];
    ok := true;
  }
}
