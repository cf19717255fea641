/** Parsing undoes printing. */
module RoundTrip {
  import opened CText
  import opened Numbers
  import opened Strings
  import opened Quoting
  import opened Json
  import opened Parser

  /** The tree that parsing gives for a printed tree: the same, with valueint computed from valuedouble. */
  function Norm(v: Json): (w: Json)
    decreases v, 0
  {
    match v
    case Number(_, d) => Json.Number(d.Floor, d)
    case Array(items) => Array(NormItems(items))
    case Object(members) => Object(NormMembers(members))
    case _ => v
  }

  function NormItems(items: seq<Json>): (r: seq<Json>)
    decreases items
  {
    if items == [] then [] else [Norm(items[0])] + NormItems(items[1..])
  }

  function NormMembers(members: seq<Member>): (r: seq<Member>)
    decreases members
  {
    if members == [] then [] else [Member(members[0].name, Norm(members[0].value))] + NormMembers(members[1..])
  }

  /** A text may be followed by this without changing how it parses. */
  predicate Separates(v: Json, t: string, end: nat) {
    v.Number? ==> !Continues(CharAt(t, end))
  }

  predicate Blank(s: string) {
    forall i | 0 <= i < |s| :: '\0' < s[i] <= ' '
  }

  /** skip passes blank text. */
  lemma {:induction false} SkipBlank(t: string, i: nat, s: string)
    requires Occurs(t, i, s) && Blank(s)
    ensures Skip(t, i) == Skip(t, i + |s|)
    decreases |s|
  {
    if s != "" {
      assert s == [s[0]] + s[1..];
      OccursConcat(t, i, [s[0]], s[1..]);
      OccursChar(t, i, s, 0);
      SkipBlank(t, i + 1, s[1..]);
    }
  }

  lemma {:induction false} SkipStays(t: string, i: nat)
    requires i < |t| && t[i] > ' '
    ensures Skip(t, i) == i
  {
  }

  /** The first character of a value's text: no blank, and no closing bracket. */
  lemma {:induction false} TextStarts(t: string, i: nat, v: Json, depth: nat, fmt: bool)
    requires Printable(v) && Occurs(t, i, Text(v, depth, fmt))
    ensures i < |t| && CharAt(t, i) > ' ' && CharAt(t, i) != ']' && Skip(t, i) == i
  {
    OccursChar(t, i, Text(v, depth, fmt), 0);
  }

  lemma {:induction false} OccursThree(t: string, i: nat, a: string, b: string, c: string)
    requires Occurs(t, i, a + b + c)
    ensures i + |a| + |b| + |c| <= |t|
    ensures Occurs(t, i, a) && Occurs(t, i + |a|, b) && Occurs(t, i + |a| + |b|, c)
  {
    OccursConcat(t, i, a + b, c);
    OccursConcat(t, i, a, b);
  }

  /** What precedes the value of a member parses as its name and the colon. */
  lemma {:induction false} StartReads(t: string, i: nat, name: string, depth: nat, fmt: bool)
    requires CString(name) && Occurs(t, i, MemberStart(name, depth, fmt))
    ensures i <= |t| && StringAt(t, Skip(t, i)).Ok? && StringAt(t, Skip(t, i)).value == name
    ensures var j := Skip(t, StringAt(t, Skip(t, i)).next);
            j < |t| && t[j] == ':' && Skip(t, j + 1) == Skip(t, i + |MemberStart(name, depth, fmt)|)
  {
    hide MemberStart, Quote, Tabs, Formatted, Blank, StringAt, Occurs, Skip;
    var indent, quoted, gap := Formatted(fmt, Tabs(depth)), Quote(name), Formatted(fmt, "\t");
    StartParts(name, depth, fmt);
    OccursThree(t, i, indent, quoted, ":" + gap);
    SkipBlank(t, i, indent);
    OccursChar(t, i + |indent|, quoted, 0);
    SkipStays(t, i + |indent|);
    ParseQuoted(t, i + |indent|, name);
    var j := i + |indent| + |quoted|;
    OccursConcat(t, j, ":", gap);
    OccursChar(t, j, ":", 0);
    SkipStays(t, j);
    SkipBlank(t, j + 1, gap);
  }

  lemma {:induction false} StartParts(name: string, depth: nat, fmt: bool)
    requires CString(name)
    ensures MemberStart(name, depth, fmt) == Formatted(fmt, Tabs(depth)) + Quote(name) + (":" + Formatted(fmt, "\t"))
    ensures |Quote(name)| > 0 && Quote(name)[0] == '\"' && Blank(Formatted(fmt, Tabs(depth)))
              && Blank(Formatted(fmt, "\t"))
  {
  }

  /** Parsing at the position of a printed value gives the value back, and ends after it. */
  lemma {:induction false} ValueReads(t: string, i: nat, v: Json, depth: nat, fmt: bool)
    requires Printable(v) && Occurs(t, i, Text(v, depth, fmt)) && Separates(v, t, i + |Text(v, depth, fmt)|)
    ensures ValueAt(t, i) == Ok(Norm(v), i + |Text(v, depth, fmt)|)
    decreases v, 0
  {
    var text := Text(v, depth, fmt);
    TextStarts(t, i, v, depth, fmt);
    OccursChar(t, i, text, 0);
    match v {
      case Null =>
      case False =>
      case True =>
      case Number(_, d) => NumberReads(t, i, d);
      case String(s) => StringReads(t, i, s);
      case Array(items) => ArrayReads(t, i, items, depth, fmt);
      case Object(members) => ObjectReads(t, i, members, depth, fmt);
    }
  }

  lemma {:induction false} NumberReads(t: string, i: nat, d: real)
    requires Integral(d) && Occurs(t, i, Decimal(d.Floor)) && !Continues(CharAt(t, i + |Decimal(d.Floor)|))
    ensures ValueAt(t, i) == Ok(Json.Number(d.Floor, d), i + |Decimal(d.Floor)|)
  {
    OccursChar(t, i, Decimal(d.Floor), 0);
    hide Decimal;
    ScanDecimal(t, i, d.Floor);
  }

  lemma {:induction false} StringReads(t: string, i: nat, s: string)
    requires CString(s) && Occurs(t, i, Quote(s))
    ensures ValueAt(t, i) == Ok(String(s), i + |Quote(s)|)
  {
    OccursChar(t, i, Quote(s), 0);
    ParseQuoted(t, i, s);
  }

  lemma {:induction false} ArrayReads(t: string, i: nat, items: seq<Json>, depth: nat, fmt: bool)
    requires PrintableItems(items) && Occurs(t, i, Text(Array(items), depth, fmt))
    ensures ValueAt(t, i) == Ok(Array(NormItems(items)), i + |Text(Array(items), depth, fmt)|)
    decreases items, 2
  {
    if items == [] {
      OccursChar(t, i, "[]", 0);
      OccursChar(t, i, "[]", 1);
      ArrayOpens(t, i);
      SkipStays(t, i + 1);
    } else {
      assert Text(Array(items), depth, fmt) == "[" + ItemsText(items, depth + 1, fmt) + "]";
      hide Text, ItemsText, NormItems, Occurs, ValueAt;
      ItemsInBrackets(t, i, items, depth + 1, fmt);
    }
  }

  lemma {:induction false} ItemsInBrackets(t: string, i: nat, items: seq<Json>, depth: nat, fmt: bool)
    requires PrintableItems(items) && items != [] && Occurs(t, i, "[" + ItemsText(items, depth, fmt) + "]")
    ensures ValueAt(t, i) == Ok(Array(NormItems(items)), i + 2 + |ItemsText(items, depth, fmt)|)
    decreases items, 1
  {
    var inner := ItemsText(items, depth, fmt);
    assert [] + NormItems(items) == NormItems(items);
    hide *;
    OccursThree(t, i, "[", inner, "]");
    OccursChar(t, i, "[", 0);
    OccursChar(t, i + 1 + |inner|, "]", 0);
    ArrayOpens(t, i);
    ItemsStart(t, i + 1, items, depth, fmt);
    ItemsRead(t, i + 1, i + 1, items, depth, fmt, []);
  }

  lemma {:induction false} ItemsParts(items: seq<Json>, depth: nat, fmt: bool)
    requires PrintableItems(items) && items != []
    ensures ItemsText(items, depth, fmt) ==
              Text(items[0], depth, fmt) + ItemEnd(|items| == 1, fmt) + ItemsText(items[1..], depth, fmt)
    ensures |ItemEnd(true, fmt)| == 0
  {
  }

  lemma {:induction false} ItemsStart(t: string, i: nat, items: seq<Json>, depth: nat, fmt: bool)
    requires PrintableItems(items) && items != [] && Occurs(t, i, ItemsText(items, depth, fmt))
    ensures i < |t| && Skip(t, i) == i && CharAt(t, i) != ']' && Occurs(t, i, Text(items[0], depth, fmt))
    ensures var n := i + |Text(items[0], depth, fmt)|;
            && Occurs(t, n, ItemEnd(|items| == 1, fmt))
            && Occurs(t, n + |ItemEnd(|items| == 1, fmt)|, ItemsText(items[1..], depth, fmt))
  {
    hide Text, ItemsText, ItemEnd, Occurs, Skip;
    ItemsParts(items, depth, fmt);
    OccursThree(t, i, Text(items[0], depth, fmt), ItemEnd(|items| == 1, fmt), ItemsText(items[1..], depth, fmt));
    TextStarts(t, i, items[0], depth, fmt);
  }

  /** The items of an array parse from any position that only blanks separate from them. */
  lemma {:induction false} ItemsRead(t: string, p: nat, i: nat, items: seq<Json>, depth: nat, fmt: bool, acc: seq<Json>)
    requires PrintableItems(items) && items != [] && Occurs(t, i, ItemsText(items, depth, fmt))
    requires CharAt(t, i + |ItemsText(items, depth, fmt)|) == ']'
    requires p <= i && Skip(t, p) == Skip(t, i)
    ensures ItemsAt(t, p, acc) == Ok(Array(acc + NormItems(items)), i + |ItemsText(items, depth, fmt)| + 1)
    decreases items, 0
  {
    hide Text, ItemsText, ItemsAt, ValueAt, Occurs, NormItems, Skip, Printable, ItemEnd;
    var v, rest, last := items[0], items[1..], |items| == 1;
    var text, end := Text(v, depth, fmt), ItemEnd(last, fmt);
    ItemsParts(items, depth, fmt);
    ItemsStart(t, i, items, depth, fmt);
    NormItemsUnfold(items, acc);
    var n := i + |text|;
    if last {
      NoItems(rest, acc + [Norm(v)], depth, fmt);
      LastItemReads(t, p, i, v, depth, fmt, acc);
    } else {
      SeparatorReads(t, n, fmt);
      ValueReads(t, i, v, depth, fmt);
      ItemsRead(t, n + 1, n + |end|, rest, depth, fmt, acc + [Norm(v)]);
      ItemsStep(t, p, acc);
    }
  }

  lemma {:induction false} NoItems(items: seq<Json>, acc: seq<Json>, depth: nat, fmt: bool)
    requires |items| == 0
    ensures ItemsText(items, depth, fmt) == "" && acc + NormItems(items) == acc
  {
  }

  lemma {:induction false} LastItemReads(t: string, p: nat, i: nat, v: Json, depth: nat, fmt: bool, acc: seq<Json>)
    requires Printable(v) && Occurs(t, i, Text(v, depth, fmt)) && CharAt(t, i + |Text(v, depth, fmt)|) == ']'
    requires p <= i <= |t| && Skip(t, p) == Skip(t, i) == i
    ensures ItemsAt(t, p, acc) == Ok(Array(acc + [Norm(v)]), i + |Text(v, depth, fmt)| + 1)
    decreases v, 1
  {
    hide Text, ItemsText, ItemsAt, ValueAt, Occurs;
    ValueReads(t, i, v, depth, fmt);
    SkipStays(t, i + |Text(v, depth, fmt)|);
    ItemsStep(t, p, acc);
  }

  lemma {:induction false} NormItemsUnfold(items: seq<Json>, acc: seq<Json>)
    requires items != []
    ensures acc + NormItems(items) == (acc + [Norm(items[0])]) + NormItems(items[1..])
  {
    var first, rest := [Norm(items[0])], NormItems(items[1..]);
    assert NormItems(items) == first + rest;
    hide *;
    assert acc + (first + rest) == (acc + first) + rest;
  }

  /** The comma after an item, and the blank after the comma. */
  lemma {:induction false} SeparatorReads(t: string, n: nat, fmt: bool)
    requires Occurs(t, n, ItemEnd(false, fmt))
    ensures n < |t| && t[n] == ',' && Skip(t, n) == n && Skip(t, n + 1) == Skip(t, n + |ItemEnd(false, fmt)|)
  {
    var gap := Formatted(fmt, " ");
    OccursConcat(t, n, ",", gap);
    OccursChar(t, n, ",", 0);
    SkipBlank(t, n + 1, gap);
  }

  lemma {:induction false} ObjectReads(t: string, i: nat, members: seq<Member>, depth: nat, fmt: bool)
    requires PrintableMembers(members) && Occurs(t, i, Text(Object(members), depth, fmt))
    ensures ValueAt(t, i) == Ok(Object(NormMembers(members)), i + |Text(Object(members), depth, fmt)|)
    decreases members, 2
  {
    hide Text, MembersText, NormMembers, Occurs, ValueAt, Blank;
    ObjectParts(members, depth, fmt);
    if members == [] {
      NoMembersRead(t, i, Formatted(fmt, "\n" + Tabs(depth)));
    } else {
      MembersInBraces(t, i, Formatted(fmt, "\n"), members, Formatted(fmt, Tabs(depth)), depth + 1, fmt);
    }
  }

  lemma {:induction false} ObjectParts(members: seq<Member>, depth: nat, fmt: bool)
    requires PrintableMembers(members)
    ensures var open, close := Formatted(fmt, "\n"), Formatted(fmt, Tabs(depth));
            && Blank(open) && Blank(close) && Blank(Formatted(fmt, "\n" + Tabs(depth)))
            && Text(Object(members), depth, fmt) ==
               if members == [] then "{" + Formatted(fmt, "\n" + Tabs(depth)) + "}"
               else "{" + open + MembersText(members, depth + 1, fmt) + (close + "}")
    ensures NormMembers([]) == []
  {
    var open, close := Formatted(fmt, "\n"), Formatted(fmt, Tabs(depth));
    if members != [] {
      var body := "{" + open + MembersText(members, depth + 1, fmt);
      assert body + close + "}" == body + (close + "}");
    }
  }

  lemma {:induction false} NoMembersRead(t: string, i: nat, gap: string)
    requires Blank(gap) && Occurs(t, i, "{" + gap + "}")
    ensures ValueAt(t, i) == Ok(Object([]), i + 2 + |gap|)
  {
    OccursThree(t, i, "{", gap, "}");
    OccursChar(t, i, "{", 0);
    OccursChar(t, i + 1 + |gap|, "}", 0);
    SkipBlank(t, i + 1, gap);
    SkipStays(t, i + 1 + |gap|);
    hide ValueAt;
    ObjectOpens(t, i);
  }

  lemma {:induction false} MembersInBraces(t: string, i: nat, open: string, members: seq<Member>, close: string,
                                           depth: nat, fmt: bool)
    requires PrintableMembers(members) && members != [] && Blank(open) && Blank(close)
    requires Occurs(t, i, "{" + open + MembersText(members, depth, fmt) + (close + "}"))
    ensures ValueAt(t, i) == Ok(Object(NormMembers(members)), i + 2 + |open| + |MembersText(members, depth,
              fmt)| + |close|)
    decreases members, 1
  {
    hide MembersText, NormMembers, Occurs, ValueAt, MembersAt, Blank, Skip, Printable;
    var inner := MembersText(members, depth, fmt);
    assert [] + NormMembers(members) == NormMembers(members);
    OccursThree(t, i, "{" + open, inner, close + "}");
    OccursConcat(t, i, "{", open);
    var n := i + 1 + |open| + |inner|;
    OccursConcat(t, n, close, "}");
    OccursChar(t, i, "{", 0);
    OccursChar(t, n + |close|, "}", 0);
    ObjectOpens(t, i);
    SkipBlank(t, i + 1, open);
    SkipBlank(t, n, close);
    SkipStays(t, n + |close|);
    SkipPasses(t, i + 1);
    MembersStart(t, i + 1 + |open|, members, depth, fmt);
    MembersRead(t, Skip(t, i + 1), i + 1 + |open|, members, n + |close|, depth, fmt, []);
  }

  /** skip is idempotent. */
  lemma {:induction false} SkipPasses(t: string, i: nat)
    requires i <= |t|
    ensures Skip(t, Skip(t, i)) == Skip(t, i)
    decreases |t| - i
  {
    if Skip(t, i) != i {
      SkipPasses(t, i + 1);
    }
  }

  lemma {:induction false} MembersStart(t: string, i: nat, members: seq<Member>, depth: nat, fmt: bool)
    requires PrintableMembers(members) && members != [] && Occurs(t, i, MembersText(members, depth, fmt))
    ensures i <= |t| && CharAt(t, Skip(t, i)) == '\"'
    ensures Occurs(t, i, MemberStart(members[0].name, depth, fmt) + Text(members[0].value, depth, fmt))
    ensures var n := i + |MemberStart(members[0].name, depth, fmt)| + |Text(members[0].value, depth, fmt)|;
            && Occurs(t, n, MemberEnd(|members| == 1, fmt))
            && Occurs(t, n + |MemberEnd(|members| == 1, fmt)|, MembersText(members[1..], depth, fmt))
  {
    hide Text, MembersText, MemberStart, MemberEnd, Occurs, Skip, StringAt;
    var start, text, end := MemberStart(members[0].name, depth, fmt), Text(members[0].value, depth, fmt),
        MemberEnd(|members| == 1, fmt);
    MembersParts(members, depth, fmt);
    OccursThree(t, i, start + text, end, MembersText(members[1..], depth, fmt));
    OccursConcat(t, i, start, text);
    StartReads(t, i, members[0].name, depth, fmt);
    StringStarts(t, Skip(t, i));
  }

  lemma {:induction false} StringStarts(t: string, i: nat)
    requires i <= |t| && StringAt(t, i).Ok?
    ensures CharAt(t, i) == '\"'
  {
  }

  lemma {:induction false} MembersParts(members: seq<Member>, depth: nat, fmt: bool)
    requires PrintableMembers(members) && members != []
    ensures MembersText(members, depth, fmt) ==
              (MemberStart(members[0].name, depth, fmt) + Text(members[0].value, depth, fmt))
              + MemberEnd(|members| == 1, fmt) + MembersText(members[1..], depth, fmt)
  {
  }

  lemma {:induction false} MemberReads(t: string, p: nat, i: nat, m: Member, depth: nat, fmt: bool)
    requires CString(m.name) && Printable(m.value)
    requires Occurs(t, i, MemberStart(m.name, depth, fmt) + Text(m.value, depth, fmt))
    requires Separates(m.value, t, i + |MemberStart(m.name, depth, fmt)| + |Text(m.value, depth, fmt)|)
    requires p <= |t| && i <= |t| && Skip(t, p) == Skip(t, i)
    ensures MemberAt(t, p) ==
            Ok(Member(m.name, Norm(m.value)), i + |MemberStart(m.name, depth, fmt)| + |Text(m.value, depth, fmt)|)
    decreases m, 0
  {
    hide Text, MemberStart, Occurs, ValueAt, StringAt, Separates, Skip, Printable;
    var start, text := MemberStart(m.name, depth, fmt), Text(m.value, depth, fmt);
    OccursConcat(t, i, start, text);
    StartReads(t, i, m.name, depth, fmt);
    TextStarts(t, i + |start|, m.value, depth, fmt);
    ValueReads(t, i + |start|, m.value, depth, fmt);
  }

  lemma {:induction false} LastMemberReads(t: string, p: nat, i: nat, m: Member, close: nat, depth: nat, fmt: bool,
                                           acc: seq<Member>)
    requires CString(m.name) && Printable(m.value)
    requires Occurs(t, i, MemberStart(m.name, depth, fmt) + Text(m.value, depth, fmt))
    requires p <= |t| && i <= |t| && Skip(t, p) == Skip(t, i)
    requires var n := i + |MemberStart(m.name, depth, fmt)| + |Text(m.value, depth, fmt)|;
             n <= |t| && Skip(t, n) == close && Separates(m.value, t, n)
    requires close < |t| && t[close] == '}'
    ensures MembersAt(t, p, acc) == Ok(Object(acc + [Member(m.name, Norm(m.value))]), close + 1)
    decreases m, 1
  {
    hide Text, MemberStart, Occurs, MemberAt, MembersAt, Separates;
    MemberReads(t, p, i, m, depth, fmt);
    MembersStep(t, p, acc);
  }

  /** Neither a comma, a blank nor a closing brace continues a number. */
  lemma {:induction false} EndSeparates(v: Json, t: string, n: nat)
    requires n <= |t| && CharAt(t, Skip(t, n)) in ",}"
    ensures Separates(v, t, n)
  {
  }

  /** The comma after a member, and the line break after the comma. */
  lemma {:induction false} MemberEndReads(t: string, n: nat, last: bool, fmt: bool)
    requires Occurs(t, n, MemberEnd(last, fmt))
    ensures n + |MemberEnd(last, fmt)| <= |t|
    ensures if last then Skip(t, n) == Skip(t, n + |MemberEnd(last, fmt)|)
            else n < |t| && t[n] == ',' && Skip(t, n) == n && Skip(t, n + 1) == Skip(t, n + |MemberEnd(last, fmt)|)
  {
    var gap := Formatted(fmt, "\n");
    OccursConcat(t, n, if last then "" else ",", gap);
    if last {
      SkipBlank(t, n, gap);
    } else {
      OccursChar(t, n, ",", 0);
      SkipBlank(t, n + 1, gap);
    }
  }

  /** The members of an object parse from any position that only blanks separate from them. */
  lemma {:induction false} MembersRead(t: string, p: nat, i: nat, members: seq<Member>, close: nat, depth: nat,
                                       fmt: bool, acc: seq<Member>)
    requires PrintableMembers(members) && members != [] && Occurs(t, i, MembersText(members, depth, fmt))
    requires i + |MembersText(members, depth, fmt)| <= close < |t| && t[close] == '}'
    requires Skip(t, i + |MembersText(members, depth, fmt)|) == close
    requires p <= |t| && Skip(t, p) == Skip(t, i)
    ensures MembersAt(t, p, acc) == Ok(Object(acc + NormMembers(members)), close + 1)
    decreases members, 0
  {
    hide Text, MembersText, MemberStart, MemberEnd, MembersAt, MemberAt, Occurs, NormMembers, Separates, Skip,
        Printable;
    var m, last, rest := members[0], |members| == 1, members[1..];
    var start, text, end := MemberStart(m.name, depth, fmt), Text(m.value, depth, fmt), MemberEnd(last, fmt);
    var n := i + |start| + |text|;
    MembersParts(members, depth, fmt);
    MembersStart(t, i, members, depth, fmt);
    NormMembersUnfold(members, acc);
    MemberEndReads(t, n, last, fmt);
    var acc' := acc + [Member(m.name, Norm(m.value))];
    if last {
      NoMembers(rest, acc', depth, fmt);
      EndSeparates(m.value, t, n);
      LastMemberReads(t, p, i, m, close, depth, fmt, acc);
    } else {
      EndSeparates(m.value, t, n);
      MemberReads(t, p, i, m, depth, fmt);
      MembersRead(t, n + 1, n + |end|, rest, close, depth, fmt, acc');
      MembersStep(t, p, acc);
    }
  }

  lemma {:induction false} NoMembers(members: seq<Member>, acc: seq<Member>, depth: nat, fmt: bool)
    requires |members| == 0
    ensures MembersText(members, depth, fmt) == "" && acc + NormMembers(members) == acc
  {
  }

  lemma {:induction false} NormMembersUnfold(members: seq<Member>, acc: seq<Member>)
    requires members != []
    ensures acc + NormMembers(members) == (acc + [Member(members[0].name, Norm(members[0].value))]) +
              NormMembers(members[1..])
  {
    var first, rest := [Member(members[0].name, Norm(members[0].value))], NormMembers(members[1..]);
    assert NormMembers(members) == first + rest;
    hide *;
    assert acc + (first + rest) == (acc + first) + rest;
  }

  /**
   Parsing undoes printing: a printed tree parses to the same tree, and all of
   the text is consumed, so that requiring the terminator changes nothing.
   */
  lemma {:induction false} ParseUndoesPrint(v: Json, fmt: bool, requireNullTerminated: bool)
    requires Printable(v)
    ensures Parsing(Text(v, 0, fmt), requireNullTerminated) == Ok(Norm(v), |Text(v, 0, fmt)|)
  {
    var t := Text(v, 0, fmt);
    assert t[0..] == t;
    OccursSuffix(t, 0);
    TextStarts(t, 0, v, 0, fmt);
    hide Text;
    ValueReads(t, 0, v, 0, fmt);
  }
}
