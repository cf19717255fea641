/** The layout of formatted text, stated on the text alone. */
module Layout {
  import opened CText
  import opened Numbers
  import opened Strings
  import opened Quoting
  import opened Json
  import opened RoundTrip

  /** How many tabs stand from position i on. */
  function TabRun(t: string, i: nat): (n: nat)
    decreases |t| - i
  {
    if CharAt(t, i) == '\t' then 1 + TabRun(t, i + 1) else 0
  }

  /**
   From position i on, where d brackets and braces are open, everything outside
   string literals is laid out: a line starts with as many tabs as are open, or one
   less if it starts with a closing brace; a comma is followed by a space or a new
   line, a colon by a tab, and an opening brace by a new line; and in the end
   everything is closed.
   */
  predicate LaidOut(t: string, i: nat, d: nat)
    decreases |t| - i
  {
    if i >= |t| then d == 0
    else
      match t[i]
      case '\"' => Sizing(t, i + 1).At? && Sizing(t, i + 1).end < |t| && LaidOut(t, Sizing(t, i + 1).end + 1, d)
      case '[' => LaidOut(t, i + 1, d + 1)
      case '{' => CharAt(t, i + 1) == '\n' && LaidOut(t, i + 1, d + 1)
      case ']' => d > 0 && LaidOut(t, i + 1, d - 1)
      case '}' => d > 0 && LaidOut(t, i + 1, d - 1)
      case '\n' =>
        var n := TabRun(t, i + 1);
        n == (if CharAt(t, i + 1 + n) == '}' then d - 1 else d) && LaidOut(t, i + 1, d)
      case ',' => (CharAt(t, i + 1) == ' ' || CharAt(t, i + 1) == '\n') && LaidOut(t, i + 1, d)
      case ':' => CharAt(t, i + 1) == '\t' && LaidOut(t, i + 1, d)
      case _ => LaidOut(t, i + 1, d)
  }

  /** Characters that the layout says nothing about. */
  predicate Neutral(s: string) {
    forall k | 0 <= k < |s| :: s[k] !in "\"[]{}\n,:"
  }

  lemma {:induction false} NeutralPasses(t: string, i: nat, s: string, d: nat)
    requires Occurs(t, i, s) && Neutral(s)
    ensures i + |s| <= |t| && LaidOut(t, i, d) == LaidOut(t, i + |s|, d)
    decreases |s|
  {
    if s != "" {
      NeutralPasses(t, i + 1, s[1..], d);
    }
  }

  lemma {:induction false} TabsRun(t: string, i: nat, n: nat)
    requires Occurs(t, i, Tabs(n)) && CharAt(t, i + n) != '\t'
    ensures TabRun(t, i) == n
    decreases n
  {
    if n > 0 {
      OccursChar(t, i, Tabs(n), 0);
      assert Tabs(n)[1..] == Tabs(n - 1);
      TabsRun(t, i + 1, n - 1);
    }
  }

  /** A literal is passed as a whole. */
  lemma {:induction false} QuotePasses(t: string, i: nat, s: string, d: nat)
    requires CString(s) && Occurs(t, i, Quote(s))
    ensures i + |Quote(s)| <= |t| && LaidOut(t, i, d) == LaidOut(t, i + |Quote(s)|, d)
    ensures CharAt(t, i) == '\"'
  {
    hide Escaped, Sizing, Occurs, Decode, LaidOut;
    var e := Escaped(s);
    OccursConcat(t, i, "\"" + e, "\"");
    OccursConcat(t, i, "\"", e);
    OccursChar(t, i, "\"", 0);
    OccursChar(t, i + 1 + |e|, "\"", 0);
    EscapedReads(t, i + 1, s);
    LiteralStep(t, i, d);
  }

  lemma {:induction false} LiteralStep(t: string, i: nat, d: nat)
    requires i < |t| && t[i] == '\"' && Sizing(t, i + 1).At? && Sizing(t, i + 1).end < |t|
    ensures LaidOut(t, i, d) == LaidOut(t, Sizing(t, i + 1).end + 1, d)
  {
  }

  lemma {:induction false} DigitsNeutral(n: nat)
    ensures Neutral(Digits(n))
  {
  }

  lemma {:induction false} ScalarNeutral(v: Json, depth: nat)
    requires Printable(v) && !v.String? && !v.Array? && !v.Object?
    ensures Neutral(Text(v, depth, true))
  {
    if v.Number? {
      DigitsNeutral(if v.valuedouble.Floor < 0 then -v.valuedouble.Floor else v.valuedouble.Floor);
    }
  }

  /** The formatted text of a value is laid out, at the depth at which it stands. */
  lemma {:induction false} ValuePasses(t: string, i: nat, v: Json, depth: nat)
    requires Printable(v) && Occurs(t, i, Text(v, depth, true))
    ensures i + |Text(v, depth, true)| <= |t|
    ensures LaidOut(t, i, depth) == LaidOut(t, i + |Text(v, depth, true)|, depth)
    decreases v, 0
  {
    hide LaidOut, Occurs, Neutral, Quote, ItemsText, MembersText;
    match v {
      case String(s) => QuotePasses(t, i, s, depth);
      case Array(items) => ArrayPasses(t, i, items, depth);
      case Object(members) => ObjectPasses(t, i, members, depth);
      case _ =>
        ScalarNeutral(v, depth);
        NeutralPasses(t, i, Text(v, depth, true), depth);
    }
  }

  lemma {:induction false} OpenStep(t: string, i: nat, d: nat)
    requires i < |t|
    ensures t[i] == '[' || (t[i] == '{' && CharAt(t, i + 1) == '\n') ==> LaidOut(t, i, d) == LaidOut(t, i + 1, d + 1)
    ensures t[i] == ']' || t[i] == '}' ==> LaidOut(t, i, d + 1) == LaidOut(t, i + 1, d)
  {
  }

  lemma {:induction false} ArrayPasses(t: string, i: nat, items: seq<Json>, depth: nat)
    requires PrintableItems(items) && Occurs(t, i, Text(Array(items), depth, true))
    ensures i + |Text(Array(items), depth, true)| <= |t|
    ensures LaidOut(t, i, depth) == LaidOut(t, i + |Text(Array(items), depth, true)|, depth)
    decreases items, 2
  {
    hide LaidOut, Occurs, ItemsText;
    ArrayText(items, depth);
    var inner := if items == [] then "" else ItemsText(items, depth + 1, true);
    OccursThree(t, i, "[", inner, "]");
    OccursChar(t, i, "[", 0);
    OccursChar(t, i + 1 + |inner|, "]", 0);
    OpenStep(t, i, depth);
    OpenStep(t, i + 1 + |inner|, depth);
    if items != [] {
      ItemsPass(t, i + 1, items, depth + 1);
    }
  }

  lemma {:induction false} ArrayText(items: seq<Json>, depth: nat)
    requires PrintableItems(items)
    ensures Text(Array(items), depth, true) ==
              "[" + (if items == [] then "" else ItemsText(items, depth + 1, true)) + "]"
  {
    hide ItemsText;
  }

  lemma {:induction false} ItemsPass(t: string, i: nat, items: seq<Json>, depth: nat)
    requires PrintableItems(items) && Occurs(t, i, ItemsText(items, depth, true))
    ensures i + |ItemsText(items, depth, true)| <= |t|
    ensures LaidOut(t, i, depth) == LaidOut(t, i + |ItemsText(items, depth, true)|, depth)
    decreases items, 1
  {
    hide LaidOut, Occurs, Text, ItemsText, ItemEnd;
    if items != [] {
      var text, end := Text(items[0], depth, true), ItemEnd(|items| == 1, true);
      var rest := ItemsText(items[1..], depth, true);
      ItemsParts(items, depth, true);
      OccursThree(t, i, text, end, rest);
      ValuePasses(t, i, items[0], depth);
      ItemEndPasses(t, i + |text|, |items| == 1, depth);
      ItemsPass(t, i + |text| + |end|, items[1..], depth);
    } else {
      NoItemsPass(t, i, items, depth);
    }
  }

  lemma {:induction false} NoItemsPass(t: string, i: nat, items: seq<Json>, depth: nat)
    requires items == [] && Occurs(t, i, ItemsText(items, depth, true))
    ensures i <= |t| && ItemsText(items, depth, true) == ""
  {
  }

  lemma {:induction false} ItemEndPasses(t: string, i: nat, last: bool, d: nat)
    requires Occurs(t, i, ItemEnd(last, true))
    ensures LaidOut(t, i, d) == LaidOut(t, i + |ItemEnd(last, true)|, d)
  {
    if !last {
      OccursChar(t, i, ", ", 0);
      OccursChar(t, i, ", ", 1);
    }
  }

  lemma {:induction false} ObjectPasses(t: string, i: nat, members: seq<Member>, depth: nat)
    requires PrintableMembers(members) && Occurs(t, i, Text(Object(members), depth, true))
    ensures i + |Text(Object(members), depth, true)| <= |t|
    ensures LaidOut(t, i, depth) == LaidOut(t, i + |Text(Object(members), depth, true)|, depth)
    decreases members, 2
  {
    hide LaidOut, Occurs, MembersText, Text, Tabs;
    ObjectText(members, depth);
    var inner := if members == [] then "" else MembersText(members, depth + 1, true);
    var open, close := "{" + "\n", Tabs(depth) + "}";
    OccursThree(t, i, open, inner, close);
    OccursChar(t, i, open, 0);
    OccursChar(t, i, open, 1);
    OpenStep(t, i, depth);
    var e := i + 2 + |inner|;
    if members == [] {
      CloseLine(t, i + 1, depth);
    } else {
      MembersLine(t, i + 1, members, depth + 1);
      MembersPass(t, i + 2, members, depth);
    }
    OccursConcat(t, e, Tabs(depth), "}");
    OccursChar(t, e + depth, "}", 0);
    TabsNeutral(depth);
    NeutralPasses(t, e, Tabs(depth), depth + 1);
    OpenStep(t, e + depth, depth);
  }

  lemma {:induction false} TabsNeutral(n: nat)
    ensures Neutral(Tabs(n)) && |Tabs(n)| == n
  {
  }

  lemma {:induction false} ObjectText(members: seq<Member>, depth: nat)
    requires PrintableMembers(members)
    ensures Text(Object(members), depth, true) ==
            ("{" + "\n") + (if members == [] then "" else MembersText(members, depth + 1, true)) + (Tabs(depth) + "}")
  {
    hide MembersText, Tabs;
    if members == [] {
      assert "{" + ("\n" + Tabs(depth)) + "}" == ("{" + "\n") + "" + (Tabs(depth) + "}");
    } else {
      var m := MembersText(members, depth + 1, true);
      assert ("{" + "\n" + m) + Tabs(depth) + "}" == ("{" + "\n") + m + (Tabs(depth) + "}");
    }
  }

  /** The line of a closing brace. */
  lemma {:induction false} CloseLine(t: string, i: nat, depth: nat)
    requires i < |t| && t[i] == '\n' && Occurs(t, i + 1, Tabs(depth) + "}")
    ensures LaidOut(t, i, depth + 1) == LaidOut(t, i + 1, depth + 1)
  {
    OccursConcat(t, i + 1, Tabs(depth), "}");
    OccursChar(t, i + 1 + depth, "}", 0);
    TabsRun(t, i + 1, depth);
  }

  /** The line of a member. */
  lemma {:induction false} MembersLine(t: string, i: nat, members: seq<Member>, depth: nat)
    requires PrintableMembers(members) && members != []
    requires i < |t| && t[i] == '\n' && Occurs(t, i + 1, MembersText(members, depth, true))
    ensures LaidOut(t, i, depth) == LaidOut(t, i + 1, depth)
  {
    hide MembersText, Text, Quote, Occurs, MemberStart, MemberEnd, LaidOut;
    var m := members[0];
    MembersParts(members, depth, true);
    var start, text := MemberStart(m.name, depth, true), Text(m.value, depth, true);
    OccursThree(t, i + 1, start + text, MemberEnd(|members| == 1, true), MembersText(members[1..], depth, true));
    OccursConcat(t, i + 1, start, text);
    StartParts(m.name, depth, true);
    var quoted := Quote(m.name);
    OccursThree(t, i + 1, Tabs(depth), quoted, ":" + "\t");
    OccursChar(t, i + 1 + depth, quoted, 0);
    TabsRun(t, i + 1, depth);
    LineStep(t, i, depth);
  }

  lemma {:induction false} LineStep(t: string, i: nat, d: nat)
    requires i < |t| && t[i] == '\n' && TabRun(t, i + 1) == d && CharAt(t, i + 1 + d) != '}'
    ensures LaidOut(t, i, d) == LaidOut(t, i + 1, d)
  {
  }

  /** Members, up to the line of the closing brace, which stands one level up. */
  lemma {:induction false} MembersPass(t: string, i: nat, members: seq<Member>, depth: nat)
    requires PrintableMembers(members) && members != []
    requires Occurs(t, i, MembersText(members, depth + 1, true))
    requires Occurs(t, i + |MembersText(members, depth + 1, true)|, Tabs(depth) + "}")
    ensures i + |MembersText(members, depth + 1, true)| <= |t|
    ensures LaidOut(t, i, depth + 1) == LaidOut(t, i + |MembersText(members, depth + 1, true)|, depth + 1)
    decreases members, 1
  {
    hide LaidOut, Occurs, Text, MembersText, MemberEnd, MemberStart, Tabs;
    var m, last, rest := members[0], |members| == 1, MembersText(members[1..], depth + 1, true);
    var start, text, end := MemberStart(m.name, depth + 1, true), Text(m.value, depth + 1, true), MemberEnd(last, true);
    MembersParts(members, depth + 1, true);
    OccursThree(t, i, start + text, end, rest);
    OccursConcat(t, i, start, text);
    StartPasses(t, i, m.name, depth + 1);
    ValuePasses(t, i + |start|, m.value, depth + 1);
    var n := i + |start| + |text|;
    EndParts(t, n, last);
    if last {
      NoMoreMembers(members, depth + 1);
      CloseLine(t, n, depth);
    } else {
      CommaStep(t, n, depth + 1);
      MembersLine(t, n + 1, members[1..], depth + 1);
      MembersPass(t, n + 2, members[1..], depth);
    }
  }

  lemma {:induction false} NoMoreMembers(members: seq<Member>, depth: nat)
    requires PrintableMembers(members) && |members| == 1
    ensures MembersText(members[1..], depth, true) == ""
  {
  }

  lemma {:induction false} EndParts(t: string, n: nat, last: bool)
    requires Occurs(t, n, MemberEnd(last, true))
    ensures |MemberEnd(last, true)| == if last then 1 else 2
    ensures if last then n < |t| && t[n] == '\n' else n + 1 < |t| && t[n] == ',' && t[n + 1] == '\n'
  {
    OccursChar(t, n, MemberEnd(last, true), 0);
    if !last {
      OccursChar(t, n, MemberEnd(last, true), 1);
    }
  }

  lemma {:induction false} CommaStep(t: string, n: nat, d: nat)
    requires n + 1 < |t| && t[n] == ',' && t[n + 1] == '\n'
    ensures LaidOut(t, n, d) == LaidOut(t, n + 1, d)
  {
  }

  lemma {:induction false} StartPasses(t: string, i: nat, name: string, depth: nat)
    requires CString(name) && Occurs(t, i, MemberStart(name, depth, true))
    ensures i + |MemberStart(name, depth, true)| <= |t|
    ensures LaidOut(t, i, depth) == LaidOut(t, i + |MemberStart(name, depth, true)|, depth)
  {
    hide LaidOut, Occurs, Quote, MemberStart, Tabs;
    var quoted := Quote(name);
    StartParts(name, depth, true);
    OccursThree(t, i, Tabs(depth), quoted, ":" + "\t");
    TabsNeutral(depth);
    NeutralPasses(t, i, Tabs(depth), depth);
    QuotePasses(t, i + depth, name, depth);
    ColonStep(t, i + depth + |quoted|, depth);
  }

  lemma {:induction false} ColonStep(t: string, i: nat, d: nat)
    requires Occurs(t, i, ":" + "\t")
    ensures LaidOut(t, i, d) == LaidOut(t, i + 2, d)
  {
    OccursChar(t, i, ":" + "\t", 0);
    OccursChar(t, i, ":" + "\t", 1);
  }

  /** Every formatted text is laid out. */
  lemma {:induction false} FormattedLaidOut(v: Json)
    requires Printable(v)
    ensures LaidOut(Text(v, 0, true), 0, 0)
  {
    hide Text;
    var t := Text(v, 0, true);
    assert t[0..] == t;
    OccursSuffix(t, 0);
    ValuePasses(t, 0, v, 0);
  }
}
