/** The allocating printers: print_value and its cases with p == 0, in the memory they allocate. */
module Printer {
  import opened CText
  import opened Numbers
  import opened Quoting
  import opened Json

  lemma {:induction false} DigitsSize(n: nat, k: nat)
    requires k > 0 && n < PowNat(k)
    ensures |Digits(n)| <= k
  {
    if n >= 10 {
      assert k > 1 by { assert PowNat(1) == 10; }
      DigitsSize(n / 10, k - 1);
    }
  }

  lemma {:induction false} DecimalSize(n: int)
    requires INT_MIN <= n <= INT_MAX
    ensures |Decimal(n)| <= 11
  {
    assert PowNat(5) == 100000;
    assert PowNat(10) == 10000000000;
    DigitsSize(if n < 0 then -n else n, 10);
  }

  /** The three cases of print_number: how much it asks for, and what it writes. */
  method NumberForm(valueint: int, d: real) returns (size: nat, text: string)
    requires Integral(d)
    ensures text == Decimal(d.Floor) && |text| < size <= 64
  {
    DecimalSize(d.Floor);
    var gap := valueint as real - d;
    if d == 0.0 {
      size, text := 2, "0";
    } else if (if gap < 0.0 then -gap else gap) <= DBL_EPSILON && d <= INT_MAX as real && d >= INT_MIN as real {
      size, text := 21, Decimal(valueint);
    } else {
      size, text := 64, Decimal(d.Floor);
    }
  }

  lemma {:induction false} DigitsCString(n: nat)
    ensures CString(Digits(n))
  {
  }

  lemma {:induction false} EscapedCString(s: string)
    requires CString(s)
    ensures CString(Escaped(s))
  {
    if s != "" {
      EscapedCString(s[1..]);
    }
  }

  lemma {:induction false} ConcatCString(a: string, b: string)
    requires CString(a) && CString(b)
    ensures CString(a + b)
  {
  }

  lemma {:induction false} QuoteCString(s: string)
    requires CString(s)
    ensures CString(Quote(s))
  {
    EscapedCString(s);
  }

  lemma {:induction false} StartCString(name: string, depth: nat, fmt: bool)
    requires CString(name)
    ensures CString(MemberStart(name, depth, fmt))
  {
    QuoteCString(name);
    hide Quote;
    ConcatCString(Formatted(fmt, Tabs(depth)), Quote(name));
  }

  lemma {:induction false} BracketsCString(open: string, inner: string, indent: string, close: string)
    requires CString(open) && CString(inner) && CString(indent) && CString(close)
    ensures CString(open + inner + close) && CString(open + inner + indent + close)
  {
    ConcatCString(open, inner);
    ConcatCString(open + inner, indent);
    ConcatCString(open + inner + indent, close);
  }

  /** No printed text contains a terminator. */
  lemma {:induction false} TextCString(v: Json, depth: nat, fmt: bool)
    requires Printable(v)
    ensures CString(Text(v, depth, fmt))
    decreases v, 0
  {
    match v
    case String(s) => QuoteCString(s);
    case Number(_, d) => DigitsCString(if d.Floor < 0 then -d.Floor else d.Floor);
    case Array(items) =>
      ItemsCString(items, depth + 1, fmt);
      hide ItemsText;
      BracketsCString("[", ItemsText(items, depth + 1, fmt), "", "]");
    case Object(members) =>
      MembersCString(members, depth + 1, fmt);
      ObjectCString(MembersText(members, depth + 1, fmt), depth, fmt);
      hide MembersText, CString;
    case _ =>
  }

  lemma {:induction false} ObjectCString(inner: string, depth: nat, fmt: bool)
    requires CString(inner)
    ensures CString("{" + Formatted(fmt, "\n" + Tabs(depth)) + "}")
    ensures CString("{" + Formatted(fmt, "\n") + inner + Formatted(fmt, Tabs(depth)) + "}")
  {
    BracketsCString("{" + Formatted(fmt, "\n"), inner, Formatted(fmt, Tabs(depth)), "}");
  }

  lemma {:induction false} ItemsCString(items: seq<Json>, depth: nat, fmt: bool)
    requires PrintableItems(items)
    ensures CString(ItemsText(items, depth, fmt))
    decreases items
  {
    if items != [] {
      TextCString(items[0], depth, fmt);
      ItemsCString(items[1..], depth, fmt);
    }
  }

  lemma {:induction false} MembersCString(members: seq<Member>, depth: nat, fmt: bool)
    requires PrintableMembers(members)
    ensures CString(MembersText(members, depth, fmt))
    decreases members
  {
    if members != [] {
      var start, text, rest := MemberStart(members[0].name, depth, fmt), Text(members[0].value, depth, fmt),
          members[1..];
      var end := MemberEnd(|members| == 1, fmt);
      assert MembersText(members, depth, fmt) == start + text + end + MembersText(rest, depth, fmt);
      StartCString(members[0].name, depth, fmt);
      hide Text, MemberStart, MembersText;
      TextCString(members[0].value, depth, fmt);
      MembersCString(rest, depth, fmt);
      ConcatCString(start, text);
      ConcatCString(start + text, end);
      ConcatCString(start + text + end, MembersText(rest, depth, fmt));
    }
  }

  /** strlen */
  method Strlen(s: array<char>, at: nat, ghost text: string) returns (n: nat)
    requires Holds(s, at, text) && CString(text)
    ensures n == |text|
  {
    n := 0;
    assert n < |text| ==> s[at + n] == text[n] by { ghost var held := s[at..at + |text|]; }
    while s[at + n] != '\0'
      invariant n <= |text|
      invariant s[at + n] == if n < |text| then text[n] else '\0'
      decreases |text| - n
    {
      n := n + 1;
      assert n < |text| ==> s[at + n] == s[at..at + |text|][n];
    }
  }

  /** memcpy of the first n characters of src. */
  method Memcpy(out: array<char>, at: nat, src: array<char>, n: nat) returns (next: nat)
    requires at + n <= out.Length && n <= src.Length && src != out
    modifies out
    ensures next == at + n
    ensures out[..next] == old(out[..at]) + src[..n]
  {
    next := at;
    for k := 0 to n
      invariant next == at + k
      invariant out[..next] == old(out[..at]) + src[..k]
    {
      next := Put(out, next, src[k]);
    }
  }

  /** cJSON_strdup */
  method Strdup(s: string) returns (out: array<char>)
    ensures fresh(out) && Holds(out, 0, s)
  {
    out := new char[|s| + 1];
    var end := PutString(out, 0, s);
  }

  /** What print_array adds to its size for the entries. */
  ghost function ItemsBudget(items: seq<Json>, depth: nat, fmt: bool): (n: nat)
    requires PrintableItems(items)
  {
    if items == [] then 0
    else |Text(items[0], depth, fmt)| + 2 + (if fmt then 1 else 0) + ItemsBudget(items[1..], depth, fmt)
  }

  lemma {:induction false} ItemsFit(items: seq<Json>, depth: nat, fmt: bool)
    requires PrintableItems(items)
    ensures |ItemsText(items, depth, fmt)| <= ItemsBudget(items, depth, fmt)
  {
    if items != [] {
      ItemsFit(items[1..], depth, fmt);
    }
  }

  /** The entries are the printed items. */
  ghost predicate Printed(entries: seq<array<char>>, items: seq<Json>, depth: nat, fmt: bool)
    requires PrintableItems(items)
    reads entries
  {
    && |entries| <= |items|
    && forall i | 0 <= i < |entries| :: Holds(entries[i], 0, Text(items[i], depth, fmt))
  }

  /** print_value without a buffer. */
  method PrintValue(v: Json, depth: nat, fmt: bool) returns (out: array<char>)
    requires Printable(v)
    ensures fresh(out) && Holds(out, 0, Text(v, depth, fmt))
    decreases v, 0
  {
    match v {
      case Null => out := Strdup("null");
      case False => out := Strdup("false");
      case True => out := Strdup("true");
      case Number(valueint, d) =>
        var size, text := NumberForm(valueint, d);
        out := new char[size];
        var end := PutString(out, 0, text);
      case String(s) => out := PrintString(s);
      case Array(items) => out := PrintArray(items, depth, fmt);
      case Object(members) => out := PrintObject(members, depth, fmt);
    }
  }

  /** The loop of print_array that prints the entries and adds up their size. */
  method PrintItems(items: seq<Json>, depth: nat, fmt: bool) returns (entries: seq<array<char>>, len: nat)
    requires PrintableItems(items)
    ensures |entries| == |items| && Printed(entries, items, depth, fmt)
    ensures len == 5 + ItemsBudget(items, depth, fmt)
    decreases items, 0
  {
    entries, len := [], 5;
    for i := 0 to |items|
      invariant |entries| == i && Printed(entries, items, depth, fmt)
      invariant len + ItemsBudget(items[i..], depth, fmt) == 5 + ItemsBudget(items, depth, fmt)
    {
      var ret := PrintValue(items[i], depth, fmt);
      TextCString(items[i], depth, fmt);
      var n := Strlen(ret, 0, Text(items[i], depth, fmt));
      entries := entries + [ret];
      len := len + n + 2 + (if fmt then 1 else 0);
      assert items[i..][1..] == items[i + 1..];
    }
  }

  /** The loop of print_array that composes the output. */
  method ComposeItems(entries: seq<array<char>>, ghost items: seq<Json>, depth: nat, fmt: bool, out: array<char>,
                      at: nat)
    returns (ptr: nat)
    requires PrintableItems(items) && |entries| == |items| && Printed(entries, items, depth, fmt) && out !in entries
    requires at + |ItemsText(items, depth, fmt)| < out.Length
    modifies out
    ensures ptr == at + |ItemsText(items, depth, fmt)|
    ensures out[..ptr] == old(out[..at]) + ItemsText(items, depth, fmt)
  {
    hide Text, ItemsText, Printable;
    ptr := at;
    ghost var whole := out[..at] + ItemsText(items, depth, fmt);
    NoItemsLeft(items, depth, fmt);
    for i := 0 to |entries|
      invariant ptr + |ItemsText(items[i..], depth, fmt)| == |whole|
      invariant out[..ptr] + ItemsText(items[i..], depth, fmt) == whole
    {
      ItemsUnfold(items, i, depth, fmt);
      TextCString(items[i], depth, fmt);
      ghost var text, rest := Text(items[i], depth, fmt), ItemsText(items[i + 1..], depth, fmt);
      Associate(out[..ptr], text + ItemEnd(i == |entries| - 1, fmt), rest);
      ptr := ComposeItem(entries[i], text, i == |entries| - 1, fmt, out, ptr);
    }
  }

  lemma {:induction false} Associate(a: string, b: string, c: string)
    ensures a + (b + c) == (a + b) + c
  {
  }

  method ComposeItem(entry: array<char>, ghost text: string, last: bool, fmt: bool, out: array<char>, at: nat)
    returns (ptr: nat)
    requires Holds(entry, 0, text) && CString(text) && out != entry
    requires at + |text| + |ItemEnd(last, fmt)| < out.Length
    modifies out
    ensures ptr == at + |text| + |ItemEnd(last, fmt)|
    ensures out[..ptr] == old(out[..at]) + (text + ItemEnd(last, fmt))
  {
    var tmplen := Strlen(entry, 0, text);
    ptr := Memcpy(out, at, entry, tmplen);
    if !last {
      ptr := Put(out, ptr, ',');
      if fmt { ptr := Put(out, ptr, ' '); }
      out[ptr] := '\0';
    }
  }

  /** print_array without a buffer; depth is that of the array. */
  method PrintArray(items: seq<Json>, depth: nat, fmt: bool) returns (out: array<char>)
    requires Printable(Array(items))
    ensures fresh(out) && Holds(out, 0, Text(Array(items), depth, fmt))
    decreases items, 1
  {
    if |items| == 0 {
      out := new char[3];
      var end := PutString(out, 0, "[]");
      return;
    }
    var entries, len := PrintItems(items, depth + 1, fmt);
    ItemsFit(items, depth + 1, fmt);
    ghost var inner := ItemsText(items, depth + 1, fmt);
    assert Text(Array(items), depth, fmt) == "[" + inner + "]";
    out := new char[len];
    hide Text, ItemsText, ItemsBudget;
    out[0] := '[';
    out[1] := '\0';
    var ptr := ComposeItems(entries, items, depth + 1, fmt, out, 1);
    Finish(out, ptr, ']', "[" + inner);
  }

  /** The closing bracket and the terminator. */
  method Finish(out: array<char>, at: nat, close: char, ghost text: string)
    requires at + 2 <= out.Length && out[..at] == text
    modifies out
    ensures Holds(out, 0, text + [close])
  {
    var ptr := Put(out, at, close);
    ptr := Put(out, ptr, '\0');
  }

  /** What print_object adds to its size for the entries; depth is that of the members. */
  ghost function MembersBudget(members: seq<Member>, depth: nat, fmt: bool): (n: nat)
    requires PrintableMembers(members)
  {
    if members == [] then 0
    else |Text(members[0].value, depth, fmt)| + |Quote(members[0].name)| + 2 + (if fmt then 2 + depth else 0)
         + MembersBudget(members[1..], depth, fmt)
  }

  lemma {:induction false} MembersBudgetUnfold(members: seq<Member>, i: nat, depth: nat, fmt: bool)
    requires PrintableMembers(members) && i < |members|
    ensures MembersBudget(members[i..], depth, fmt) ==
              |Text(members[i].value, depth, fmt)| + |Quote(members[i].name)| + 2 + (if fmt then 2 + depth else 0)
              + MembersBudget(members[i + 1..], depth, fmt)
    ensures i + 1 == |members| ==> MembersBudget(members[i + 1..], depth, fmt) == 0
  {
    assert members[i..][1..] == members[i + 1..];
  }

  lemma {:induction false} MembersFit(members: seq<Member>, depth: nat, fmt: bool)
    requires PrintableMembers(members)
    ensures |MembersText(members, depth, fmt)| <= MembersBudget(members, depth, fmt)
  {
    if members != [] {
      MembersFit(members[1..], depth, fmt);
    }
  }

  /** The names and entries are the printed members. */
  ghost predicate PrintedMembers(names: seq<array<char>>, entries: seq<array<char>>, members: seq<Member>, depth: nat,
                                 fmt: bool)
    requires PrintableMembers(members)
    reads names, entries
  {
    && |names| == |entries| <= |members|
    && forall i | 0 <= i < |entries| ::
         Holds(names[i], 0, Quote(members[i].name)) && Holds(entries[i], 0, Text(members[i].value, depth, fmt))
  }

  lemma {:induction false} PrintedStep(names: seq<array<char>>, entries: seq<array<char>>, members: seq<Member>,
                                       depth: nat, fmt: bool,
                    str: array<char>, ret: array<char>)
    requires PrintableMembers(members) && PrintedMembers(names, entries, members, depth, fmt) && |entries| < |members|
    requires Holds(str, 0, Quote(members[|entries|].name)) && Holds(ret, 0, Text(members[|entries|].value, depth, fmt))
    ensures PrintedMembers(names + [str], entries + [ret], members, depth, fmt)
  {
    hide Holds, Quote, Text;
  }

  method PrintMember(m: Member, depth: nat, fmt: bool) returns (str: array<char>, ret: array<char>, size: nat)
    requires CString(m.name) && Printable(m.value)
    ensures fresh(str) && fresh(ret) && Holds(str, 0, Quote(m.name)) && Holds(ret, 0, Text(m.value, depth, fmt))
    ensures size == |Text(m.value, depth, fmt)| + |Quote(m.name)| + 2 + (if fmt then 2 + depth else 0)
    decreases m, 0
  {
    str := PrintString(m.name);
    ret := PrintValue(m.value, depth, fmt);
    QuoteCString(m.name);
    TextCString(m.value, depth, fmt);
    hide Quote, Text;
    var n := Strlen(ret, 0, Text(m.value, depth, fmt));
    size := Strlen(str, 0, Quote(m.name));
    size := n + size + 2 + (if fmt then 2 + depth else 0);
  }

  /** The loop of print_object that prints the members and adds up their size. */
  method PrintMembers(members: seq<Member>, depth: nat, fmt: bool)
    returns (names: seq<array<char>>, entries: seq<array<char>>, len: nat)
    requires PrintableMembers(members)
    ensures |entries| == |members| && PrintedMembers(names, entries, members, depth, fmt)
    ensures len == 7 + (if fmt then depth else 0) + MembersBudget(members, depth, fmt)
    decreases members, 0
  {
    names, entries, len := [], [], 7 + if fmt then depth else 0;
    ghost var total := len + MembersBudget(members, depth, fmt);
    assert members[0..] == members && MembersBudget(members[|members|..], depth, fmt) == 0;
    assert PrintedMembers([], [], members, depth, fmt);
    hide Holds, Quote, Text, MembersBudget, Printable, PrintedMembers;
    for i := 0 to |members|
      invariant |names| == |entries| == i && PrintedMembers(names, entries, members, depth, fmt)
      invariant len + MembersBudget(members[i..], depth, fmt) == total
    {
      var str, ret, size := PrintMember(members[i], depth, fmt);
      PrintedStep(names, entries, members, depth, fmt, str, ret);
      names, entries := names + [str], entries + [ret];
      len := len + size;
      MembersBudgetUnfold(members, i, depth, fmt);
    }
  }

  /** Indentation. */
  method PutTabs(out: array<char>, at: nat, depth: nat) returns (ptr: nat)
    requires at + depth <= out.Length
    modifies out
    ensures ptr == at + depth && out[..ptr] == old(out[..at]) + Tabs(depth)
  {
    ptr := at;
    for j := 0 to depth
      invariant ptr == at + j && out[..ptr] == old(out[..at]) + Tabs(j)
    {
      ptr := Put(out, ptr, '\t');
    }
  }

  /** A character of formatted output. */
  method PutFormatted(fmt: bool, out: array<char>, at: nat, c: char) returns (ptr: nat)
    requires at + (if fmt then 1 else 0) <= out.Length
    modifies out
    ensures ptr == at + |Formatted(fmt, [c])|
    ensures out[..ptr] == old(out[..at]) + Formatted(fmt, [c])
  {
    ptr := at;
    if fmt { ptr := Put(out, ptr, c); }
  }

  /** The lines of the composing loop that write what precedes the value. */
  method ComposeStart(name: array<char>, ghost key: string, depth: nat, fmt: bool, out: array<char>, at: nat)
    returns (ptr: nat)
    requires CString(key) && Holds(name, 0, Quote(key)) && out != name
    requires at + |MemberStart(key, depth, fmt)| <= out.Length
    modifies out
    ensures ptr == at + |MemberStart(key, depth, fmt)|
    ensures out[..ptr] == old(out[..at]) + MemberStart(key, depth, fmt)
  {
    hide Quote, Tabs, MemberStart;
    ghost var indent, quoted, base := Formatted(fmt, Tabs(depth)), Quote(key), out[..at];
    QuoteCString(key);
    StartIs(key, depth, fmt);
    ptr := at;
    if fmt { ptr := PutTabs(out, ptr, depth); }
    assert ptr == at + |indent| && out[..ptr] == base + indent;
    ptr := ComposeName(name, quoted, fmt, out, ptr);
    Associate(base, indent, quoted + ":" + Formatted(fmt, "\t"));
  }

  lemma {:induction false} StartIs(key: string, depth: nat, fmt: bool)
    requires CString(key)
    ensures MemberStart(key, depth, fmt) == Formatted(fmt, Tabs(depth)) + (Quote(key) + ":" + Formatted(fmt, "\t"))
  {
  }

  /** The name of a member and the colon. */
  method ComposeName(name: array<char>, ghost quoted: string, fmt: bool, out: array<char>, at: nat) returns (ptr: nat)
    requires CString(quoted) && Holds(name, 0, quoted) && out != name
    requires at + |quoted + ":" + Formatted(fmt, "\t")| <= out.Length
    modifies out
    ensures ptr == at + |quoted + ":" + Formatted(fmt, "\t")|
    ensures out[..ptr] == old(out[..at]) + (quoted + ":" + Formatted(fmt, "\t"))
  {
    var tmplen := Strlen(name, 0, quoted);
    ptr := Memcpy(out, at, name, tmplen);
    ptr := Put(out, ptr, ':');
    ptr := PutFormatted(fmt, out, ptr, '\t');
  }

  /** One turn of the composing loop of print_object. */
  method ComposeMember(name: array<char>, entry: array<char>, ghost key: string, ghost text: string, last: bool,
                       depth: nat,
                       fmt: bool, out: array<char>, at: nat)
    returns (ptr: nat)
    requires CString(key) && Holds(name, 0, Quote(key)) && Holds(entry, 0, text) && CString(text) && out != entry
               && out != name
    requires at + |MemberStart(key, depth, fmt)| + |text| + |MemberEnd(last, fmt)| < out.Length
    modifies out
    ensures ptr == at + |MemberStart(key, depth, fmt)| + |text| + |MemberEnd(last, fmt)|
    ensures out[..ptr] == old(out[..at]) + (MemberStart(key, depth, fmt) + text + MemberEnd(last, fmt))
  {
    hide MemberStart, MemberEnd, Quote;
    ghost var base, start := out[..at], MemberStart(key, depth, fmt);
    ptr := ComposeStart(name, key, depth, fmt, out, at);
    ptr := ComposeRest(entry, text, last, fmt, out, ptr);
    Associate(base, start, text + MemberEnd(last, fmt));
    Associate(start, text, MemberEnd(last, fmt));
  }

  /** The value of a member and what follows it. */
  method ComposeRest(entry: array<char>, ghost text: string, last: bool, fmt: bool, out: array<char>, at: nat)
    returns (ptr: nat)
    requires Holds(entry, 0, text) && CString(text) && out != entry
    requires at + |text| + |MemberEnd(last, fmt)| < out.Length
    modifies out
    ensures ptr == at + |text| + |MemberEnd(last, fmt)|
    ensures out[..ptr] == old(out[..at]) + (text + MemberEnd(last, fmt))
  {
    var tmplen := Strlen(entry, 0, text);
    ptr := Memcpy(out, at, entry, tmplen);
    if !last { ptr := Put(out, ptr, ','); }
    ptr := PutFormatted(fmt, out, ptr, '\n');
    out[ptr] := '\0';
  }

  /** The loop of print_object that composes the output. */
  method ComposeMembers(names: seq<array<char>>, entries: seq<array<char>>, ghost members: seq<Member>, depth: nat,
                        fmt: bool,
                        out: array<char>, at: nat)
    returns (ptr: nat)
    requires PrintableMembers(members) && |entries| == |members| && PrintedMembers(names, entries, members, depth, fmt)
    requires out !in entries && out !in names
    requires at + |MembersText(members, depth, fmt)| < out.Length
    modifies out
    ensures ptr == at + |MembersText(members, depth, fmt)|
    ensures out[..ptr] == old(out[..at]) + MembersText(members, depth, fmt)
  {
    hide Text, MembersText, MemberStart, MemberEnd, Quote, Printable;
    ptr := at;
    ghost var whole := out[..at] + MembersText(members, depth, fmt);
    NoMembersLeft(members, depth, fmt);
    for i := 0 to |entries|
      invariant ptr + |MembersText(members[i..], depth, fmt)| == |whole|
      invariant out[..ptr] + MembersText(members[i..], depth, fmt) == whole
    {
      MembersUnfold(members, i, depth, fmt);
      TextCString(members[i].value, depth, fmt);
      var last := i == |entries| - 1;
      ghost var text, rest := Text(members[i].value, depth, fmt), MembersText(members[i + 1..], depth, fmt);
      Associate(out[..ptr], MemberStart(members[i].name, depth, fmt) + text + MemberEnd(last, fmt), rest);
      ptr := ComposeMember(names[i], entries[i], members[i].name, text, last, depth, fmt, out, ptr);
    }
  }

  /** print_object without a buffer. */
  method PrintObject(members: seq<Member>, depth: nat, fmt: bool) returns (out: array<char>)
    requires Printable(Object(members))
    ensures fresh(out) && Holds(out, 0, Text(Object(members), depth, fmt))
    decreases members, 1
  {
    if |members| == 0 {
      out := PrintNoMembers(depth, fmt);
      return;
    }
    var names, entries, len := PrintMembers(members, depth + 1, fmt);
    MembersFit(members, depth + 1, fmt);
    ghost var inner := MembersText(members, depth + 1, fmt);
    assert Text(Object(members), depth, fmt) ==
           "{" + Formatted(fmt, "\n") + inner + Formatted(fmt, Tabs(depth)) + ['}'];
    hide Text, MembersText, MembersBudget, Tabs, Printable, PrintableMembers;
    out := new char[len];
    ComposeObject(names, entries, members, inner, depth, fmt, out);
  }

  /** The composing half of print_object. */
  method ComposeObject(names: seq<array<char>>, entries: seq<array<char>>, ghost members: seq<Member>,
                       ghost inner: string,
                       depth: nat, fmt: bool, out: array<char>)
    requires PrintableMembers(members) && |entries| == |members|
               && PrintedMembers(names, entries, members, depth + 1, fmt)
    requires out !in entries && out !in names && inner == MembersText(members, depth + 1, fmt)
    requires 3 + (if fmt then 1 + depth else 0) + |inner| <= out.Length
    modifies out
    ensures Holds(out, 0, "{" + Formatted(fmt, "\n") + inner + Formatted(fmt, Tabs(depth)) + ['}'])
  {
    hide Text, MembersText, Tabs, Printable, PrintableMembers;
    out[0] := '{';
    assert out[..1] == "{";
    var ptr := PutFormatted(fmt, out, 1, '\n');
    out[ptr] := '\0';
    ptr := ComposeMembers(names, entries, members, depth + 1, fmt, out, ptr);
    if fmt { ptr := PutTabs(out, ptr, depth); }
    Finish(out, ptr, '}', "{" + Formatted(fmt, "\n") + inner + Formatted(fmt, Tabs(depth)));
  }

  /** The empty object of print_object. */
  method PrintNoMembers(depth: nat, fmt: bool) returns (out: array<char>)
    ensures fresh(out) && Holds(out, 0, Text(Object([]), depth, fmt))
  {
    out := new char[if fmt then depth + 4 else 3];
    out[0] := '{';
    var ptr := 1;
    if fmt {
      ptr := Put(out, ptr, '\n');
      ptr := PutTabs(out, ptr, depth);
    }
    Finish(out, ptr, '}', "{" + Formatted(fmt, "\n" + Tabs(depth)));
  }
}
