/** The growable buffer of cJSON_PrintBuffered: ensure, update, and the printers that write through it. */
module PrintBuffer {
  import opened CText
  import opened Quoting
  import opened Json
  import opened Rounding
  import opened Printer

  class Buffer {
    var buffer: array<char>
    var length: nat
    var offset: nat

    ghost predicate Valid()
      reads this
    {
      length == buffer.Length && offset <= length
    }

    /** The text that is committed: what stands before the offset. */
    ghost function Committed(): (s: string)
      requires Valid()
      reads this, buffer
    {
      buffer[..offset]
    }

    constructor (prebuffer: nat)
      requires prebuffer > 0
      ensures Valid() && Committed() == "" && fresh(buffer)
    {
      buffer := new char[prebuffer];
      length := prebuffer;
      offset := 0;
    }

    /** ensure: afterwards there is room for needed characters from the offset on, and no character is lost. */
    method Ensure(needed: nat)
      requires Valid() && needed + offset <= MAX_SIZE
      modifies this
      ensures Valid() && offset == old(offset) && offset + needed <= length
      ensures length >= old(length) && buffer[..old(length)] == old(buffer[..])
      ensures buffer == old(buffer) || (fresh(buffer) && needed + offset > 0 && length == Pow2gt(needed + offset))
    {
      var total := needed + offset;
      if total <= length { return; }
      Pow2gtIsLeastPower(total);
      var newsize := Pow2gt(total);
      var newbuffer := new char[newsize];
      for k := 0 to length
        invariant newbuffer[..k] == buffer[..k]
        modifies newbuffer
      {
        newbuffer[k] := buffer[k];
      }
      length := newsize;
      buffer := newbuffer;
    }

    /** update: the offset after the text that stands at it. */
    method Update(ghost text: string) returns (end: nat)
      requires Valid() && Holds(buffer, offset, text) && CString(text)
      ensures end == offset + |text|
    {
      end := Strlen(buffer, offset, text);
      end := offset + end;
    }
  }

  /** The text has been written after base, with its terminator; the offset is somewhere within it. */
  ghost predicate Wrote(p: Buffer, base: string, text: string)
    reads p, p.buffer
  {
    && p.Valid()
    && |base| <= p.offset <= |base| + |text| < p.length
    && p.buffer[..|base| + |text|] == base + text
    && p.buffer[|base| + |text|] == '\0'
  }

  /** Stores s at the offset and commits it; the C code asks for the terminator only where it stores one. */
  method Append(p: Buffer, s: string, terminated: bool)
    requires p.Valid() && p.offset + |s| + 1 <= MAX_SIZE
    modifies p, p.buffer
    ensures p.Valid() && p.Committed() == old(p.Committed()) + s
    ensures p.buffer == old(p.buffer) || fresh(p.buffer)
  {
    p.Ensure(|s| + if terminated then 1 else 0);
    assert p.buffer[..p.offset] == old(p.Committed()) by {
      assert p.buffer[..p.offset] == p.buffer[..old(p.length)][..p.offset];
    }
    var end := PutAll(p.buffer, p.offset, s);
    if terminated { p.buffer[end] := '\0'; }
    p.offset := end;
  }

  /** Stores s at the offset with its terminator, in room for size characters, and does not commit it. */
  method Store(p: Buffer, s: string, size: nat)
    requires p.Valid() && |s| < size && p.offset + size <= MAX_SIZE
    modifies p, p.buffer
    ensures Wrote(p, old(p.Committed()), s)
    ensures p.buffer == old(p.buffer) || fresh(p.buffer)
  {
    p.Ensure(size);
    assert p.buffer[..p.offset] == old(p.Committed()) by {
      assert p.buffer[..p.offset] == p.buffer[..old(p.length)][..p.offset];
    }
    var end := PutString(p.buffer, p.offset, s);
  }

  /** print_string_ptr into the buffer. */
  method StoreQuoted(p: Buffer, str: string)
    requires p.Valid() && CString(str) && p.offset + |Quote(str)| + 1 <= MAX_SIZE
    modifies p, p.buffer
    ensures Wrote(p, old(p.Committed()), Quote(str))
    ensures p.buffer == old(p.buffer) || fresh(p.buffer)
  {
    hide Quote, Escaped;
    var plain, len := Measure(str);
    QuoteSize(str);
    p.Ensure(len + 3);
    ghost var base := p.buffer[..p.offset];
    assert base == old(p.Committed()) by {
      assert base == p.buffer[..old(p.length)][..p.offset];
    }
    WriteQuoted(str, plain, p.buffer, p.offset);
    Rejoin(p.buffer, p.offset, Quote(str));
  }

  lemma {:induction false} QuoteSize(str: string)
    requires CString(str)
    ensures |Quote(str)| == |Escaped(str)| + 2
  {
  }

  lemma {:induction false} Rejoin(a: array<char>, at: nat, s: string)
    requires Holds(a, at, s)
    ensures a[..at + |s|] == a[..at] + s
  {
    assert a[..at + |s|] == a[..at] + a[at..at + |s|];
  }

  /** The call of update after a value has been printed: commits it. */
  method Commit(p: Buffer, ghost base: string, ghost text: string)
    requires Wrote(p, base, text) && CString(text)
    modifies p`offset
    ensures p.Valid() && p.Committed() == base + text
  {
    ghost var k := p.offset - |base|;
    assert p.buffer[p.offset..|base| + |text|] == text[k..] by {
      assert p.buffer[p.offset..|base| + |text|] == p.buffer[..|base| + |text|][p.offset..];
    }
    p.offset := p.Update(text[k..]);
  }

  lemma {:induction false} WroteAll(p: Buffer, base: string, head: string, tail: string)
    requires Wrote(p, base + head, tail)
    ensures Wrote(p, base, head + tail)
  {
    assert base + (head + tail) == (base + head) + tail;
  }

  /** print_value with a buffer. */
  method PrintInto(v: Json, depth: nat, fmt: bool, p: Buffer) returns (out: nat)
    requires p.Valid() && Printable(v) && p.offset + |Text(v, depth, fmt)| + 64 <= MAX_SIZE
    modifies p, p.buffer
    ensures Wrote(p, old(p.Committed()), Text(v, depth, fmt)) && out == old(p.offset)
    ensures p.buffer == old(p.buffer) || fresh(p.buffer)
    decreases v, 0
  {
    out := p.offset;
    match v {
      case Null => Store(p, "null", 5);
      case False => Store(p, "false", 6);
      case True => Store(p, "true", 5);
      case Number(valueint, d) =>
        var size, text := NumberForm(valueint, d);
        Store(p, text, size);
      case String(s) => StoreQuoted(p, s);
      case Array(items) => out := PrintArrayInto(items, depth, fmt, p);
      case Object(members) => out := PrintObjectInto(members, depth, fmt, p);
    }
  }

  /** A nested value, committed. */
  method PrintNested(v: Json, depth: nat, fmt: bool, p: Buffer)
    requires p.Valid() && Printable(v) && p.offset + |Text(v, depth, fmt)| + 64 <= MAX_SIZE
    modifies p, p.buffer
    ensures p.Valid() && p.Committed() == old(p.Committed()) + Text(v, depth, fmt)
    ensures p.buffer == old(p.buffer) || fresh(p.buffer)
    decreases v, 1
  {
    TextCString(v, depth, fmt);
    ghost var base := p.Committed();
    hide Text;
    var out := PrintInto(v, depth, fmt, p);
    Commit(p, base, Text(v, depth, fmt));
  }

  /** One turn of the loop of print_array. */
  method PrintItemInto(item: Json, last: bool, depth: nat, fmt: bool, p: Buffer)
    requires p.Valid() && Printable(item)
    requires p.offset + |Text(item, depth, fmt)| + |ItemEnd(last, fmt)| + 64 <= MAX_SIZE
    modifies p, p.buffer
    ensures p.Valid() && p.Committed() == old(p.Committed()) + (Text(item, depth, fmt) + ItemEnd(last, fmt))
    ensures p.buffer == old(p.buffer) || fresh(p.buffer)
    decreases item, 2
  {
    Associate(p.Committed(), Text(item, depth, fmt), ItemEnd(last, fmt));
    hide Text;
    PrintNested(item, depth, fmt, p);
    if !last {
      Append(p, if fmt then ", " else ",", true);
    }
  }

  /** The entries of print_array, each followed by its separator. */
  method PrintItemsInto(items: seq<Json>, depth: nat, fmt: bool, p: Buffer)
    requires p.Valid() && PrintableItems(items) && p.offset + |ItemsText(items, depth, fmt)| + 64 <= MAX_SIZE
    modifies p, p.buffer
    ensures p.Valid() && p.Committed() == old(p.Committed()) + ItemsText(items, depth, fmt)
    ensures p.buffer == old(p.buffer) || fresh(p.buffer)
    decreases items, 0
  {
    hide Text, ItemsText, Printable;
    ghost var whole := p.Committed() + ItemsText(items, depth, fmt);
    NoItemsLeft(items, depth, fmt);
    for i := 0 to |items|
      invariant p.Valid() && (p.buffer == old(p.buffer) || fresh(p.buffer))
      invariant p.Committed() + ItemsText(items[i..], depth, fmt) == whole
    {
      var last := i == |items| - 1;
      ItemsUnfold(items, i, depth, fmt);
      Associate(p.Committed(), Text(items[i], depth, fmt) + ItemEnd(last, fmt), ItemsText(items[i + 1..], depth, fmt));
      PrintItemInto(items[i], last, depth, fmt, p);
    }
  }

  /** print_array with a buffer. */
  method PrintArrayInto(items: seq<Json>, depth: nat, fmt: bool, p: Buffer) returns (out: nat)
    requires p.Valid() && Printable(Array(items)) && p.offset + |Text(Array(items), depth, fmt)| + 64 <= MAX_SIZE
    modifies p, p.buffer
    ensures Wrote(p, old(p.Committed()), Text(Array(items), depth, fmt)) && out == old(p.offset)
    ensures p.buffer == old(p.buffer) || fresh(p.buffer)
    decreases items, 1
  {
    out := p.offset;
    if |items| == 0 {
      Store(p, "[]", 3);
      return;
    }
    ghost var base, inner := p.Committed(), ItemsText(items, depth + 1, fmt);
    assert Text(Array(items), depth, fmt) == "[" + inner + "]";
    hide Text, ItemsText;
    Append(p, "[", false);
    PrintItemsInto(items, depth + 1, fmt, p);
    Store(p, "]", 2);
    Associate(base, "[", inner);
    WroteAll(p, base, "[" + inner, "]");
  }

  /** What stands before the value of a member in print_object. */
  method PrintNameInto(name: string, depth: nat, fmt: bool, p: Buffer)
    requires p.Valid() && CString(name) && p.offset + |MemberStart(name, depth, fmt)| + 64 <= MAX_SIZE
    modifies p, p.buffer
    ensures p.Valid() && p.Committed() == old(p.Committed()) + MemberStart(name, depth, fmt)
    ensures p.buffer == old(p.buffer) || fresh(p.buffer)
  {
    hide Quote, Tabs, MemberStart;
    ghost var base, indent, quoted := p.Committed(), Formatted(fmt, Tabs(depth)), Quote(name);
    QuoteCString(name);
    StartIs(name, depth, fmt);
    if fmt { Append(p, Tabs(depth), false); }
    ghost var indented := p.Committed();
    assert indented == base + indent;
    StoreQuoted(p, name);
    Commit(p, indented, quoted);
    Append(p, if fmt then ":\t" else ":", false);
    assert p.Committed() == indented + quoted + (":" + Formatted(fmt, "\t"));
    Associate(indented, quoted, ":" + Formatted(fmt, "\t"));
    Associate(quoted, ":", Formatted(fmt, "\t"));
    Associate(base, indent, quoted + ":" + Formatted(fmt, "\t"));
  }

  /** One turn of the loop of print_object. */
  method PrintMemberInto(m: Member, last: bool, depth: nat, fmt: bool, p: Buffer)
    requires p.Valid() && CString(m.name) && Printable(m.value)
    requires p.offset + |MemberStart(m.name, depth, fmt)| + |Text(m.value, depth, fmt)| + |MemberEnd(last, fmt)| +
               64 <= MAX_SIZE
    modifies p, p.buffer
    ensures p.Valid()
    ensures p.Committed() ==
            old(p.Committed()) + (MemberStart(m.name, depth, fmt) + Text(m.value, depth, fmt) + MemberEnd(last, fmt))
    ensures p.buffer == old(p.buffer) || fresh(p.buffer)
    decreases m, 0
  {
    ghost var base, start, text, end := p.Committed(), MemberStart(m.name, depth, fmt), Text(m.value, depth, fmt),
        MemberEnd(last, fmt);
    Associate(base, start, text);
    Associate(base, start + text, end);
    hide Text, MemberStart;
    PrintNameInto(m.name, depth, fmt, p);
    PrintNested(m.value, depth, fmt, p);
    Append(p, (if last then "" else ",") + (if fmt then "\n" else ""), true);
  }

  method PrintMembersInto(members: seq<Member>, depth: nat, fmt: bool, p: Buffer)
    requires p.Valid() && PrintableMembers(members) && p.offset + |MembersText(members, depth, fmt)| + 64 <= MAX_SIZE
    modifies p, p.buffer
    ensures p.Valid() && p.Committed() == old(p.Committed()) + MembersText(members, depth, fmt)
    ensures p.buffer == old(p.buffer) || fresh(p.buffer)
    decreases members, 0, 0
  {
    hide Text, MembersText, MemberStart, MemberEnd, Printable;
    ghost var whole := p.Committed() + MembersText(members, depth, fmt);
    NoMembersLeft(members, depth, fmt);
    for i := 0 to |members|
      invariant p.Valid() && (p.buffer == old(p.buffer) || fresh(p.buffer))
      invariant p.Committed() + MembersText(members[i..], depth, fmt) == whole
    {
      var last := i == |members| - 1;
      MembersUnfold(members, i, depth, fmt);
      Associate(p.Committed(), MemberStart(members[i].name, depth, fmt) + Text(members[i].value, depth, fmt) +
          MemberEnd(last, fmt),
                MembersText(members[i + 1..], depth, fmt));
      PrintMemberInto(members[i], last, depth, fmt, p);
    }
  }

  /** print_object with a buffer. */
  method PrintObjectInto(members: seq<Member>, depth: nat, fmt: bool, p: Buffer) returns (out: nat)
    requires p.Valid() && Printable(Object(members)) && p.offset + |Text(Object(members), depth, fmt)| + 64 <= MAX_SIZE
    modifies p, p.buffer
    ensures Wrote(p, old(p.Committed()), Text(Object(members), depth, fmt)) && out == old(p.offset)
    ensures p.buffer == old(p.buffer) || fresh(p.buffer)
    decreases members, 1
  {
    out := p.offset;
    if |members| == 0 {
      hide Tabs;
      Store(p, "{" + (if fmt then "\n" + Tabs(depth) else "") + "}", if fmt then depth + 4 else 3);
    } else {
      ghost var inner := MembersText(members, depth + 1, fmt);
      assert Text(Object(members), depth, fmt) ==
             "{" + Formatted(fmt, "\n") + inner + (Formatted(fmt, Tabs(depth)) + "}");
      hide Text, MembersText, Tabs;
      PrintBracesInto(members, "{" + Formatted(fmt, "\n"), Formatted(fmt, Tabs(depth)) + "}", depth, fmt, p);
    }
  }

  /** print_object with a buffer, when there are members. */
  method PrintBracesInto(members: seq<Member>, open: string, close: string, depth: nat, fmt: bool, p: Buffer)
    requires p.Valid() && PrintableMembers(members)
    requires p.offset + |open| + |MembersText(members, depth + 1, fmt)| + |close| + 64 <= MAX_SIZE
    modifies p, p.buffer
    ensures Wrote(p, old(p.Committed()), open + MembersText(members, depth + 1, fmt) + close)
    ensures p.buffer == old(p.buffer) || fresh(p.buffer)
    decreases members, 0, 1
  {
    ghost var base, inner := p.Committed(), MembersText(members, depth + 1, fmt);
    Associate(base, open, inner);
    hide MembersText, Wrote;
    Append(p, open, true);
    PrintMembersInto(members, depth + 1, fmt, p);
    Store(p, close, |close| + 1);
    WroteAll(p, base, open + inner, close);
  }

  /** cJSON_PrintBuffered: the same text as the allocating printers give, at the start of the buffer. */
  method PrintBuffered(item: Json, prebuffer: nat, fmt: bool) returns (out: array<char>)
    requires prebuffer > 0 && Printable(item) && |Text(item, 0, fmt)| + 64 <= MAX_SIZE
    ensures fresh(out) && Holds(out, 0, Text(item, 0, fmt))
  {
    var p := new Buffer(prebuffer);
    hide Text;
    var at := PrintInto(item, 0, fmt, p);
    out := p.buffer;
    assert out[0..|Text(item, 0, fmt)|] == out[..|Text(item, 0, fmt)|];
  }
}
