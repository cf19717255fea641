/**
 JSON values as cJSON holds them, and the text the printers produce for them.
 A list of child nodes is a sequence here; ChildList treats its links.
 */
module Json {
  import opened CText
  import opened Numbers
  import opened Quoting

  const INT_MAX := 0x7FFF_FFFF
  const INT_MIN := -0x8000_0000
  const DBL_EPSILON := 2.220446049250313e-16

  datatype Json =
    | Null
    | False
    | True
    | Number(valueint: int, valuedouble: real)
    | String(valuestring: string)
    | Array(items: seq<Json>)
    | Object(members: seq<Member>)

  datatype Member = Member(name: string, value: Json)

  /** A double that holds a 32-bit integer. */
  predicate Integral(d: real) {
    d == d.Floor as real && INT_MIN <= d.Floor <= INT_MAX
  }

  /** The trees whose printing is modelled; valueint need not agree with valuedouble. */
  predicate Printable(v: Json) {
    match v
    case Null => true
    case False => true
    case True => true
    case Number(_, d) => Integral(d)
    case String(s) => CString(s)
    case Array(items) => forall i | 0 <= i < |items| :: Printable(items[i])
    case Object(members) => forall i | 0 <= i < |members| :: CString(members[i].name) && Printable(members[i].value)
  }

  predicate PrintableItems(items: seq<Json>) {
    forall i | 0 <= i < |items| :: Printable(items[i])
  }

  predicate PrintableMembers(members: seq<Member>) {
    forall i | 0 <= i < |members| :: CString(members[i].name) && Printable(members[i].value)
  }

  function Tabs(n: nat): (s: string)
    ensures |s| == n
  {
    seq(n, _ => '\t')
  }

  /** s in formatted output, nothing otherwise. */
  function Formatted(fmt: bool, s: string): (r: string) {
    if fmt then s else ""
  }

  function Text(v: Json, depth: nat, fmt: bool): (s: string)
    requires Printable(v)
    decreases v, 0
  {
    match v
    case Null => "null"
    case False => "false"
    case True => "true"
    case Number(_, d) => Decimal(d.Floor)
    case String(s) => Quote(s)
    case Array(items) => if items == [] then "[]" else "[" + ItemsText(items, depth + 1, fmt) + "]"
    case Object(members) =>
      if members == [] then "{" + Formatted(fmt, "\n" + Tabs(depth)) + "}"
      else "{" + Formatted(fmt, "\n") + MembersText(members, depth + 1, fmt) + Formatted(fmt, Tabs(depth)) + "}"
  }

  /** What follows an array entry. */
  function ItemEnd(last: bool, fmt: bool): (s: string) {
    if last then "" else "," + Formatted(fmt, " ")
  }

  function ItemsText(items: seq<Json>, depth: nat, fmt: bool): (s: string)
    requires PrintableItems(items)
    decreases items
  {
    if items == [] then ""
    else Text(items[0], depth, fmt) + ItemEnd(|items| == 1, fmt) + ItemsText(items[1..], depth, fmt)
  }

  /** What precedes the value of a member. */
  function MemberStart(name: string, depth: nat, fmt: bool): (s: string)
    requires CString(name)
  {
    Formatted(fmt, Tabs(depth)) + Quote(name) + ":" + Formatted(fmt, "\t")
  }

  /** What follows the value of a member. */
  function MemberEnd(last: bool, fmt: bool): (s: string) {
    (if last then "" else ",") + Formatted(fmt, "\n")
  }

  function MembersText(members: seq<Member>, depth: nat, fmt: bool): (s: string)
    requires PrintableMembers(members)
    decreases members
  {
    if members == [] then ""
    else MemberStart(members[0].name, depth, fmt) + Text(members[0].value, depth, fmt)
         + MemberEnd(|members| == 1, fmt) + MembersText(members[1..], depth, fmt)
  }

  lemma {:induction false} ItemsUnfold(items: seq<Json>, i: nat, depth: nat, fmt: bool)
    requires PrintableItems(items) && i < |items|
    ensures ItemsText(items[i..], depth, fmt) ==
              Text(items[i], depth, fmt) + ItemEnd(i == |items| - 1, fmt) + ItemsText(items[i + 1..], depth, fmt)
  {
    assert items[i..][1..] == items[i + 1..];
  }

  lemma {:induction false} MembersUnfold(members: seq<Member>, i: nat, depth: nat, fmt: bool)
    requires PrintableMembers(members) && i < |members|
    ensures MembersText(members[i..], depth, fmt) ==
              MemberStart(members[i].name, depth, fmt) + Text(members[i].value, depth, fmt)
              + MemberEnd(i == |members| - 1, fmt) + MembersText(members[i + 1..], depth, fmt)
  {
    assert members[i..][1..] == members[i + 1..];
  }

  lemma {:induction false} NoItemsLeft(items: seq<Json>, depth: nat, fmt: bool)
    requires PrintableItems(items)
    ensures items[0..] == items && ItemsText(items[|items|..], depth, fmt) == ""
  {
  }

  lemma {:induction false} NoMembersLeft(members: seq<Member>, depth: nat, fmt: bool)
    requires PrintableMembers(members)
    ensures members[0..] == members && MembersText(members[|members|..], depth, fmt) == ""
  {
  }
}
