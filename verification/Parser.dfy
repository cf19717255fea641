/** The recursive-descent parser: parse_value, parse_array, parse_object, and cJSON_ParseWithOpts. */
module Parser {
  import opened CText
  import opened Numbers
  import opened Strings
  import opened Json

  /** parse_value as a function of the text. */
  function ValueAt(t: string, i: nat): (r: Parsed<Json>)
    requires i <= |t|
    ensures r.Ok? ==> i < r.next <= |t|
    decreases |t| - i, 0
  {
    if Occurs(t, i, "null") then Ok(Null, i + 4)
    else if Occurs(t, i, "false") then Ok(False, i + 5)
    else if Occurs(t, i, "true") then Ok(True, i + 4)
    else if CharAt(t, i) == '\"' then
      match StringAt(t, i)
      case Ok(s, next) => Ok(String(s), next)
      case Fail(at) => Fail(at)
      case Overrun => Overrun
    else if CharAt(t, i) == '-' || IsDigit(CharAt(t, i)) then
      var n := ScanNumber(t, i);
      Ok(Json.Number(Truncate(n.value), n.value), n.next)
    else if CharAt(t, i) == '[' then
      var j := Skip(t, i + 1);
      if CharAt(t, j) == ']' then Ok(Array([]), j + 1) else ItemsAt(t, j, [])
    else if CharAt(t, i) == '{' then
      var j := Skip(t, i + 1);
      if CharAt(t, j) == '}' then Ok(Object([]), j + 1) else MembersAt(t, j, [])
    else Fail(i)
  }

  /** The rest of an array, of which acc has been parsed, from where an item must follow. */
  function ItemsAt(t: string, i: nat, acc: seq<Json>): (r: Parsed<Json>)
    requires i <= |t|
    ensures r.Ok? ==> i < r.next <= |t|
    decreases |t| - i, 1
  {
    match ValueAt(t, Skip(t, i))
    case Fail(at) => Fail(at)
    case Overrun => Overrun
    case Ok(v, next) =>
      var j := Skip(t, next);
      if CharAt(t, j) == ',' then ItemsAt(t, j + 1, acc + [v])
      else if CharAt(t, j) == ']' then Ok(Array(acc + [v]), j + 1)
      else Fail(j)
  }

  /** A name, the colon and the value. */
  function MemberAt(t: string, i: nat): (r: Parsed<Member>)
    requires i <= |t|
    ensures r.Ok? ==> i < r.next <= |t|
    decreases |t| - i, 1
  {
    match StringAt(t, Skip(t, i))
    case Fail(at) => Fail(at)
    case Overrun => Overrun
    case Ok(name, next) =>
      var j := Skip(t, next);
      if CharAt(t, j) != ':' then Fail(j)
      else
        match ValueAt(t, Skip(t, j + 1))
        case Fail(at) => Fail(at)
        case Overrun => Overrun
        case Ok(v, next') => Ok(Member(name, v), next')
  }

  /** The rest of an object, of which acc has been parsed, from where a member must follow. */
  function MembersAt(t: string, i: nat, acc: seq<Member>): (r: Parsed<Json>)
    requires i <= |t|
    ensures r.Ok? ==> i < r.next <= |t|
    decreases |t| - i, 2
  {
    match MemberAt(t, i)
    case Fail(at) => Fail(at)
    case Overrun => Overrun
    case Ok(m, next) =>
      var j := Skip(t, next);
      if CharAt(t, j) == ',' then MembersAt(t, j + 1, acc + [m])
      else if CharAt(t, j) == '}' then Ok(Object(acc + [m]), j + 1)
      else Fail(j)
  }

  /** parse_value */
  method ParseValue(t: string, value: nat) returns (r: Parsed<Json>)
    requires value <= |t|
    ensures r == ValueAt(t, value)
    decreases |t| - value, 0
  {
    if Occurs(t, value, "null") { return Ok(Null, value + 4); }
    if Occurs(t, value, "false") { return Ok(False, value + 5); }
    if Occurs(t, value, "true") { return Ok(True, value + 4); }
    if CharAt(t, value) == '\"' {
      var s := ParseString(t, value);
      match s {
        case Ok(valuestring, next) => return Ok(String(valuestring), next);
        case Fail(at) => return Fail(at);
        case Overrun => return Overrun;
      }
    }
    if CharAt(t, value) == '-' || IsDigit(CharAt(t, value)) {
      var valueint, valuedouble, num := ParseNumber(t, value);
      return Ok(Json.Number(valueint, valuedouble), num);
    }
    if CharAt(t, value) == '[' {
      r := ParseArray(t, value);
      return;
    }
    if CharAt(t, value) == '{' {
      r := ParseObject(t, value);
      return;
    }
    r := Fail(value);
  }

  /** The opening bracket decides for an array. */
  lemma {:induction false} ArrayOpens(t: string, i: nat)
    requires i <= |t| && CharAt(t, i) == '['
    ensures var j := Skip(t, i + 1);
            ValueAt(t, i) == if CharAt(t, j) == ']' then Ok(Array([]), j + 1) else ItemsAt(t, j, [])
  {
  }

  lemma {:induction false} ObjectOpens(t: string, i: nat)
    requires i <= |t| && CharAt(t, i) == '{'
    ensures var j := Skip(t, i + 1);
            ValueAt(t, i) == if CharAt(t, j) == '}' then Ok(Object([]), j + 1) else MembersAt(t, j, [])
  {
  }

  lemma {:induction false} ItemsStep(t: string, i: nat, acc: seq<Json>)
    requires i <= |t|
    ensures ItemsAt(t, i, acc) ==
            match ValueAt(t, Skip(t, i))
            case Fail(at) => Fail(at)
            case Overrun => Overrun
            case Ok(v, next) =>
              var j := Skip(t, next);
              if CharAt(t, j) == ',' then ItemsAt(t, j + 1, acc + [v])
              else if CharAt(t, j) == ']' then Ok(Array(acc + [v]), j + 1)
              else Fail(j)
  {
  }

  lemma {:induction false} MembersStep(t: string, i: nat, acc: seq<Member>)
    requires i <= |t|
    ensures MembersAt(t, i, acc) ==
            match MemberAt(t, i)
            case Fail(at) => Fail(at)
            case Overrun => Overrun
            case Ok(m, next) =>
              var j := Skip(t, next);
              if CharAt(t, j) == ',' then MembersAt(t, j + 1, acc + [m])
              else if CharAt(t, j) == '}' then Ok(Object(acc + [m]), j + 1)
              else Fail(j)
  {
  }

  /** parse_array */
  method ParseArray(t: string, start: nat) returns (r: Parsed<Json>)
    requires start < |t| && CharAt(t, start) == '['
    ensures r == ValueAt(t, start)
    decreases |t| - start - 1, 3
  {
    ArrayOpens(t, start);
    hide ValueAt, ItemsAt;
    var value := Skip(t, start + 1);
    if CharAt(t, value) == ']' { return Ok(Array([]), value + 1); }
    r := ParseItems(t, value);
  }

  /** The loop of parse_array, with the first item before it. */
  method ParseItems(t: string, first: nat) returns (r: Parsed<Json>)
    requires first <= |t|
    ensures r == ItemsAt(t, first, [])
    decreases |t| - first, 2
  {
    hide ValueAt, ItemsAt, Skip;
    var children: seq<Json> := [];
    var child := ParseValue(t, Skip(t, first));
    ItemsStep(t, first, []);
    if !child.Ok? { return if child.Fail? then Fail(child.at) else Overrun; }
    var value := Skip(t, child.next);
    ghost var start := first;
    while CharAt(t, value) == ','
      invariant first <= start < value <= |t| && child == ValueAt(t, Skip(t, start)) && child.Ok?
                  && value == Skip(t, child.next)
      invariant ItemsAt(t, first, []) == ItemsAt(t, start, children)
      decreases |t| - value
    {
      ItemsStep(t, start, children);
      children := children + [child.value];
      start := value + 1;
      child := ParseValue(t, Skip(t, value + 1));
      ItemsStep(t, start, children);
      if !child.Ok? { return if child.Fail? then Fail(child.at) else Overrun; }
      value := Skip(t, child.next);
    }
    ItemsStep(t, start, children);
    if CharAt(t, value) == ']' { return Ok(Array(children + [child.value]), value + 1); }
    r := Fail(value);
  }

  /** A member: parse_string for the name, the colon, and parse_value. */
  method ParseMember(t: string, value: nat) returns (r: Parsed<Member>)
    requires value <= |t|
    ensures r == MemberAt(t, value)
    decreases |t| - value, 1
  {
    var name := ParseString(t, Skip(t, value));
    if !name.Ok? { return if name.Fail? then Fail(name.at) else Overrun; }
    var colon := Skip(t, name.next);
    if CharAt(t, colon) != ':' { return Fail(colon); }
    var child := ParseValue(t, Skip(t, colon + 1));
    if !child.Ok? { return if child.Fail? then Fail(child.at) else Overrun; }
    r := Ok(Member(name.value, child.value), child.next);
  }

  /** parse_object */
  method ParseObject(t: string, start: nat) returns (r: Parsed<Json>)
    requires start < |t| && CharAt(t, start) == '{'
    ensures r == ValueAt(t, start)
    decreases |t| - start - 1, 3
  {
    ObjectOpens(t, start);
    hide ValueAt, MembersAt;
    var value := Skip(t, start + 1);
    if CharAt(t, value) == '}' { return Ok(Object([]), value + 1); }
    r := ParseMembers(t, value);
  }

  /** The loop of parse_object, with the first member before it. */
  method ParseMembers(t: string, first: nat) returns (r: Parsed<Json>)
    requires first <= |t|
    ensures r == MembersAt(t, first, [])
    decreases |t| - first, 2
  {
    hide MemberAt, MembersAt, Skip;
    var children: seq<Member> := [];
    var child := ParseMember(t, first);
    MembersStep(t, first, []);
    if !child.Ok? { return if child.Fail? then Fail(child.at) else Overrun; }
    var value := Skip(t, child.next);
    ghost var start := first;
    while CharAt(t, value) == ','
      invariant first <= start < value <= |t| && child == MemberAt(t, start) && child.Ok?
                  && value == Skip(t, child.next)
      invariant MembersAt(t, first, []) == MembersAt(t, start, children)
      decreases |t| - value
    {
      MembersStep(t, start, children);
      children := children + [child.value];
      start := value + 1;
      child := ParseMember(t, value + 1);
      MembersStep(t, start, children);
      if !child.Ok? { return if child.Fail? then Fail(child.at) else Overrun; }
      value := Skip(t, child.next);
    }
    MembersStep(t, start, children);
    if CharAt(t, value) == '}' { return Ok(Object(children + [child.value]), value + 1); }
    r := Fail(value);
  }

  /** cJSON_ParseWithOpts as a function of the text. */
  function Parsing(t: string, requireNullTerminated: bool): (r: Parsed<Json>) {
    match ValueAt(t, Skip(t, 0))
    case Fail(at) => Fail(at)
    case Overrun => Overrun
    case Ok(v, end) =>
      if requireNullTerminated && CharAt(t, Skip(t, end)) != '\0' then Fail(Skip(t, end))
      else Ok(v, if requireNullTerminated then Skip(t, end) else end)
  }

  /** cJSON_ParseWithOpts */
  method ParseWithOpts(t: string, requireNullTerminated: bool) returns (r: Parsed<Json>)
    ensures r == Parsing(t, requireNullTerminated)
  {
    r := ParseValue(t, Skip(t, 0));
    if r.Ok? && requireNullTerminated {
      var end := Skip(t, r.next);
      r := if CharAt(t, end) != '\0' then Fail(end) else Ok(r.value, end);
    }
  }
}
