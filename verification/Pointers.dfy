/** JSON Pointer in cJSON_Utils.c: token encoding, construction from a node, and evaluation. */
module Pointers {
  import opened CText
  import opened CaseOrder
  import opened Numbers
  import opened Quoting
  import opened Json
  import Minify

  datatype Option<T> = Some(value: T) | None

  /**
   Where a node stands in a tree: the child indices on the way to it. Two nodes
   are the same if they stand at the same place.
   */
  type Address = seq<nat>

  /** How one character appears in a token (section 3 of RFC 6901). */
  function Escaped(c: char): (e: string) {
    if c == '/' then "~1" else if c == '~' then "~0" else [c]
  }

  function Encode(s: string): (e: string)
    ensures |e| >= |s|
  {
    if s == "" then "" else Escaped(s[0]) + Encode(s[1..])
  }

  /** cJSONUtils_InplaceDecodePointerString, or None when a final ~ makes it run past the terminator. */
  function Decode(s: string): (d: Option<string>)
    decreases |s|
  {
    if s == "" then Some("")
    else if s[0] == '~' && |s| == 1 then None
    else
      var c := if s[0] != '~' then s[0] else if s[1] == '0' then '~' else '/';
      match Decode(s[if s[0] == '~' then 2 else 1..])
      case Some(rest) => Some([c] + rest)
      case None => None
  }

  /** Decoding undoes encoding (section 4 of RFC 6901). */
  lemma {:induction false} DecodeEncode(s: string)
    ensures Decode(Encode(s)) == Some(s)
  {
    if s != "" {
      DecodeEncode(s[1..]);
      var e := Encode(s);
      assert e[if e[0] == '~' then 2 else 1..] == Encode(s[1..]);
      assert [s[0]] + s[1..] == s;
    }
  }

  /** rest, after the character c. */
  function Onto(s: string, rest: Option<string>): (r: Option<string>) {
    if rest.Some? then Some(s + rest.value) else None
  }

  lemma {:induction false} OntoOnto(a: string, b: string, rest: Option<string>)
    ensures Onto(a, Onto(b, rest)) == Onto(a + b, rest)
  {
    if rest.Some? {
      assert a + (b + rest.value) == (a + b) + rest.value;
    }
  }

  lemma {:induction false} DecodeStep(t: string, p: nat)
    requires p < |t|
    ensures if t[p] != '~' then Decode(t[p..]) == Onto([t[p]], Decode(t[p + 1..]))
            else if p + 1 == |t| then Decode(t[p..]) == None
            else Decode(t[p..]) == Onto(if t[p + 1] == '0' then "~" else "/", Decode(t[p + 2..]))
  {
    assert t[p..][1..] == t[p + 1..];
    if p + 1 < |t| {
      assert t[p..][2..] == t[p + 2..];
    }
  }

  /** cJSONUtils_InplaceDecodePointerString: whether the scan stops at the terminator, and what it leaves then. */
  method DecodeInPlace(s: array<char>, ghost t: string) returns (ok: bool)
    requires CString(t) && Minify.Unread(s, t, 0, 0)
    modifies s
    ensures ok == Decode(t).Some?
    ensures ok ==> Holds(s, 0, Decode(t).value)
  {
    hide Decode;
    var s2: nat, pos: nat := 0, 0;
    assert t[0..] == t;
    OntoNothing(s[..0], Decode(t));
    while s[pos] != '\0'
      invariant Minify.Unread(s, t, s2, pos)
      invariant Decode(t) == Onto(s[..s2], Decode(t[pos..]))
      decreases |t| - pos
    {
      DecodeStep(t, pos);
      ghost var before := s[..s2];
      if s[pos] != '~' {
        s[s2] := s[pos];
      } else {
        pos := pos + 1;
        if s[pos] == '\0' { return false; }
        s[s2] := if s[pos] == '0' then '~' else '/';
      }
      s2, pos := s2 + 1, pos + 1;
      assert s[..s2] == before + [s[s2 - 1]];
      OntoOnto(before, [s[s2 - 1]], Decode(t[pos..]));
    }
    s[s2] := '\0';
    ok := true;
    DecodeNothing();
    assert t[pos..] == "" && s[..s2] + "" == s[..s2] == s[0..s2];
  }

  lemma {:induction false} OntoNothing(a: string, rest: Option<string>)
    requires a == ""
    ensures Onto(a, rest) == rest
  {
    if rest.Some? {
      assert a + rest.value == rest.value;
    }
  }

  lemma {:induction false} DecodeNothing()
    ensures Decode("") == Some("")
  {
  }

  lemma {:induction false} EncodeConcat(a: string, b: string)
    ensures Encode(a + b) == Encode(a) + Encode(b)
  {
    if a == "" {
      assert a + b == b;
    } else {
      EncodeConcat(a[1..], b);
      assert (a + b)[0] == a[0] && (a + b)[1..] == a[1..] + b;
      Regroup(Escaped(a[0]), Encode(a[1..]), Encode(b));
    }
  }

  lemma {:induction false} Regroup(a: string, b: string, c: string)
    ensures a + (b + c) == (a + b) + c
  {
  }

  lemma {:induction false} EncodeStep(s: string, k: nat)
    requires k < |s|
    ensures Encode(s[..k + 1]) == Encode(s[..k]) + Encode([s[k]])
    ensures |Encode(s[..k + 1])| <= |Encode(s)|
  {
    assert s[..k + 1] == s[..k] + [s[k]] && s == s[..k + 1] + s[k + 1..];
    EncodeConcat(s[..k], [s[k]]);
    EncodeConcat(s[..k + 1], s[k + 1..]);
  }

  /** cJSONUtils_PointerEncodedstrlen: the length the encoding needs. */
  method EncodedLength(s: string) returns (l: nat)
    requires CString(s)
    ensures l == |Encode(s)|
  {
    l := 0;
    var i := 0;
    while CharAt(s, i) != '\0'
      invariant i <= |s| && l == |Encode(s[..i])|
      decreases |s| - i
    {
      EncodeStep(s, i);
      if s[i] == '~' || s[i] == '/' { l := l + 1; }
      l, i := l + 1, i + 1;
    }
    assert s[..i] == s;
  }

  /** cJSONUtils_PointerEncodedstrcpy, into room for exactly the encoded length and the terminator. */
  method EncodeInto(d: array<char>, at: nat, s: string)
    requires CString(s) && at + |Encode(s)| < d.Length
    modifies d
    ensures d[..at] == old(d[..at]) && Holds(d, at, Encode(s))
  {
    hide Encode;
    var next, i := at, 0;
    EncodeNothing();
    assert s[..0] == "" && old(d[..at]) + "" == d[..at];
    while CharAt(s, i) != '\0'
      invariant i <= |s| && next == at + |Encode(s[..i])| <= at + |Encode(s)|
      invariant d[..next] == old(d[..at]) + Encode(s[..i])
      decreases |s| - i
    {
      EncodeStep(s, i);
      EncodeChar(s[i]);
      assert old(d[..at]) + Encode(s[..i]) + Encode([s[i]]) == old(d[..at]) + Encode(s[..i + 1]);
      if s[i] == '/' {
        next := PutAll(d, next, "~1");
      } else if s[i] == '~' {
        next := PutAll(d, next, "~0");
      } else {
        next := Put(d, next, s[i]);
      }
      i := i + 1;
    }
    assert s[..i] == s;
    d[next] := '\0';
    HoldsAt(d, at, Encode(s), old(d[..at]));
  }

  lemma {:induction false} EncodeNothing()
    ensures Encode("") == ""
  {
  }

  lemma {:induction false} EncodeChar(c: char)
    ensures Encode([c]) == Escaped(c)
  {
    EncodeNothing();
    assert [c][1..] == "";
  }

  /** The token that starts at position i ends at the next slash or at the end. */
  function TokenEnd(t: string, i: nat): (j: nat)
    requires i <= |t|
    ensures i <= j <= |t|
    decreases |t| - i
  {
    if CharAt(t, i) != '\0' && CharAt(t, i) != '/' then TokenEnd(t, i + 1) else i
  }

  /** cJSONUtils_Pstrcasecmp of the name a[k..] and the encoded token at position i: whether it returns 0. */
  predicate NameMatches(a: string, k: nat, t: string, i: nat)
    decreases |a| - k
  {
    var x, y := CharAt(a, k), CharAt(t, i);
    if x != '\0' && y != '\0' && y != '/' then
      if y == '~' then
        ((CharAt(t, i + 1) == '0' && x == '~') || (CharAt(t, i + 1) == '1' && x == '/'))
            && NameMatches(a, k + 1, t, i + 2)
      else ToLower(x) == ToLower(y) && NameMatches(a, k + 1, t, i + 1)
    else (y != '\0' && y != '/') == (x != '\0')
  }

  /** cJSONUtils_Pstrcasecmp */
  method ComparePointer(a: string, t: string, start: nat) returns (r: int)
    ensures r == 0 <==> NameMatches(a, 0, t, start)
  {
    var k, i := 0, start;
    while CharAt(a, k) != '\0' && CharAt(t, i) != '\0' && CharAt(t, i) != '/'
      invariant NameMatches(a, 0, t, start) == NameMatches(a, k, t, i)
      decreases |a| - k
    {
      if CharAt(t, i) == '~' {
        if !(CharAt(t, i + 1) == '0' && CharAt(a, k) == '~') && !(CharAt(t, i + 1) == '1' && CharAt(a, k) == '/') {
          return 1;
        }
        i := i + 1;
      } else if ToLower(CharAt(a, k)) != ToLower(CharAt(t, i)) {
        return 1;
      }
      k, i := k + 1, i + 1;
    }
    r := if (CharAt(t, i) != '\0' && CharAt(t, i) != '/') != (CharAt(a, k) != '\0') then 1 else 0;
  }

  /** A name matches the encoding of b exactly if it equals b up to case. */
  lemma {:induction false} MatchesEncoded(a: string, k: nat, b: string, t: string, i: nat)
    requires CString(a) && CString(b) && k <= |a| && Occurs(t, i, Encode(b))
    requires CharAt(t, i + |Encode(b)|) == '\0' || CharAt(t, i + |Encode(b)|) == '/'
    ensures NameMatches(a, k, t, i) <==> Fold(a[k..]) == Fold(b)
    decreases |b|
  {
    if b != "" {
      var e := Escaped(b[0]);
      OccursConcat(t, i, e, Encode(b[1..]));
      if k < |a| {
        assert a[k..][1..] == a[k + 1..];
        MatchesEncoded(a, k + 1, b[1..], t, i + |e|);
        LowerKeepsMarks(a[k], b[0]);
        LowerKeepsMarks(b[0], a[k]);
        ConsEqual(ToLower(a[k]), Fold(a[k + 1..]), ToLower(b[0]), Fold(b[1..]));
      }
    }
  }

  lemma {:induction false} ConsEqual(x: char, s: string, y: char, t: string)
    ensures [x] + s == [y] + t <==> x == y && s == t
  {
    assert ([x] + s)[1..] == s && ([y] + t)[1..] == t;
    assert ([x] + s)[0] == x && ([y] + t)[0] == y;
  }

  /** Folding case maps nothing else to a slash or a tilde. */
  lemma {:induction false} LowerKeepsMarks(x: char, y: char)
    ensures y == '/' || y == '~' ==> (ToLower(x) == ToLower(y) <==> x == y)
  {
  }

  function ChildCount(v: Json): (n: nat) {
    match v
    case Array(items) => |items|
    case Object(members) => |members|
    case _ => 0
  }

  function ChildAt(v: Json, k: nat): (c: Json)
    requires k < ChildCount(v)
    ensures c < v
  {
    if v.Array? then v.items[k] else v.members[k].value
  }

  /** There is a node at this address. */
  predicate IsNode(v: Json, a: Address)
    decreases |a|
  {
    a != [] ==> a[0] < ChildCount(v) && IsNode(ChildAt(v, a[0]), a[1..])
  }

  predicate NamesOk(v: Json) {
    match v
    case Array(items) => forall i | 0 <= i < |items| :: NamesOk(items[i])
    case Object(members) => forall i | 0 <= i < |members| :: CString(members[i].name) && NamesOk(members[i].value)
    case _ => true
  }

  /** The token for the child at index k: a decimal index, or an encoded name. */
  function TokenOf(v: Json, k: nat): (s: string)
    requires k < ChildCount(v)
  {
    if v.Array? then Decimal(k) else Encode(v.members[k].name)
  }

  /** The pointer to the node at an address (section 3 of RFC 6901). */
  function PointerTo(v: Json, a: Address): (s: string)
    requires IsNode(v, a)
    decreases |a|
  {
    if a == [] then "" else "/" + TokenOf(v, a[0]) + PointerTo(ChildAt(v, a[0]), a[1..])
  }

  /** The node at the address target is v, which stands at here, or below it. */
  predicate Below(v: Json, here: Address, target: Address) {
    here <= target && IsNode(v, target[|here|..])
  }

  /** cJSONUtils_FindPointerFromObjectTo: the search visits the tree depth first. */
  method FindPointer(v: Json, here: Address, target: Address) returns (r: Option<string>)
    ensures r == if Below(v, here, target) then Some(PointerTo(v, target[|here|..])) else None
    decreases v
  {
    if here == target {
      assert target[|here|..] == [];
      return Some("");
    }
    for c := 0 to ChildCount(v)
      invariant forall k: nat | k < c :: !Below(ChildAt(v, k), here + [k], target)
    {
      var found := FindPointer(ChildAt(v, c), here + [c], target);
      if found.Some? {
        assert |here + [c]| == |here| + 1;
        return Some("/" + TokenOf(v, c) + found.value);
      }
    }
    if Below(v, here, target) {
      assert target[|here|..] != [] by { assert |target| > |here|; }
    }
    return None;
  }

  /** The first member whose name matches the token at position i; the number of members if there is none. */
  function FirstMatch(members: seq<Member>, t: string, i: nat): (k: nat)
    ensures k <= |members|
  {
    if members == [] || NameMatches(members[0].name, 0, t, i) then 0 else 1 + FirstMatch(members[1..], t, i)
  }

  function Prepend(k: nat, r: Option<Address>): (r': Option<Address>) {
    if r.Some? then Some([k] + r.value) else None
  }

  /** cJSONUtils_GetPointer: the address below v that the pointer text leads to from position i on. */
  function Evaluate(v: Json, t: string, i: nat): (r: Option<Address>)
    requires i <= |t|
    decreases v
  {
    if CharAt(t, i) != '/' then Some([])
    else
      match v
      case Array(items) =>
        var d := ReadDigits(t, i + 1, 0);
        if CharAt(t, d.next) != '\0' && CharAt(t, d.next) != '/' then None
        else if d.n < |items| then Prepend(d.n, Evaluate(items[d.n], t, d.next))
        else None
      case Object(members) =>
        var k := FirstMatch(members, t, i + 1);
        if k < |members| then Prepend(k, Evaluate(members[k].value, t, TokenEnd(t, i + 1))) else None
      case _ => None
  }

  /** On the way to the address, no earlier sibling has the same name up to case. */
  predicate FirstAt(v: Json, a: Address)
    requires IsNode(v, a)
    decreases |a|
  {
    a != [] ==>
      && (v.Object? ==> FirstNamed(v.members, a[0]))
      && FirstAt(ChildAt(v, a[0]), a[1..])
  }

  lemma {:induction false} TokenEndOf(t: string, i: nat, s: string)
    requires Occurs(t, i, s) && (forall k | 0 <= k < |s| :: s[k] != '/' && s[k] != '\0')
    requires CharAt(t, i + |s|) == '\0' || CharAt(t, i + |s|) == '/'
    ensures i <= |t| && TokenEnd(t, i) == i + |s|
    decreases |s|
  {
    if s != "" {
      TokenEndOf(t, i + 1, s[1..]);
    }
  }

  lemma {:induction false} EncodedPlain(s: string)
    requires CString(s)
    ensures forall k | 0 <= k < |Encode(s)| :: Encode(s)[k] != '/' && Encode(s)[k] != '\0'
  {
    if s != "" {
      EncodedPlain(s[1..]);
    }
  }

  /** A token for the name of member k leads to the first member with that name. */
  lemma {:induction false} FirstMatchOf(members: seq<Member>, k: nat, name: string, t: string, i: nat)
    requires k < |members| && (forall j | 0 <= j < |members| :: CString(members[j].name))
    requires CString(name) && Fold(members[k].name) == Fold(name) && Occurs(t, i, Encode(name))
    requires var e := i + |Encode(name)|; CharAt(t, e) == '\0' || CharAt(t, e) == '/'
    ensures FirstMatch(members, t, i) == k <==> forall j | 0 <= j < k :: Fold(members[j].name) != Fold(members[k].name)
    ensures FirstMatch(members, t, i) <= k
    decreases k
  {
    MatchesEncoded(members[0].name, 0, name, t, i);
    assert members[0].name[0..] == members[0].name;
    if k > 0 {
      FirstMatchOf(members[1..], k - 1, name, t, i);
      assert forall j | 0 <= j < k - 1 :: members[1..][j] == members[j + 1];
      assert (forall j | 0 <= j < k :: Fold(members[j].name) != Fold(members[k].name)) <==>
             Fold(members[0].name) != Fold(members[k].name)
             && forall j | 0 <= j < k - 1 :: Fold(members[1..][j].name) != Fold(members[k].name);
    }
  }

  lemma {:induction false} DecimalReads(t: string, i: nat, k: nat)
    requires Occurs(t, i, Decimal(k)) && !IsDigit(CharAt(t, i + |Decimal(k)|))
    ensures i <= |t| && ReadDigits(t, i, 0) == Scanned(k, i + |Decimal(k)|)
  {
    ReadDigitsOf(t, i, k, 0);
    OccursChar(t, i, Digits(k), 0);
  }

  lemma {:induction false} ArrayStep(v: Json, k: nat, t: string, i: nat)
    requires v.Array? && k < |v.items| && CharAt(t, i) == '/' && Occurs(t, i + 1, Decimal(k))
    requires var e := i + 1 + |Decimal(k)|; CharAt(t, e) == '\0' || CharAt(t, e) == '/'
    ensures i + 1 + |Decimal(k)| <= |t|
    ensures Evaluate(v, t, i) == Prepend(k, Evaluate(v.items[k], t, i + 1 + |Decimal(k)|))
  {
    OccursChar(t, i + 1, Decimal(k), 0);
    DecimalReads(t, i + 1, k);
  }

  predicate FirstNamed(members: seq<Member>, k: nat)
    requires k < |members|
  {
    forall j | 0 <= j < k :: Fold(members[j].name) != Fold(members[k].name)
  }

  lemma {:induction false} ObjectStep(v: Json, k: nat, name: string, t: string, i: nat)
    requires v.Object? && NamesOk(v) && k < |v.members| && CString(name) && Fold(v.members[k].name) == Fold(name)
    requires CharAt(t, i) == '/' && Occurs(t, i + 1, Encode(name))
    requires var e := i + 1 + |Encode(name)|; CharAt(t, e) == '\0' || CharAt(t, e) == '/'
    ensures i + 1 + |Encode(name)| <= |t|
    ensures if FirstNamed(v.members, k)
            then Evaluate(v, t, i) == Prepend(k, Evaluate(v.members[k].value, t, i + 1 + |Encode(name)|))
            else Evaluate(v, t, i).Some? ==> |Evaluate(v, t, i).value| > 0 && Evaluate(v, t, i).value[0] < k
  {
    EncodedPlain(name);
    TokenEndOf(t, i + 1, Encode(name));
    FirstMatchOf(v.members, k, name, t, i + 1);
  }

  /**
   Pointer construction and evaluation are inverse, exactly for the nodes that
   no earlier sibling with the same name up to case hides on the way.
   */
  lemma {:induction false} EvaluatePointer(v: Json, a: Address, t: string, i: nat)
    requires NamesOk(v) && IsNode(v, a)
    requires Occurs(t, i, PointerTo(v, a)) && i + |PointerTo(v, a)| == |t|
    ensures Evaluate(v, t, i) == Some(a) <==> FirstAt(v, a)
    decreases |a|
  {
    if a != [] {
      StepDown(v, a, t, i);
    }
  }

  lemma {:induction false} StepDown(v: Json, a: Address, t: string, i: nat)
    requires a != [] && NamesOk(v) && IsNode(v, a)
    requires Occurs(t, i, PointerTo(v, a)) && i + |PointerTo(v, a)| == |t|
    ensures Evaluate(v, t, i) == Some(a) <==> FirstAt(v, a)
    decreases |a|, 0
  {
    hide Evaluate, PointerTo, Occurs, Decimal, Encode, NamesOk, FirstNamed, FirstAt;
    var k, c := a[0], ChildAt(v, a[0]);
    var token, rest := TokenOf(v, k), PointerTo(c, a[1..]);
    Unfolded(v, a);
    OccursConcat(t, i, "/" + token, rest);
    OccursConcat(t, i, "/", token);
    OccursChar(t, i, "/", 0);
    var e := i + 1 + |token|;
    RestStarts(t, e, c, a[1..]);
    EvaluatePointer(c, a[1..], t, e);
    if v.Array? {
      ArrayStep(v, k, t, i);
    } else {
      ObjectStep(v, k, v.members[k].name, t, i);
    }
    PrependIs(k, a, Evaluate(c, t, e));
  }

  lemma {:induction false} Unfolded(v: Json, a: Address)
    requires a != [] && IsNode(v, a) && NamesOk(v)
    ensures PointerTo(v, a) == "/" + TokenOf(v, a[0]) + PointerTo(ChildAt(v, a[0]), a[1..])
    ensures FirstAt(v, a) <==> (v.Object? ==> FirstNamed(v.members, a[0])) && FirstAt(ChildAt(v, a[0]), a[1..])
    ensures NamesOk(ChildAt(v, a[0])) && (v.Object? ==> CString(v.members[a[0]].name))
  {
  }

  lemma {:induction false} RestStarts(t: string, e: nat, v: Json, a: Address)
    requires IsNode(v, a) && Occurs(t, e, PointerTo(v, a)) && e + |PointerTo(v, a)| == |t|
    ensures CharAt(t, e) == '\0' || CharAt(t, e) == '/'
  {
    if a != [] {
      OccursChar(t, e, PointerTo(v, a), 0);
    }
  }

  lemma {:induction false} PrependIs(k: nat, a: Address, r: Option<Address>)
    requires a != []
    ensures Prepend(k, r) == Some(a) <==> k == a[0] && r == Some(a[1..])
  {
    assert a == [a[0]] + a[1..];
    if r.Some? {
      assert ([k] + r.value)[1..] == r.value;
    }
  }

  /** Sibling names differ, ignoring case, throughout the tree. */
  predicate DistinctNames(v: Json) {
    match v
    case Array(items) => forall i | 0 <= i < |items| :: DistinctNames(items[i])
    case Object(members) =>
      && (forall i, j | 0 <= i < j < |members| :: Fold(members[i].name) != Fold(members[j].name))
      && (forall i | 0 <= i < |members| :: DistinctNames(members[i].value))
    case _ => true
  }

  lemma {:induction false} DistinctFirst(v: Json, a: Address)
    requires DistinctNames(v) && IsNode(v, a)
    ensures FirstAt(v, a)
    decreases |a|
  {
    if a != [] {
      DistinctFirst(ChildAt(v, a[0]), a[1..]);
    }
  }

  /** The node at an address. */
  function NodeAt(v: Json, a: Address): (n: Json)
    requires IsNode(v, a)
    decreases |a|
  {
    if a == [] then v else NodeAt(ChildAt(v, a[0]), a[1..])
  }

  lemma {:induction false} NodeBelow(v: Json, a: Address, k: nat)
    requires IsNode(v, a) && k < ChildCount(NodeAt(v, a))
    ensures IsNode(v, a + [k]) && NodeAt(v, a + [k]) == ChildAt(NodeAt(v, a), k)
    decreases |a|
  {
    if a == [] {
      assert (a + [k])[1..] == [];
    } else {
      assert (a + [k])[1..] == a[1..] + [k];
      NodeBelow(ChildAt(v, a[0]), a[1..], k);
    }
  }

  /** The remaining evaluation, after the address a has been reached. */
  function After(a: Address, r: Option<Address>): (r': Option<Address>) {
    if r.Some? then Some(a + r.value) else None
  }

  lemma {:induction false} AfterPrepend(a: Address, k: nat, r: Option<Address>)
    ensures After(a, Prepend(k, r)) == After(a + [k], r)
  {
    if r.Some? {
      assert a + ([k] + r.value) == (a + [k]) + r.value;
    }
  }

  /** The search for the child whose name matches the token. */
  method FindMember(members: seq<Member>, t: string, pointer: nat) returns (k: nat)
    ensures k == FirstMatch(members, t, pointer)
  {
    k := 0;
    while k < |members|
      invariant k <= |members| && FirstMatch(members, t, pointer) == k + FirstMatch(members[k..], t, pointer)
    {
      assert members[k..][1..] == members[k + 1..];
      var r := ComparePointer(members[k].name, t, pointer);
      if r == 0 { return; }
      k := k + 1;
    }
  }

  method SkipToken(t: string, start: nat) returns (pointer: nat)
    requires start <= |t|
    ensures pointer == TokenEnd(t, start)
  {
    pointer := start;
    while CharAt(t, pointer) != '\0' && CharAt(t, pointer) != '/'
      invariant pointer <= |t| && TokenEnd(t, pointer) == TokenEnd(t, start)
      decreases |t| - pointer
    {
      pointer := pointer + 1;
    }
  }

  /** cJSONUtils_GetPointer, for a root that is there: the address of the node, and the node. */
  method GetPointer(v: Json, t: string) returns (r: Option<Address>, node: Json)
    ensures r == Evaluate(v, t, 0)
    ensures r.Some? ==> IsNode(v, r.value) && node == NodeAt(v, r.value)
  {
    hide Evaluate, IsNode, NodeAt;
    var pointer: nat, at: Address := 0, [];
    node := v;
    EvaluateStart(v, t);
    while CharAt(t, pointer) == '/'
      invariant pointer <= |t| && IsNode(v, at) && node == NodeAt(v, at)
      invariant Evaluate(v, t, 0) == After(at, Evaluate(node, t, pointer))
      decreases node
    {
      EvaluateStep(node, t, pointer);
      var which;
      if node.Array? {
        which, pointer := CollectDigits(t, pointer + 1, 0);
        if CharAt(t, pointer) != '\0' && CharAt(t, pointer) != '/' { return None, node; }
      } else if node.Object? {
        which := FindMember(node.members, t, pointer + 1);
        pointer := SkipToken(t, pointer + 1);
      } else {
        return None, node;
      }
      if which >= ChildCount(node) { return None, node; }
      NodeBelow(v, at, which);
      AfterPrepend(at, which, Evaluate(ChildAt(node, which), t, pointer));
      node := ChildAt(node, which);
      at := at + [which];
    }
    EvaluateStep(node, t, pointer);
    assert at + [] == at;
    r := Some(at);
  }

  lemma {:induction false} EvaluateStart(v: Json, t: string)
    ensures IsNode(v, []) && NodeAt(v, []) == v && Evaluate(v, t, 0) == After([], Evaluate(v, t, 0))
  {
    if Evaluate(v, t, 0).Some? {
      assert [] + Evaluate(v, t, 0).value == Evaluate(v, t, 0).value;
    }
  }

  lemma {:induction false} EvaluateStep(v: Json, t: string, i: nat)
    requires i <= |t|
    ensures Evaluate(v, t, i) ==
            if CharAt(t, i) != '/' then Some([])
            else if v.Array? then
              var d := ReadDigits(t, i + 1, 0);
              if (CharAt(t, d.next) != '\0' && CharAt(t, d.next) != '/') || d.n >= |v.items| then None
              else Prepend(d.n, Evaluate(v.items[d.n], t, d.next))
            else if v.Object? && FirstMatch(v.members, t, i + 1) < |v.members| then
              var k := FirstMatch(v.members, t, i + 1);
              Prepend(k, Evaluate(v.members[k].value, t, TokenEnd(t, i + 1)))
            else None
  {
  }

  /** With distinct sibling names, evaluating the pointer that is found for a node gives that node. */
  lemma {:induction false} PointerLeadsBack(v: Json, a: Address)
    requires NamesOk(v) && DistinctNames(v) && IsNode(v, a)
    ensures Evaluate(v, PointerTo(v, a), 0) == Some(a)
  {
    var t := PointerTo(v, a);
    assert t[0..] == t;
    OccursSuffix(t, 0);
    DistinctFirst(v, a);
    EvaluatePointer(v, a, t, 0);
  }

  /** The encodings of section 5 of RFC 6901. */
  lemma {:induction false} EncodedExamples()
    ensures Encode("a/b") == "a~1b" && Encode("m~n") == "m~0n"
  {
    assert "a/b"[1..] == "/b" && "/b"[1..] == "b" && "b"[1..] == "";
    assert "m~n"[1..] == "~n" && "~n"[1..] == "n" && "n"[1..] == "";
    assert Encode("b") == "b" && Encode("n") == "n";
    assert Encode("/b") == "~1b" && Encode("~n") == "~0n";
  }
}
