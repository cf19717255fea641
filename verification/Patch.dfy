/** JSON Patch in cJSON_Utils.c: applying patches and generating them. */
module Patch {
  import opened Lists
  import opened CText
  import opened CaseOrder
  import opened Numbers
  import opened Json
  import opened Pointers
  import opened Canon
  import opened Edits
  import opened Resolution
  import opened Comparison

  // Applying

  /** What applying a patch comes to: a return code and the tree left behind, or undefined behaviour in C. */
  datatype Outcome = Done(code: int, doc: Json) | Crash

  predicate IsSpace(c: char) {
    c == ' ' || '\t' <= c <= '\r'
  }

  function SkipSpace(s: string, i: nat): (j: nat)
    requires i <= |s|
    ensures i <= j <= |s|
    decreases |s| - i
  {
    if IsSpace(CharAt(s, i)) then SkipSpace(s, i + 1) else i
  }

  /** atoi */
  function Atoi(s: string): (n: int) {
    var i := SkipSpace(s, 0);
    if CharAt(s, i) == '-' then -(ReadDigits(s, i + 1, 0).n as int)
    else ReadDigits(s, if CharAt(s, i) == '+' then i + 1 else i, 0).n
  }

  /** strrchr(path, '/') */
  function LastSlash(path: string): (k: Option<nat>)
    ensures k.Some? ==> k.value < |path| && path[k.value] == '/'
  {
    if path == "" then None
    else if path[|path| - 1] == '/' then Some(|path| - 1)
    else LastSlash(path[..|path| - 1])
  }

  /** A path as the pointer to a parent and the decoded token of a child; C needs a slash and no dangling tilde. */
  datatype Split = Split(parent: string, child: string) | NoChild

  function SplitPath(path: string): (s: Split) {
    match LastSlash(path)
    case None => NoChild
    case Some(k) =>
      match Decode(path[k + 1..])
      case None => NoChild
      case Some(child) => Split(path[..k], child)
  }

  /** cJSON_GetObjectItem: the index of the first member with the name, ignoring case. */
  function ItemIndex(members: seq<Member>, name: string): (k: nat)
    ensures k <= |members|
  {
    if members == [] || Strcasecmp(members[0].name, name) == 0 then 0 else 1 + ItemIndex(members[1..], name)
  }

  function GetItem(v: Json, name: string): (r: Option<Json>) {
    if v.Object? && ItemIndex(v.members, name) < |v.members| then Some(v.members[ItemIndex(v.members, name)].value)
        else None
  }

  /** cJSON_DetachItemFromArray and cJSON_DetachItemFromObject on the parent. */
  function DetachChild(parent: Json, child: string): (r: (Json, Option<Json>)) {
    match parent
    case Array(items) =>
      var i := Position(Atoi(child));
      (Array(Without(items, i)), if i < |items| then Some(items[i]) else None)
    case Object(members) =>
      var i := ItemIndex(members, child);
      (Object(Without(members, i)), if i < |members| then Some(members[i].value) else None)
    case _ => (parent, None)
  }

  /** The end of cJSONUtils_ApplyPatch: adds a value to the parent. */
  function AddChild(parent: Json, child: string, value: Json): (r: Json) {
    match parent
    case Array(items) =>
      Array(if child == "-" then items + [value] else Inserted(items, Atoi(child), value))
    case Object(members) => Object(Without(members, ItemIndex(members, child)) + [Member(child, value)])
    case _ => parent
  }

  datatype Detaching = Detaching(doc: Json, value: Option<Json>) | CrashDetaching

  /** cJSONUtils_PatchDetach */
  function PatchDetach(doc: Json, path: Json): (r: Detaching) {
    if !path.String? then CrashDetaching
    else
      match SplitPath(path.valuestring)
      case NoChild => CrashDetaching
      case Split(parent, child) =>
        match Evaluate(doc, parent, 0)
        case None => Detaching(doc, None)
        case Some(a) =>
          EvaluateIsNode(doc, parent, 0);
          var r := DetachChild(NodeAt(doc, a), child);
          Detaching(UpdateAt(doc, a, r.0), r.1)
  }

  /** The addition of a value at a path. */
  function PatchAdd(doc: Json, path: Json, value: Json): (r: Outcome) {
    if !path.String? then Crash
    else
      match SplitPath(path.valuestring)
      case NoChild => Crash
      case Split(parent, child) =>
        match Evaluate(doc, parent, 0)
        case None => Done(9, doc)
        case Some(a) =>
          EvaluateIsNode(doc, parent, 0);
          Done(0, UpdateAt(doc, a, AddChild(NodeAt(doc, a), child, value)))
  }

  lemma {:induction false} EvaluateIsNode(v: Json, t: string, i: nat)
    requires i <= |t| && Evaluate(v, t, i).Some?
    ensures IsNode(v, Evaluate(v, t, i).value)
    decreases v
  {
    var r := Evaluate(v, t, i).value;
    if CharAt(t, i) == '/' {
      if v.Array? {
        var d := ReadDigits(t, i + 1, 0);
        EvaluateIsNode(v.items[d.n], t, d.next);
        assert r[1..] == Evaluate(v.items[d.n], t, d.next).value;
      } else {
        var k := FirstMatch(v.members, t, i + 1);
        EvaluateIsNode(v.members[k].value, t, TokenEnd(t, i + 1));
        assert r[1..] == Evaluate(v.members[k].value, t, TokenEnd(t, i + 1)).value;
      }
    }
  }

  /** cJSONUtils_ApplyPatch */
  function ApplyPatch(doc: Json, patch: Json): (r: Outcome) {
    var op, path := GetItem(patch, "op"), GetItem(patch, "path");
    if op.None? || path.None? then Done(2, doc)
    else if !op.value.String? then Crash
    else
      match op.value.valuestring
      case "add" => AddValue(doc, patch, path.value)
      case "remove" =>
        (match PatchDetach(doc, path.value)
         case CrashDetaching => Crash
         case Detaching(doc', _) => Done(0, doc'))
      case "replace" =>
        (match PatchDetach(doc, path.value)
         case CrashDetaching => Crash
         case Detaching(doc', _) => AddValue(doc', patch, path.value))
      case "move" => Move(doc, patch, path.value)
      case "copy" => Copy(doc, patch, path.value)
      case "test" => Test(doc, patch, path.value)
      case _ => Done(3, doc)
  }

  function AddValue(doc: Json, patch: Json, path: Json): (r: Outcome) {
    match GetItem(patch, "value")
    case None => Done(7, doc)
    case Some(value) => PatchAdd(doc, path, value)
  }

  function Move(doc: Json, patch: Json, path: Json): (r: Outcome) {
    match GetItem(patch, "from")
    case None => Done(4, doc)
    case Some(from) =>
      match PatchDetach(doc, from)
      case CrashDetaching => Crash
      case Detaching(doc', None) => Done(5, doc')
      case Detaching(doc', Some(value)) => PatchAdd(doc', path, value)
  }

  function Copy(doc: Json, patch: Json, path: Json): (r: Outcome) {
    match GetItem(patch, "from")
    case None => Done(4, doc)
    case Some(from) =>
      if !from.String? then Crash
      else
        match Evaluate(doc, from.valuestring, 0)
        case None => Done(5, doc)
        case Some(a) =>
          EvaluateIsNode(doc, from.valuestring, 0);
          PatchAdd(doc, path, NodeAt(doc, a))
  }

  function Test(doc: Json, patch: Json, path: Json): (r: Outcome) {
    if !path.String? then Crash
    else
      match (Evaluate(doc, path.valuestring, 0), GetItem(patch, "value"))
      case (Some(a), Some(value)) =>
        EvaluateIsNode(doc, path.valuestring, 0);
        Done(Compare(NodeAt(doc, a), value), doc)
      case _ => Crash
  }

  /** cJSONUtils_ApplyPatches */
  function PatchAll(doc: Json, patches: Json): (r: Outcome) {
    if !patches.Array? then Done(1, doc) else ApplySequence(doc, patches.items)
  }

  function ApplySequence(doc: Json, patches: seq<Json>): (r: Outcome)
    decreases |patches|
  {
    if patches == [] then Done(0, doc)
    else
      var first := ApplyPatch(doc, patches[0]);
      if first.Crash? || first.code != 0 then first else ApplySequence(first.doc, patches[1..])
  }

  /** A tree that patches are applied to in place. */
  class Document {
    var root: Json

    constructor (root: Json)
      ensures this.root == root
    {
      this.root := root;
    }

    /** cJSONUtils_ApplyPatches: not ok where C has undefined behaviour. */
    method ApplyPatches(patches: Json) returns (ok: bool, err: int)
      modifies this
      ensures ok == PatchAll(old(root), patches).Done?
      ensures ok ==> PatchAll(old(root), patches) == Done(err, root)
    {
      hide ApplyPatch;
      if !patches.Array? { return true, 1; }
      var i := 0;
      while i < |patches.items|
        invariant i <= |patches.items|
        invariant ApplySequence(root, patches.items[i..]) == ApplySequence(old(root), patches.items)
      {
        assert patches.items[i..][1..] == patches.items[i + 1..];
        match ApplyPatch(root, patches.items[i]) {
          case Crash => return false, 0;
          case Done(code, doc) =>
            root := doc;
            if code != 0 { return true, code; }
        }
        i := i + 1;
      }
      return true, 0;
    }
  }

  // Generated patches

  /** cJSONUtils_GeneratePatch */
  function MakePatch(op: string, path: string, value: Option<Json>): (p: Json) {
    Object([Member("op", String(op)), Member("path", String(path))]
           + if value.Some? then [Member("value", value.value)] else [])
  }

  /** An edit as a patch, for a tree at the given path. */
  function Render(path: string, e: Edit): (p: Json) {
    match e
    case Replace(at, v) => MakePatch("replace", path + PathText(at), Some(v))
    case Remove(at) => MakePatch("remove", path + PathText(at), None)
    case Add(at, v) => MakePatch("add", path + PathText(at), Some(v))
    case Append(at, v) => MakePatch("add", path + PathText(at) + "/-", Some(v))
  }

  function RenderAll(path: string, es: seq<Edit>): (ps: seq<Json>) {
    if es == [] then [] else [Render(path, es[0])] + RenderAll(path, es[1..])
  }

  lemma {:induction false} RenderStep(path: string, es: seq<Edit>)
    ensures RenderAll(path, es) == if es == [] then [] else [Render(path, es[0])] + RenderAll(path, es[1..])
  {
  }

  lemma {:induction false} RenderConcat(path: string, a: seq<Edit>, b: seq<Edit>)
    ensures RenderAll(path, a + b) == RenderAll(path, a) + RenderAll(path, b)
    decreases |a|
  {
    hide RenderAll, Render;
    RenderStep(path, a);
    if a == [] {
      assert a + b == b && [] + RenderAll(path, b) == RenderAll(path, b);
    } else {
      RenderConcat(path, a[1..], b);
      assert (a + b)[0] == a[0] && (a + b)[1..] == a[1..] + b;
      RenderStep(path, a + b);
      PatchesRegroup([Render(path, a[0])], RenderAll(path, a[1..]), RenderAll(path, b));
    }
  }

  lemma {:induction false} RenderUnderOne(path: string, s: Step, e: Edit)
    ensures Render(path, Under(s, e)) == Render(path + "/" + Token(s), e)
  {
    hide PathText, MakePatch, Token;
    PathTextConcat([s], e.at);
    PathTextOne(s);
    assert path + ("/" + Token(s) + PathText(e.at)) == path + "/" + Token(s) + PathText(e.at);
  }

  /** Edits under a step are patches at the longer path. */
  lemma {:induction false} RenderUnder(path: string, s: Step, es: seq<Edit>)
    ensures RenderAll(path, AllUnder(s, es)) == RenderAll(path + "/" + Token(s), es)
    decreases |es|
  {
    hide Render, PathText, Token;
    if es != [] {
      RenderUnder(path, s, es[1..]);
      RenderUnderOne(path, s, es[0]);
      assert AllUnder(s, es)[0] == Under(s, es[0]) && AllUnder(s, es)[1..] == AllUnder(s, es[1..]);
    }
  }

  /** cJSONUtils_CompareToPatch appends to the list of patches. */
  method CompareToPatch(patches: seq<Json>, path: string, from: Json, to: Json) returns (patches': seq<Json>)
    ensures patches' == patches + RenderAll(path, EditsOf(from, to))
    decreases from, 1, 0
  {
    PathTextNone(path);
    var replacement := MakePatch("replace", path, Some(to));
    patches' := patches;
    if !SameKind(from, to) { return patches + [replacement]; }
    match from {
      case Number(valueint, valuedouble) =>
        if valueint != to.valueint || valuedouble != to.valuedouble { patches' := patches + [replacement]; }
      case String(valuestring) =>
        if valuestring != to.valuestring { patches' := patches + [replacement]; }
      case Array(_) => patches' := DiffItems(patches, path, from, to);
      case Object(_) => patches' := DiffMembers(patches, path, from, to);
      case _ =>
    }
  }

  lemma {:induction false} PathTextNone(path: string)
    ensures path + PathText([]) == path
  {
  }

  /** The case of two arrays. */
  method DiffItems(patches: seq<Json>, path: string, from: Json, to: Json) returns (patches': seq<Json>)
    requires from.Array? && to.Array?
    ensures patches' == patches + RenderAll(path, ItemEdits(from, to, 0))
    decreases from, 0, 1
  {
    hide RenderAll, EditsOf, ItemEdits, Removals, Appends;
    patches' := patches;
    var c := 0;
    ghost var whole := patches + RenderAll(path, ItemEdits(from, to, 0));
    while c < |from.items| && c < |to.items|
      invariant c <= |from.items| && c <= |to.items|
      invariant patches' + RenderAll(path, ItemEdits(from, to, c)) == whole
    {
      ItemEditsStep(path, from, to, c, patches');
      patches' := CompareToPatch(patches', path + "/" + Decimal(c), from.items[c], to.items[c]);
      c := c + 1;
    }
    ItemEditsEnd(path, from, to, c, patches');
    var n := c;
    while c < |from.items|
      invariant n <= c && (c <= |from.items| || c == n)
      invariant patches' + (RenderAll(path, Removals(c, |from.items|)) + RenderAll(path, Appends(to.items[n..]))) ==
                  whole
    {
      RemovalStep(path, c, |from.items|, RenderAll(path, Appends(to.items[n..])), patches');
      patches' := patches' + [MakePatch("remove", path + "/" + Encode(Decimal(c)), None)];
      c := c + 1;
    }
    RemovalsEnd(path, c, |from.items|, RenderAll(path, Appends(to.items[n..])), patches');
    var k := n;
    while k < |to.items|
      invariant n <= k <= |to.items|
      invariant patches' + RenderAll(path, Appends(to.items[k..])) == whole
    {
      AppendStep(path, to.items, k, patches');
      patches' := patches' + [MakePatch("add", path + "/" + Encode("-"), Some(to.items[k]))];
      k := k + 1;
    }
    AppendsEnd(path, to.items[k..], patches');
  }

  lemma {:induction false} ItemEditsStep(path: string, from: Json, to: Json, k: nat, ps: seq<Json>)
    requires from.Array? && to.Array? && k < |from.items| && k < |to.items|
    ensures ps + RenderAll(path, ItemEdits(from, to, k)) ==
            ps + RenderAll(path + "/" + Decimal(k), EditsOf(from.items[k], to.items[k])) +
                RenderAll(path, ItemEdits(from, to, k + 1))
  {
    hide RenderAll, EditsOf, AllUnder;
    var es := EditsOf(from.items[k], to.items[k]);
    RenderConcat(path, AllUnder(Index(k), es), ItemEdits(from, to, k + 1));
    RenderUnder(path, Index(k), es);
    PatchesRegroup(ps, RenderAll(path + "/" + Decimal(k), es), RenderAll(path, ItemEdits(from, to, k + 1)));
  }

  lemma {:induction false} PatchesRegroup(a: seq<Json>, b: seq<Json>, c: seq<Json>)
    ensures a + (b + c) == (a + b) + c
  {
  }

  lemma {:induction false} ItemEditsEnd(path: string, from: Json, to: Json, k: nat, ps: seq<Json>)
    requires from.Array? && to.Array? && k <= |from.items| && k <= |to.items| && !(k < |from.items| && k < |to.items|)
    ensures ps + RenderAll(path, ItemEdits(from, to, k)) ==
            ps + (RenderAll(path, Removals(k, |from.items|)) + RenderAll(path, Appends(to.items[k..])))
  {
    RenderConcat(path, Removals(k, |from.items|), Appends(to.items[k..]));
  }

  /** An index is its own encoding. */
  lemma {:induction false} EncodeDecimal(k: nat)
    ensures Encode(Decimal(k)) == Decimal(k)
  {
    PlainEncodes(Digits(k));
  }

  lemma {:induction false} PlainEncodes(s: string)
    requires forall i | 0 <= i < |s| :: s[i] != '/' && s[i] != '~'
    ensures Encode(s) == s
  {
    if s != "" {
      PlainEncodes(s[1..]);
    }
  }

  lemma {:induction false} RemovalStep(path: string, k: nat, n: nat, rest: seq<Json>, ps: seq<Json>)
    requires k < n
    ensures ps + (RenderAll(path, Removals(k, n)) + rest) ==
            (ps + [MakePatch("remove", path + "/" + Encode(Decimal(k)), None)]) +
                (RenderAll(path, Removals(k + 1, n)) + rest)
  {
    hide RenderAll, MakePatch, Encode, Decimal, PathText;
    var e, es, path' := Remove([Index(k)]), Removals(k + 1, n), path + "/" + Encode(Decimal(k));
    EncodeDecimal(k);
    PathTextOne(Index(k));
    assert path + ("/" + Decimal(k)) == path';
    assert Removals(k, n) == [e] + es;
    EditStep(path, e, es, ps);
    var p := MakePatch("remove", path', None);
    PatchesRegroup(ps, RenderAll(path, Removals(k, n)), rest);
    PatchesRegroup(ps + [p], RenderAll(path, es), rest);
  }

  lemma {:induction false} RemovalsEnd(path: string, k: nat, n: nat, rest: seq<Json>, ps: seq<Json>)
    requires k >= n
    ensures ps + (RenderAll(path, Removals(k, n)) + rest) == ps + rest
  {
  }

  lemma {:induction false} AppendStep(path: string, items: seq<Json>, k: nat, ps: seq<Json>)
    requires k < |items|
    ensures ps + RenderAll(path, Appends(items[k..])) ==
            (ps + [MakePatch("add", path + "/" + Encode("-"), Some(items[k]))]) +
                RenderAll(path, Appends(items[k + 1..]))
  {
    PlainEncodes("-");
    PathTextNone(path);
    var p, r := Render(path, Append([], items[k])), RenderAll(path, Appends(items[k + 1..]));
    assert path + "/" + "-" == path + "/-";
    assert items[k..][1..] == items[k + 1..] && Appends(items[k..])[1..] == Appends(items[k + 1..]);
    assert RenderAll(path, Appends(items[k..])) == [p] + r;
    PatchesRegroup(ps, [p], r);
  }

  lemma {:induction false} AppendsEnd(path: string, items: seq<Json>, ps: seq<Json>)
    requires |items| == 0
    ensures ps + RenderAll(path, Appends(items)) == ps
  {
  }

  /** The case of two objects: both are sorted, then walked together. */
  method DiffMembers(patches: seq<Json>, path: string, from: Json, to: Json) returns (patches': seq<Json>)
    requires from.Object? && to.Object?
    ensures patches' == patches + RenderAll(path, EditsOf(from, to))
    decreases from, 0, 1
  {
    hide RenderAll, EditsOf, MemberEdits, SortedMembers;
    SortedFrom(from);
    ObjectEdits(from, to);
    var a, b := SortedMembers(from.members), SortedMembers(to.members);
    ghost var whole := patches + RenderAll(path, MemberEdits(from, a, b));
    patches' := patches;
    while a != [] || b != []
      invariant From(from, a) && patches' + RenderAll(path, MemberEdits(from, a, b)) == whole
      decreases |a| + |b|
    {
      MemberEditsStep(path, from, a, b, patches');
      var diff := if a == [] then 1 else if b == [] then -1 else Strcasecmp(a[0].name, b[0].name);
      if diff > 0 {
        patches' := patches' + [MakePatch("add", path + "/" + Encode(b[0].name), Some(b[0].value))];
        b := b[1..];
      } else {
        if diff < 0 {
          patches' := patches' + [MakePatch("remove", path + "/" + Encode(a[0].name), None)];
          a := a[1..];
        } else {
          patches' := CompareToPatch(patches', path + "/" + Encode(a[0].name), a[0].value, b[0].value);
          a, b := a[1..], b[1..];
        }
      }
    }
    MemberEditsEnd(path, from, a, b, patches');
  }

  lemma {:induction false} ObjectEdits(from: Json, to: Json)
    requires from.Object? && to.Object?
    ensures From(from, SortedMembers(from.members))
    ensures EditsOf(from, to) == MemberEdits(from, SortedMembers(from.members), SortedMembers(to.members))
  {
    SortedFrom(from);
  }

  lemma {:induction false} MemberEditsEnd(path: string, from: Json, a: seq<Member>, b: seq<Member>, ps: seq<Json>)
    requires From(from, a) && a == [] && b == []
    ensures ps + RenderAll(path, MemberEdits(from, a, b)) == ps
  {
  }

  lemma {:induction false} MemberEditsStep(path: string, from: Json, a: seq<Member>, b: seq<Member>, ps: seq<Json>)
    requires From(from, a) && (a != [] || b != [])
    ensures var diff := Diff(a, b);
            if diff > 0 then
              ps + RenderAll(path, MemberEdits(from, a, b)) ==
              (ps + [MakePatch("add", path + "/" + Encode(b[0].name), Some(b[0].value))]) +
                  RenderAll(path, MemberEdits(from, a, b[1..]))
            else
              && From(from, a[1..])
              && if diff < 0 then
                   ps + RenderAll(path, MemberEdits(from, a, b)) ==
                   (ps + [MakePatch("remove", path + "/" + Encode(a[0].name), None)]) +
                       RenderAll(path, MemberEdits(from, a[1..], b))
                 else
                   ps + RenderAll(path, MemberEdits(from, a, b)) ==
                   (ps + RenderAll(path + "/" + Encode(a[0].name), EditsOf(a[0].value, b[0].value)))
                   + RenderAll(path, MemberEdits(from, a[1..], b[1..]))
  {
    hide RenderAll, MakePatch, EditsOf, Encode, PathText;
    if Diff(a, b) > 0 {
      EditStep(path, Add([Key(b[0].name)], b[0].value), MemberEdits(from, a, b[1..]), ps);
      PathTextOne(Key(b[0].name));
      assert path + ("/" + Encode(b[0].name)) == path + "/" + Encode(b[0].name);
    } else {
      PathTextOne(Key(a[0].name));
      assert path + ("/" + Encode(a[0].name)) == path + "/" + Encode(a[0].name);
      if Diff(a, b) < 0 {
        EditStep(path, Remove([Key(a[0].name)]), MemberEdits(from, a[1..], b), ps);
      } else {
        var es, rest := EditsOf(a[0].value, b[0].value), MemberEdits(from, a[1..], b[1..]);
        RenderConcat(path, AllUnder(Key(a[0].name), es), rest);
        RenderUnder(path, Key(a[0].name), es);
        PatchesRegroup(ps, RenderAll(path + "/" + Encode(a[0].name), es), RenderAll(path, rest));
      }
    }
  }

  lemma {:induction false} EditStep(path: string, e: Edit, es: seq<Edit>, ps: seq<Json>)
    ensures ps + RenderAll(path, [e] + es) == (ps + [Render(path, e)]) + RenderAll(path, es)
  {
    RenderConcat(path, [e], es);
    PatchesRegroup(ps, [Render(path, e)], RenderAll(path, es));
  }

  /** cJSONUtils_GeneratePatches */
  method GeneratePatches(from: Json, to: Json) returns (patches: Json)
    ensures patches == Array(RenderAll("", EditsOf(from, to)))
  {
    var ps := CompareToPatch([], "", from, to);
    assert [] + RenderAll("", EditsOf(from, to)) == RenderAll("", EditsOf(from, to));
    patches := Array(ps);
  }
}
