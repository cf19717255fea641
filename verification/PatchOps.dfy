/** What the operations of JSON Patch do to a tree, for any paths (section 4 of RFC 6902). */
module PatchOps {
  import opened Lists
  import opened CText
  import opened CaseOrder
  import opened Numbers
  import Numerals
  import opened Json
  import opened Pointers
  import opened Canon
  import opened Edits
  import opened Resolution
  import opened Comparison
  import opened Patch
  import opened PatchLaws
  import opened Tokens

  /** A place that a path names: a child, given by its decoded name, of the node that the tokens select. */
  datatype Place = Place(toks: seq<string>, last: string, child: string)

  /** The last token must not end in a lone tilde: C would read past the terminator. */
  predicate PlaceOk(p: Place) {
    AllPlain(p.toks) && Plain(p.last) && Decode(p.last) == Some(p.child)
  }

  function PathOfPlace(p: Place): (t: string) {
    Joined(p.toks) + "/" + p.last
  }

  /** A container without a child, and the child; positions in arrays are decimal numbers. */
  function Taken(c: Canon, child: string): (r: (Canon, Option<Canon>)) {
    match c
    case CArray(items) =>
      var k := Position(Atoi(child));
      if k < |items| then (CArray(items[..k] + items[k + 1..]), Some(items[k])) else (c, None)
    case CObject(members) =>
      var key := Fold(child);
      if key in members then (CObject(members - {key}), Some(members[key])) else (c, None)
    case _ => (c, None)
  }

  /** A container with a value put in: in an array at a position, or at the end; in an object under a name. */
  function Given(c: Canon, child: string, x: Canon): (r: Canon) {
    match c
    case CArray(items) =>
      var k := Position(Atoi(child));
      if child == "-" || k > |items| then CArray(items + [x]) else CArray(items[..k] + [x] + items[k..])
    case CObject(members) => CObject(members[Fold(child) := x])
    case _ => c
  }

  /** The tree after the child at a place has been taken out, and what was taken; None if there is no such parent. */
  function TakenAt(c: Canon, p: Place): (r: Option<(Canon, Option<Canon>)>) {
    match PathOf(c, p.toks)
    case None => None
    case Some(path) =>
      var r := Taken(GetPath(c, path), p.child);
      Some((SetPath(c, path, r.0), r.1))
  }

  /** The tree after a value has been put at a place; None if there is no such parent. */
  function GivenAt(c: Canon, p: Place, x: Canon): (r: Option<Canon>) {
    match PathOf(c, p.toks)
    case None => None
    case Some(path) => Some(SetPath(c, path, Given(GetPath(c, path), p.child, x)))
  }

  // Positions

  predicate Blank(c: char) {
    c as int in {9, 10, 11, 12, 13, 32}
  }

  lemma {:induction false} SkipsBlanks(s: string, i: nat, p: nat)
    requires i <= p <= |s| && (forall k | i <= k < p :: Blank(s[k])) && !Blank(CharAt(s, p))
    ensures SkipSpace(s, i) == p
    decreases p - i
  {
    if i < p {
      SkipsBlanks(s, i + 1, p);
    }
  }

  /** A position is read as blanks up to p, a sign up to q, and all the digits that follow; the rest is ignored. */
  lemma {:induction false} PositionReads(s: string, p: nat, q: nat, j: nat)
    requires p <= q <= j <= |s| && (forall k | 0 <= k < p :: Blank(s[k])) && !Blank(CharAt(s, p))
    requires q == if CharAt(s, p) == '-' || CharAt(s, p) == '+' then p + 1 else p
    requires Numerals.DigitRun(s, q, j)
    ensures Atoi(s) == if CharAt(s, p) == '-' then 0 - Numerals.NatOf(s[q..j]) else Numerals.NatOf(s[q..j])
  {
    hide Numerals.NatOf;
    SkipsBlanks(s, 0, p);
    Numerals.ReadRun(s, q, 0);
    Numerals.RunUnique(s, q, ReadDigits(s, q, 0).next, j);
  }

  // Children

  lemma {:induction false} DecodeText(tok: string)
    requires CString(tok) && Decode(tok).Some?
    ensures CString(Decode(tok).value)
    decreases |tok|
  {
    if tok != "" {
      DecodeText(tok[if tok[0] == '~' then 2 else 1..]);
    }
  }

  lemma {:induction false} DetachTakes(parent: Json, child: string)
    requires Tidy(parent) && CString(child)
    ensures var r := DetachChild(parent, child);
            && CanonOf(r.0) == Taken(CanonOf(parent), child).0 && Tidy(r.0)
            && (r.1.Some? <==> Taken(CanonOf(parent), child).1.Some?)
            && (r.1.Some? ==> CanonOf(r.1.value) == Taken(CanonOf(parent), child).1.value && Tidy(r.1.value))
  {
    hide Tidy, CanonMembers, CanonItems, Atoi, Fold, ItemIndex, Without;
    match parent {
      case Array(items) => ItemTaken(items, Position(Atoi(child)));
      case Object(members) => MemberTaken(members, child);
      case _ =>
    }
  }

  lemma {:induction false} ItemTaken(items: seq<Json>, k: nat)
    requires Tidy(Array(items))
    ensures |CanonItems(items)| == |items| && Tidy(Array(Without(items, k)))
    ensures k < |items| ==> CanonItems(items)[k] == CanonOf(items[k]) && Tidy(items[k])
    ensures CanonItems(Without(items, k)) ==
              if k < |items| then CanonItems(items)[..k] + CanonItems(items)[k + 1..] else CanonItems(items)
  {
    ItemDrops(items, k);
    if k < |items| {
      CanonItemsAt(items, k);
    }
  }

  lemma {:induction false} MemberTaken(members: seq<Member>, name: string)
    requires Tidy(Object(members)) && CString(name)
    ensures var k := ItemIndex(members, name);
            && k <= |members| && (k < |members| <==> Fold(name) in CanonMembers(members))
            && (k < |members| ==>
                 CanonMembers(members)[Fold(name)] == CanonOf(members[k].value) && Tidy(members[k].value))
            && CanonOf(Object(Without(members, k))) == CObject(CanonMembers(members) - {Fold(name)})
            && Tidy(Object(Without(members, k)))
    ensures Fold(name) !in CanonMembers(members) ==> CanonMembers(members) - {Fold(name)} == CanonMembers(members)
  {
    hide ItemIndex, Fold, CanonMembers, Without;
    MemberDrops(members, name);
    ObjectTidy(members);
    ItemIndexOf(members, name);
    if ItemIndex(members, name) < |members| {
      CanonLookup(members, ItemIndex(members, name));
    }
  }

  lemma {:induction false} AddGives(parent: Json, child: string, v: Json)
    requires Tidy(parent) && CString(child) && Tidy(v)
    ensures CanonOf(AddChild(parent, child, v)) == Given(CanonOf(parent), child, CanonOf(v))
    ensures Tidy(AddChild(parent, child, v))
  {
    hide Tidy, CanonMembers, CanonItems, Atoi, Fold, ItemIndex, Inserted;
    match parent {
      case Array(items) => ItemGiven(items, Atoi(child), v);
      case Object(members) => AddPuts(parent, child, v);
      case _ =>
    }
  }

  lemma {:induction false} ItemGiven(items: seq<Json>, which: int, v: Json)
    requires Tidy(Array(items)) && Tidy(v)
    ensures var c, k := CanonItems(items), Position(which);
            && |c| == |items|
            && CanonItems(items + [v]) == c + [CanonOf(v)] && Tidy(Array(items + [v]))
            && CanonItems(Inserted(items, which, v)) ==
                 (if k > |c| then c + [CanonOf(v)] else c[..k] + [CanonOf(v)] + c[k..])
            && Tidy(Array(Inserted(items, which, v)))
  {
    hide Tidy, CanonItems, CanonOf;
    var k := Position(which);
    InsertedCanon(items, |items|, v);
    assert items[..|items|] + [v] + items[|items|..] == items + [v];
    ItemDrops(items, |items|);
    var c := CanonItems(items);
    assert c[..|c|] + [CanonOf(v)] + c[|c|..] == c + [CanonOf(v)];
    if k < |items| {
      InsertedCanon(items, k, v);
    }
  }

  // Places

  lemma {:induction false} PlaceSplits(p: Place)
    requires PlaceOk(p)
    ensures SplitPath(PathOfPlace(p)) == Split(Joined(p.toks), p.child) && CString(p.child)
  {
    SplitsAt(Joined(p.toks), p.last, p.child);
    DecodeText(p.last);
  }

  lemma {:induction false} DetachAt(doc: Json, p: Place)
    requires Tidy(doc) && PlaceOk(p)
    ensures var d, r := PatchDetach(doc, String(PathOfPlace(p))), TakenAt(CanonOf(doc), p);
            && d.Detaching?
            && (r.None? ==> d == Detaching(doc, None))
            && (r.Some? ==>
                 && CanonOf(d.doc) == r.value.0 && Tidy(d.doc)
                 && (d.value.Some? <==> r.value.1.Some?)
                 && (d.value.Some? ==> CanonOf(d.value.value) == r.value.1.value && Tidy(d.value.value)))
  {
    hide Tidy, CanonOf, Evaluate, SplitPath, DetachChild, Taken, PathOf, Joined;
    PlaceSplits(p);
    var t := Joined(p.toks);
    Whole(t);
    var a := Evaluates(doc, p.toks, t, 0, doc);
    if PathOf(CanonOf(doc), p.toks).Some? {
      DetachTakes(NodeAt(doc, a), p.child);
      var b := Evaluates(doc, p.toks, t, 0, DetachChild(NodeAt(doc, a), p.child).0);
    }
  }

  lemma {:induction false} PutAt(doc: Json, p: Place, v: Json)
    requires Tidy(doc) && PlaceOk(p) && Tidy(v)
    ensures var d, r := PatchAdd(doc, String(PathOfPlace(p)), v), GivenAt(CanonOf(doc), p, CanonOf(v));
            && (r.None? ==> d == Done(9, doc))
            && (r.Some? ==> d.Done? && d.code == 0 && CanonOf(d.doc) == r.value && Tidy(d.doc))
  {
    hide Tidy, CanonOf, Evaluate, SplitPath, AddChild, Given, PathOf, Joined;
    PlaceSplits(p);
    var t := Joined(p.toks);
    Whole(t);
    var a := Evaluates(doc, p.toks, t, 0, doc);
    if PathOf(CanonOf(doc), p.toks).Some? {
      AddGives(NodeAt(doc, a), p.child, v);
      var b := Evaluates(doc, p.toks, t, 0, AddChild(NodeAt(doc, a), p.child, v));
    }
  }

  /** How many tildes end a token. */
  function Tildes(tok: string): (n: nat) {
    if tok != "" && tok[|tok| - 1] == '~' then 1 + Tildes(tok[..|tok| - 1]) else 0
  }

  lemma {:induction false} TildesFrom(tok: string, m: nat)
    requires tok != "" && m <= |tok| && m == if tok[0] == '~' then 2 else 1
    ensures Tildes(tok) % 2 == Tildes(tok[m..]) % 2
    decreases |tok|
  {
    if |tok| > m {
      var head := tok[..|tok| - 1];
      TildesFrom(head, m);
      assert tok[m..][..|tok| - 1 - m] == head[m..] && tok[m..][|tok| - 1 - m] == tok[|tok| - 1];
    } else if m == 2 {
      assert tok[..1] == "~";
    }
  }

  /** A token cannot be decoded exactly if an odd number of tildes ends it: C reads over the terminator then. */
  lemma {:induction false} DecodeFails(tok: string)
    ensures Decode(tok).None? <==> Tildes(tok) % 2 == 1
    decreases |tok|
  {
    var m := if tok != "" && tok[0] == '~' then 2 else 1;
    if m <= |tok| {
      TildesFrom(tok, m);
      DecodeFails(tok[m..]);
    } else if tok != "" {
      assert tok == "~" && Tildes(tok[..0]) == 0;
    }
  }

  /** A patch is undefined where its path has no slash, or an odd number of tildes at its end. */
  lemma {:induction false} NoPlace(doc: Json, path: string, v: Json)
    ensures var crash := (forall k | 0 <= k < |path| :: path[k] != '/') || Tildes(path) % 2 == 1;
            && (PatchDetach(doc, String(path)) == CrashDetaching <==> crash)
            && (PatchAdd(doc, String(path), v) == Crash <==> crash)
  {
    hide Evaluate, Decode;
    match LastSlash(path) {
      case None => NoSlash(path);
      case Some(k) =>
        assert path[k] == '/';
        LastTildes(path, k);
        DecodeFails(path[k + 1..]);
    }
  }

  lemma {:induction false} NoSlash(path: string)
    requires LastSlash(path) == None
    ensures forall k | 0 <= k < |path| :: path[k] != '/'
    decreases |path|
  {
    if path != "" {
      NoSlash(path[..|path| - 1]);
      assert forall k | 0 <= k < |path| - 1 :: path[k] == path[..|path| - 1][k];
    }
  }

  lemma {:induction false} LastTildes(path: string, k: nat)
    requires k < |path| && path[k] == '/'
    ensures Tildes(path) == Tildes(path[k + 1..])
    decreases |path|
  {
    var n := |path| - 1;
    if k < n {
      LastTildes(path[..n], k);
      assert path[k + 1..][..n - k - 1] == path[..n][k + 1..] && path[k + 1..][n - k - 1] == path[n];
    }
  }

  // Operations

  /** The result has this code and a tree of this canonical form. */
  predicate Results(r: Outcome, code: int, c: Canon) {
    r.Done? && r.code == code && CanonOf(r.doc) == c && Tidy(r.doc)
  }

  /** The patch has these two members, and the path is the one to the place. */
  predicate Says(patch: Json, op: string, p: Place) {
    GetItem(patch, "op") == Some(String(op)) && GetItem(patch, "path") == Some(String(PathOfPlace(p)))
  }

  lemma {:induction false} Dispatches(doc: Json, patch: Json, path: Json)
    requires GetItem(patch, "path") == Some(path)
    ensures var op, r := GetItem(patch, "op"), ApplyPatch(doc, patch);
            && (op == Some(String("add")) ==> r == AddValue(doc, patch, path))
            && (op == Some(String("move")) ==> r == Move(doc, patch, path))
            && (op == Some(String("copy")) ==> r == Copy(doc, patch, path))
            && (op == Some(String("test")) ==> r == Test(doc, patch, path))
  {
    hide GetItem, AddValue, Move, Copy, Test, PatchDetach, PatchAdd;
  }

  lemma {:induction false} DispatchesDetaching(doc: Json, patch: Json, path: Json)
    requires GetItem(patch, "path") == Some(path) && PatchDetach(doc, path).Detaching?
    ensures var op, r, d := GetItem(patch, "op"), ApplyPatch(doc, patch), PatchDetach(doc, path).doc;
            && (op == Some(String("remove")) ==> r == Done(0, d))
            && (op == Some(String("replace")) ==> r == AddValue(d, patch, path))
  {
    hide GetItem, AddValue, Move, Copy, Test, PatchDetach, PatchAdd;
  }

  /** An add puts the value at the place, or fails with 9 when there is no parent for it. */
  lemma {:induction false} AddOp(doc: Json, patch: Json, p: Place, v: Json)
    requires Tidy(doc) && PlaceOk(p) && Says(patch, "add", p) && GetItem(patch, "value") == Some(v) && Tidy(v)
    ensures match GivenAt(CanonOf(doc), p, CanonOf(v))
            case None => Results(ApplyPatch(doc, patch), 9, CanonOf(doc))
            case Some(c) => Results(ApplyPatch(doc, patch), 0, c)
  {
    hide ApplyPatch, Tidy, CanonOf, PatchAdd, PathOfPlace, GetItem, GivenAt;
    Dispatches(doc, patch, String(PathOfPlace(p)));
    PutAt(doc, p, v);
  }

  /** A remove takes the child out if it is there, and always reports success. */
  lemma {:induction false} RemoveOp(doc: Json, patch: Json, p: Place)
    requires Tidy(doc) && PlaceOk(p) && Says(patch, "remove", p)
    ensures match TakenAt(CanonOf(doc), p)
            case None => Results(ApplyPatch(doc, patch), 0, CanonOf(doc))
            case Some(r) => Results(ApplyPatch(doc, patch), 0, r.0)
  {
    hide ApplyPatch, Tidy, CanonOf, PatchDetach, PathOfPlace, GetItem, TakenAt;
    DetachAt(doc, p);
    DispatchesDetaching(doc, patch, String(PathOfPlace(p)));
  }

  /** A replace takes the child out, if it is there, and then puts the value in its place. */
  lemma {:induction false} ReplaceOp(doc: Json, patch: Json, p: Place, v: Json)
    requires Tidy(doc) && PlaceOk(p) && Says(patch, "replace", p) && GetItem(patch, "value") == Some(v) && Tidy(v)
    ensures var c := if TakenAt(CanonOf(doc), p).Some? then TakenAt(CanonOf(doc), p).value.0 else CanonOf(doc);
            match GivenAt(c, p, CanonOf(v))
            case None => Results(ApplyPatch(doc, patch), 9, c)
            case Some(d) => Results(ApplyPatch(doc, patch), 0, d)
  {
    hide ApplyPatch, Tidy, CanonOf, PatchDetach, PatchAdd, PathOfPlace, GetItem, TakenAt, GivenAt;
    DetachAt(doc, p);
    DispatchesDetaching(doc, patch, String(PathOfPlace(p)));
    PutAt(PatchDetach(doc, String(PathOfPlace(p))).doc, p, v);
  }

  /**
   A move takes the child out of its old place and puts it into the new one of the
   tree that is left. Without a child it fails with 5; if the new place has no
   parent then it fails with 9, and the child is gone.
   */
  lemma {:induction false} MoveOp(doc: Json, patch: Json, p: Place, from: Place)
    requires Tidy(doc) && PlaceOk(p) && PlaceOk(from) && Says(patch, "move", p)
    requires GetItem(patch, "from") == Some(String(PathOfPlace(from)))
    ensures match TakenAt(CanonOf(doc), from)
            case None => Results(ApplyPatch(doc, patch), 5, CanonOf(doc))
            case Some((c, None)) => Results(ApplyPatch(doc, patch), 5, c)
            case Some((c, Some(x))) =>
              match GivenAt(c, p, x)
              case None => Results(ApplyPatch(doc, patch), 9, c)
              case Some(d) => Results(ApplyPatch(doc, patch), 0, d)
  {
    hide ApplyPatch, Tidy, CanonOf, PatchDetach, PatchAdd, PathOfPlace, GetItem, TakenAt, GivenAt;
    Dispatches(doc, patch, String(PathOfPlace(p)));
    DetachAt(doc, from);
    var d := PatchDetach(doc, String(PathOfPlace(from)));
    if d.value.Some? {
      PutAt(d.doc, p, d.value.value);
    }
  }

  /** A copy puts the value found at from into the place, and keeps it where it was unless the place is above it. */
  lemma {:induction false} CopyOp(doc: Json, patch: Json, p: Place, from: seq<string>)
    requires Tidy(doc) && PlaceOk(p) && AllPlain(from) && Says(patch, "copy", p)
    requires GetItem(patch, "from") == Some(String(Joined(from)))
    ensures match PathOf(CanonOf(doc), from)
            case None => Results(ApplyPatch(doc, patch), 5, CanonOf(doc))
            case Some(path) =>
              match GivenAt(CanonOf(doc), p, GetPath(CanonOf(doc), path))
              case None => Results(ApplyPatch(doc, patch), 9, CanonOf(doc))
              case Some(d) => Results(ApplyPatch(doc, patch), 0, d)
  {
    hide ApplyPatch, Tidy, CanonOf, PatchAdd, PathOfPlace, GetItem, GivenAt, Evaluate, PathOf, Joined;
    Dispatches(doc, patch, String(PathOfPlace(p)));
    Whole(Joined(from));
    var a := Evaluates(doc, from, Joined(from), 0, doc);
    if PathOf(CanonOf(doc), from).Some? {
      PutAt(doc, p, NodeAt(doc, a));
    }
  }

  /** A test leaves the tree alone and succeeds exactly if the node equals the value; without a node C reads null. */
  lemma {:induction false} TestOp(doc: Json, patch: Json, toks: seq<string>, v: Json)
    requires Tidy(doc) && AllPlain(toks) && Tidy(v) && GetItem(patch, "op") == Some(String("test"))
    requires GetItem(patch, "path") == Some(String(Joined(toks))) && GetItem(patch, "value") == Some(v)
    ensures match PathOf(CanonOf(doc), toks)
            case None => ApplyPatch(doc, patch) == Crash
            case Some(path) =>
              var r := ApplyPatch(doc, patch);
              r.Done? && r.doc == doc && (r.code == 0 <==> GetPath(CanonOf(doc), path) == CanonOf(v))
  {
    hide ApplyPatch, Tidy, CanonOf, GetItem, Evaluate, PathOf, Joined, Compare;
    Dispatches(doc, patch, String(Joined(toks)));
    Whole(Joined(toks));
    var a := Evaluates(doc, toks, Joined(toks), 0, doc);
    if PathOf(CanonOf(doc), toks).Some? {
      EqualIffSame(NodeAt(doc, a), v);
    }
  }

  /** Moving a member to another name of the same object. */
  lemma {:induction false} MemberMoves(doc: Json, patch: Json, toks: seq<string>, a: string, b: string)
    requires Tidy(doc) && CString(a) && CString(b) && AllPlain(toks)
    requires PathOf(CanonOf(doc), toks).Some? && GetPath(CanonOf(doc), PathOf(CanonOf(doc), toks).value).CObject?
    requires Fold(a) in GetPath(CanonOf(doc), PathOf(CanonOf(doc), toks).value).members
    requires Says(patch, "move", Place(toks, Encode(b), b))
    requires GetItem(patch, "from") == Some(String(PathOfPlace(Place(toks, Encode(a), a))))
    ensures var path := PathOf(CanonOf(doc), toks).value;
            var m := GetPath(CanonOf(doc), path).members;
            Results(ApplyPatch(doc, patch), 0,
                    SetPath(CanonOf(doc), path, CObject((m - {Fold(a)})[Fold(b) := m[Fold(a)]])))
  {
    hide Tidy, CanonOf, ApplyPatch, GetItem, PathOfPlace, Fold, Joined;
    EncodedPlace(toks, a);
    EncodedPlace(toks, b);
    var c, path := CanonOf(doc), PathOf(CanonOf(doc), toks).value;
    var m := GetPath(c, path).members;
    MoveOp(doc, patch, Place(toks, Encode(b), b), Place(toks, Encode(a), a));
    ParentStays(c, toks, CObject(m - {Fold(a)}));
    SetPathTwice(c, path, CObject(m - {Fold(a)}), CObject((m - {Fold(a)})[Fold(b) := m[Fold(a)]]));
  }

  lemma {:induction false} EncodedPlace(toks: seq<string>, name: string)
    requires AllPlain(toks) && CString(name)
    ensures PlaceOk(Place(toks, Encode(name), name))
  {
    DecodeEncode(name);
    EncodedPlain(name);
    EncodedText(name);
  }

  lemma {:induction false} EncodedText(name: string)
    requires CString(name)
    ensures CString(Encode(name))
  {
    if name != "" {
      EncodedText(name[1..]);
    }
  }

  /** Exchanging the node that tokens select does not change what they select. */
  lemma {:induction false} ParentStays(c: Canon, toks: seq<string>, x: Canon)
    requires PathOf(c, toks).Some?
    ensures PathOf(SetPath(c, PathOf(c, toks).value, x), toks) == PathOf(c, toks)
    decreases |toks|
  {
    if toks != [] {
      var s := StepOf(c, toks[0]).value;
      var rest := PathOf(Get(c, s), toks[1..]).value;
      var p := PathOf(c, toks).value;
      assert p[0] == s && p[1..] == rest;
      ParentStays(Get(c, s), toks[1..], x);
      var y := SetPath(Get(c, s), rest, x);
      assert StepOf(Set(c, s, y), toks[0]) == Some(s) && Get(Set(c, s, y), s) == y;
    }
  }

  /** How patches that are no patches are refused; the tree stays as it is. */
  lemma {:induction false} Refusals(doc: Json, patch: Json)
    ensures var op, path := GetItem(patch, "op"), GetItem(patch, "path");
            && (op.None? || path.None? ==> ApplyPatch(doc, patch) == Done(2, doc))
            && (op.Some? && path.Some? && op.value.String? ==>
                 && (op.value.valuestring !in ["add", "remove", "replace", "move", "copy", "test"] ==>
                      ApplyPatch(doc, patch) == Done(3, doc))
                 && (op.value.valuestring in ["move", "copy"] && GetItem(patch, "from").None? ==>
                      ApplyPatch(doc, patch) == Done(4, doc))
                 && (op.value.valuestring == "add" && GetItem(patch, "value").None? ==>
                      ApplyPatch(doc, patch) == Done(7, doc))
                 && (op.value.valuestring == "replace" && GetItem(patch, "value").None? ==>
                      ApplyPatch(doc, patch).Crash? || ApplyPatch(doc, patch).code == 7))
  {
    hide GetItem, PatchDetach, PatchAdd, Evaluate;
  }

  /** A sequence of patches stops at the first that fails, with its code and what the patches before it left. */
  lemma {:induction false} StopsAtFailure(doc: Json, ps: seq<Json>, k: nat)
    requires k < |ps|
    ensures var before := ApplySequence(doc, ps[..k]);
            before.Done? && before.code == 0 ==>
              var r := ApplyPatch(before.doc, ps[k]);
              r.Crash? || r.code != 0 ==> PatchAll(doc, Array(ps)) == r
    decreases k
  {
    hide ApplyPatch;
    if k > 0 {
      var first := ApplyPatch(doc, ps[0]);
      assert ps[..k][1..] == ps[1..][..k - 1] && ps[..k][0] == ps[0];
      if first.Done? && first.code == 0 {
        StopsAtFailure(first.doc, ps[1..], k - 1);
      }
    }
  }

  /** What is no array is no list of patches. */
  lemma {:induction false} NoPatches(doc: Json, patches: Json)
    requires !patches.Array?
    ensures PatchAll(doc, patches) == Done(1, doc)
  {
  }

  function MovePatch(): (patch: Json) {
    Object([Member("op", String("move")), Member("from", String("/a")), Member("path", String("/b"))])
  }

  /** The member of an object moves: {"a":true} becomes {"b":true}. */
  lemma {:induction false} MoveExample()
    ensures Results(ApplyPatch(Object([Member("a", True)]), MovePatch()), 0, CObject(map["b" := CTrue]))
  {
    hide ApplyPatch, Tidy;
    MoveExampleParts();
    MemberMoves(Object([Member("a", True)]), MovePatch(), [], "a", "b");
    assert (map["a" := CTrue] - {"a"})["b" := CTrue] == map["b" := CTrue];
  }

  lemma {:induction false} MoveExampleParts()
    ensures var doc := Object([Member("a", True)]);
            var patch := MovePatch();
            && Tidy(doc) && CanonOf(doc) == CObject(map["a" := CTrue])
            && GetItem(patch, "op") == Some(String("move")) && GetItem(patch, "path") == Some(String("/b"))
            && GetItem(patch, "from") == Some(String("/a"))
            && Fold("a") == "a" && Fold("b") == "b"
            && PathOfPlace(Place([], Encode("b"), "b")) == "/b" && PathOfPlace(Place([], Encode("a"), "a")) == "/a"
  {
    hide GetItem, Encode, CanonOf, Tidy, Fold, PathOfPlace;
    MoveExampleItems();
    MoveExamplePlaces();
    MoveExampleTree();
  }

  lemma {:induction false} MoveExampleTree()
    ensures Tidy(Object([Member("a", True)])) && CanonOf(Object([Member("a", True)])) == CObject(map["a" := CTrue])
    ensures Fold("a") == "a" && Fold("b") == "b"
  {
    assert "a"[1..] == "" && "b"[1..] == "";
    assert [Member("a", True)][1..] == [] && Fold("a") == "a";
  }

  lemma {:induction false} MoveExamplePlaces()
    ensures PathOfPlace(Place([], Encode("b"), "b")) == "/b" && PathOfPlace(Place([], Encode("a"), "a")) == "/a"
  {
    assert Encode("a") == "a" && Encode("b") == "b" && "" + "/" + "a" == "/a" && "" + "/" + "b" == "/b";
  }

  lemma {:induction false} MoveExampleItems()
    ensures var patch := MovePatch();
            && GetItem(patch, "op") == Some(String("move")) && GetItem(patch, "path") == Some(String("/b"))
            && GetItem(patch, "from") == Some(String("/a"))
  {
    hide GetItem, Strcasecmp;
    var o, f, p := Member("op", String("move")), Member("from", String("/a")), Member("path", String("/b"));
    assert [o, f, p] == [o] + [f, p] && [f, p] == [f] + [p];
    NamesApart();
    GetItemCons(o, [f, p], "op");
    GetItemCons(o, [f, p], "from");
    GetItemCons(o, [f, p], "path");
    GetItemCons(f, [p], "from");
    GetItemCons(f, [p], "path");
    assert [p] == [p] + [];
    GetItemCons(p, [], "path");
  }

  lemma {:induction false} NamesApart()
    ensures Strcasecmp("op", "op") == 0 && Strcasecmp("from", "from") == 0 && Strcasecmp("path", "path") == 0
    ensures Strcasecmp("op", "from") != 0 && Strcasecmp("op", "path") != 0 && Strcasecmp("from", "path") != 0
  {
  }
}
