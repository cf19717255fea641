/** Generated patches, when applied, do what the edits mean; so diff and apply are inverse. */
module PatchLaws {
  import opened Lists
  import opened CText
  import opened CaseOrder
  import opened Numbers
  import opened Json
  import opened Pointers
  import opened Canon
  import opened Edits
  import opened Resolution
  import opened Patch

  lemma {:induction false} LastSlashOf(x: string, token: string)
    requires forall i | 0 <= i < |token| :: token[i] != '/'
    ensures LastSlash(x + "/" + token) == Some(|x|)
    decreases |token|
  {
    var path := x + "/" + token;
    if token != "" {
      assert path[..|path| - 1] == x + "/" + token[..|token| - 1];
      LastSlashOf(x, token[..|token| - 1]);
    }
  }

  lemma {:induction false} SplitsAt(x: string, token: string, child: string)
    requires (forall i | 0 <= i < |token| :: token[i] != '/') && Decode(token) == Some(child)
    ensures SplitPath(x + "/" + token) == Split(x, child)
  {
    LastSlashOf(x, token);
    var path := x + "/" + token;
    assert path[..|x|] == x && path[|x| + 1..] == token;
  }

  /** What a step is called when its token has been decoded. */
  function ChildName(s: Step): (n: string) {
    if s.Index? then Decimal(s.k) else s.name
  }

  lemma {:induction false} TokenDecodes(s: Step)
    requires s.Key? ==> CString(s.name)
    ensures Decode(Token(s)) == Some(ChildName(s))
    ensures forall i | 0 <= i < |Token(s)| :: Token(s)[i] != '/'
  {
    if s.Index? {
      EncodeDecimal(s.k);
      DecodeEncode(Decimal(s.k));
      assert Decimal(s.k) == Digits(s.k);
    } else {
      DecodeEncode(s.name);
      EncodedPlain(s.name);
    }
  }

  lemma {:induction false} AtoiDecimal(k: nat)
    ensures Atoi(Decimal(k)) == k && Decimal(k) != "-"
  {
    var t := Decimal(k);
    assert t[0..] == t;
    OccursSuffix(t, 0);
    ReadDigitsOf(t, 0, k, 0);
  }

  /** The members of a generated patch, by name. */
  lemma {:induction false} PatchItems(op: string, path: string, value: Option<Json>)
    ensures GetItem(MakePatch(op, path, value), "op") == Some(String(op))
    ensures GetItem(MakePatch(op, path, value), "path") == Some(String(path))
    ensures GetItem(MakePatch(op, path, value), "value") == value
  {
    var o, p, v := Member("op", String(op)), Member("path", String(path)),
        if value.Some? then [Member("value", value.value)] else [];
    assert MakePatch(op, path, value).members == [o] + ([p] + v);
    assert Strcasecmp("op", "op") == 0 && Strcasecmp("path", "path") == 0 && Strcasecmp("value", "value") == 0;
    assert Strcasecmp("op", "path") != 0 && Strcasecmp("op", "value") != 0 && Strcasecmp("path", "value") != 0;
    GetItemCons(o, [p] + v, "op");
    GetItemCons(o, [p] + v, "path");
    GetItemCons(o, [p] + v, "value");
    GetItemCons(p, v, "path");
    GetItemCons(p, v, "value");
    if value.Some? {
      assert v == [v[0]] + [];
      GetItemCons(v[0], [], "value");
    }
  }

  lemma {:induction false} GetItemCons(m: Member, rest: seq<Member>, name: string)
    ensures GetItem(Object([m] + rest), name) ==
            if Strcasecmp(m.name, name) == 0 then Some(m.value) else GetItem(Object(rest), name)
  {
    var ms := [m] + rest;
    assert ms[0] == m && ms[1..] == rest;
    assert ItemIndex(ms, name) == if Strcasecmp(m.name, name) == 0 then 0 else 1 + ItemIndex(rest, name);
  }

  lemma {:induction false} ItemIndexOf(members: seq<Member>, name: string)
    requires CString(name) && TidyMembers(members)
    ensures ItemIndex(members, name) < |members| <==> Fold(name) in CanonMembers(members)
    ensures ItemIndex(members, name) < |members| ==> Fold(members[ItemIndex(members, name)].name) == Fold(name)
    decreases |members|
  {
    if members != [] {
      CaseOrderTotal(members[0].name, name);
      ItemIndexOf(members[1..], name);
    }
  }

  lemma {:induction false} WithoutItem(items: seq<Json>, k: nat)
    ensures CanonItems(Without(items, k)) == Without(CanonItems(items), k)
    decreases k
  {
    if k < |items| {
      assert items == items[..k] + ([items[k]] + items[k + 1..]);
      CanonItemsConcat(items[..k], [items[k]] + items[k + 1..]);
      CanonItemsConcat([items[k]], items[k + 1..]);
      CanonItemsConcat(items[..k], items[k + 1..]);
      assert |CanonItems([items[k]])| == 1;
    }
  }

  lemma {:induction false} WithoutMember(members: seq<Member>, k: nat)
    requires TidyMembers(members) && k < |members|
    ensures TidyMembers(Without(members, k))
    ensures CanonMembers(Without(members, k)) == CanonMembers(members) - {Fold(members[k].name)}
  {
    hide CanonMembers, CanonOf, Without, Tidy;
    var r, m := Without(members, k), CanonMembers(members) - {Fold(members[k].name)};
    WithoutAt(members, k);
    WithoutTidy(members, k);
    forall i | 0 <= i < |r|
      ensures Fold(r[i].name) in m && m[Fold(r[i].name)] == CanonOf(r[i].value)
    {
      CanonLookup(members, if i < k then i else i + 1);
    }
    forall key | key in m
      ensures exists i :: 0 <= i < |r| && Fold(r[i].name) == key
    {
      CanonKeys(members, key);
      var j :| 0 <= j < |members| && Fold(members[j].name) == key;
      assert r[if j < k then j else j - 1] == members[j];
    }
    CanonMembersIs(r, m);
  }

  lemma {:induction false} WithoutAt<T>(s: seq<T>, k: nat)
    requires k < |s|
    ensures |Without(s, k)| == |s| - 1
    ensures forall i | 0 <= i < |s| - 1 :: Without(s, k)[i] == s[if i < k then i else i + 1]
  {
  }

  lemma {:induction false} WithoutTidy(members: seq<Member>, k: nat)
    requires TidyMembers(members) && k < |members|
    ensures TidyMembers(Without(members, k))
  {
    hide Tidy, Without;
    WithoutAt(members, k);
  }

  lemma {:induction false} WithMember(members: seq<Member>, name: string, v: Json)
    requires TidyMembers(members) && CString(name) && Tidy(v) && Fold(name) !in CanonMembers(members)
    ensures TidyMembers(members + [Member(name, v)])
    ensures CanonMembers(members + [Member(name, v)]) == CanonMembers(members)[Fold(name) := CanonOf(v)]
  {
    var m := Member(name, v);
    forall i | 0 <= i < |members|
      ensures Fold(members[i].name) != Fold(name)
    {
      CanonKeys(members, Fold(name));
    }
    assert Unlike(members + [m]);
    CanonMembersConcat(members, [m]);
    assert [m][1..] == [];
  }

  lemma {:induction false} ObjectTidy(members: seq<Member>)
    ensures Tidy(Object(members)) <==> TidyMembers(members)
  {
  }

  /** Detaching a child drops it from the canonical form. */
  lemma {:induction false} DetachDrops(parent: Json, s: Step)
    requires Tidy(parent) && Suits(CanonOf(parent), s) && (s.Key? ==> CString(s.name))
    ensures var r := DetachChild(parent, ChildName(s)).0; CanonOf(r) == Drop(CanonOf(parent), s) && Tidy(r)
  {
    hide Tidy, CanonMembers, CanonItems, Atoi, Decimal, Fold, ItemIndex, Without;
    if s.Index? {
      AtoiDecimal(s.k);
      ItemDrops(parent.items, s.k);
    } else {
      MemberDrops(parent.members, s.name);
    }
  }

  lemma {:induction false} ItemDrops(items: seq<Json>, k: nat)
    requires Tidy(Array(items))
    ensures |CanonItems(items)| == |items| && Tidy(Array(Without(items, k)))
    ensures CanonItems(Without(items, k)) ==
              if k < |items| then CanonItems(items)[..k] + CanonItems(items)[k + 1..] else CanonItems(items)
  {
    WithoutItem(items, k);
  }

  lemma {:induction false} MemberDrops(members: seq<Member>, name: string)
    requires Tidy(Object(members)) && CString(name)
    ensures var r := Object(Without(members, ItemIndex(members, name)));
            CanonOf(r) == CObject(CanonMembers(members) - {Fold(name)}) && Tidy(r)
  {
    hide CanonMembers, Tidy, TidyMembers, ItemIndex, Fold;
    var k := ItemIndex(members, name);
    ObjectTidy(members);
    ItemIndexOf(members, name);
    if k < |members| {
      WithoutMember(members, k);
      ObjectTidy(Without(members, k));
    }
  }

  /** Adding under a name puts the value there, whether or not there was one. */
  lemma {:induction false} AddPuts(parent: Json, name: string, v: Json)
    requires Tidy(parent) && parent.Object? && CString(name) && Tidy(v)
    ensures var r := AddChild(parent, name, v);
            CanonOf(r) == CObject(CanonMembers(parent.members)[Fold(name) := CanonOf(v)]) && Tidy(r)
  {
    hide CanonMembers, Without, Tidy, TidyMembers, ItemIndex;
    var members, key := parent.members, Fold(name);
    var k := ItemIndex(members, name);
    var rest := Without(members, k);
    ObjectTidy(members);
    ItemIndexOf(members, name);
    if k < |members| {
      WithoutMember(members, k);
    } else {
      WithoutNone(members, k);
      assert CanonMembers(members) - {key} == CanonMembers(members);
    }
    WithMember(rest, name, v);
    ObjectTidy(rest + [Member(name, v)]);
    assert (CanonMembers(members) - {key})[key := CanonOf(v)] == CanonMembers(members)[key := CanonOf(v)];
  }

  lemma {:induction false} WithoutNone<T>(s: seq<T>, k: nat)
    requires k >= |s|
    ensures Without(s, k) == s
  {
  }

  lemma {:induction false} AddAppends(parent: Json, v: Json)
    requires Tidy(parent) && parent.Array? && Tidy(v)
    ensures var r := AddChild(parent, "-", v); CanonOf(r) == CArray(CanonItems(parent.items) + [CanonOf(v)]) && Tidy(r)
  {
    CanonItemsConcat(parent.items, [v]);
    assert [v][1..] == [];
  }

  lemma {:induction false} AddInserts(parent: Json, k: nat, v: Json)
    requires Tidy(parent) && parent.Array? && Tidy(v) && k <= |parent.items|
    ensures var r, c := AddChild(parent, Decimal(k), v), CanonItems(parent.items);
            CanonOf(r) == CArray(c[..k] + [CanonOf(v)] + c[k..]) && Tidy(r)
  {
    hide CanonItems, Tidy, Atoi, Decimal;
    AtoiDecimal(k);
    var items := parent.items;
    var r := items[..k] + [v] + items[k..];
    assert k == |items| ==> r == items + [v];
    InsertedCanon(items, k, v);
  }

  lemma {:induction false} InsertedCanon(items: seq<Json>, k: nat, v: Json)
    requires Tidy(Array(items)) && Tidy(v) && k <= |items|
    ensures var c := CanonItems(items); CanonItems(items[..k] + [v] + items[k..]) == c[..k] + [CanonOf(v)] + c[k..]
    ensures Tidy(Array(items[..k] + [v] + items[k..]))
  {
    hide CanonItems, CanonOf;
    assert items == items[..k] + items[k..] && [v][1..] == [];
    CanonItemsConcat(items[..k], items[k..]);
    CanonItemsConcat(items[..k] + [v], items[k..]);
    CanonItemsConcat(items[..k], [v]);
    CanonItemsStep([v]);
    CanonItemsStep([]);
  }

  /** An edit with a longer path acts on the node at the end of what was put before it. */
  lemma {:induction false} ApplyDeep(c: Canon, p: Path, e: Edit)
    requires Named(e) && Applicable(c, e.(at := p + e.at))
    ensures HasPath(c, p) && Applicable(GetPath(c, p), e)
    ensures Apply(c, e.(at := p + e.at)) == SetPath(c, p, Apply(GetPath(c, p), e))
    decreases |p|
  {
    hide Get, Set, Has, Drop, Suits;
    if p == [] {
      assert p + e.at == e.at;
    } else {
      var e' := e.(at := p + e.at);
      assert (p + e.at)[1..] == p[1..] + e.at;
      assert Deep(e') && Tail(e') == e.(at := p[1..] + e.at);
      ApplyDeep(Get(c, p[0]), p[1..], e);
    }
  }

  lemma {:induction false} Whole(t: string)
    ensures Occurs(t, 0, t)
  {
    assert t[0..] == t;
    OccursSuffix(t, 0);
  }

  /** cJSONUtils_PatchDetach on a generated path. */
  lemma {:induction false} DetachWorks(doc: Json, p: Path, s: Step) returns (doc': Json)
    requires Tidy(doc) && NamesOkPath(p) && (s.Key? ==> CString(s.name))
    requires HasPath(CanonOf(doc), p) && Suits(GetPath(CanonOf(doc), p), s)
    ensures PatchDetach(doc, String(PathText(p) + "/" + Token(s))).Detaching?
    ensures PatchDetach(doc, String(PathText(p) + "/" + Token(s))).doc == doc'
    ensures CanonOf(doc') == SetPath(CanonOf(doc), p, Drop(GetPath(CanonOf(doc), p), s)) && Tidy(doc')
  {
    hide CanonOf, Tidy, Evaluate, Occurs, PathText, Token, Drop, Suits, DetachChild, SplitPath, ChildName, SetPath,
        GetPath, HasPath;
    TokenDecodes(s);
    SplitsAt(PathText(p), Token(s), ChildName(s));
    Whole(PathText(p));
    var a := Resolves(doc, p, PathText(p), 0, doc);
    DetachDrops(NodeAt(doc, a), s);
    var n := DetachChild(NodeAt(doc, a), ChildName(s)).0;
    var b := Resolves(doc, p, PathText(p), 0, n);
    doc' := UpdateAt(doc, a, n);
  }

  /** The addition of a value below the node at a path. */
  lemma {:induction false} AddWorks(doc: Json, p: Path, token: string, child: string, v: Json)
    returns (parent: Json, doc': Json)
    requires Tidy(doc) && NamesOkPath(p) && HasPath(CanonOf(doc), p)
    requires (forall i | 0 <= i < |token| :: token[i] != '/') && Decode(token) == Some(child)
    ensures CanonOf(parent) == GetPath(CanonOf(doc), p) && Tidy(parent)
    ensures PatchAdd(doc, String(PathText(p) + "/" + token), v) == Done(0, doc')
    ensures CanonOf(doc') == SetPath(CanonOf(doc), p, CanonOf(AddChild(parent, child, v)))
    ensures Tidy(AddChild(parent, child, v)) ==> Tidy(doc')
  {
    hide CanonOf, Tidy, Evaluate, Occurs, PathText, AddChild, SplitPath, Decode, SetPath, GetPath, HasPath;
    SplitsAt(PathText(p), token, child);
    Whole(PathText(p));
    var a := Resolves(doc, p, PathText(p), 0, doc);
    parent := NodeAt(doc, a);
    var b := Resolves(doc, p, PathText(p), 0, AddChild(parent, child, v));
    doc' := UpdateAt(doc, a, AddChild(parent, child, v));
  }

  /** An edit that patches can express, with names and values as C and cJSON have them. */
  predicate EditOk(e: Edit) {
    && NamesOkPath(e.at)
    && (!e.Append? ==> e.at != [])
    && (!e.Remove? ==> Tidy(e.value))
  }

  /** The patch does to the tree what the edit means. */
  predicate Works(doc: Json, e: Edit)
    requires Applicable(CanonOf(doc), e)
  {
    var r := ApplyPatch(doc, Render("", e));
    r.Done? && r.code == 0 && CanonOf(r.doc) == Apply(CanonOf(doc), e) && Tidy(r.doc)
  }

  lemma {:induction false} LastStep(at: Path) returns (p: Path, s: Step)
    requires at != [] && NamesOkPath(at)
    ensures at == p + [s] && NamesOkPath(p) && (s.Key? ==> CString(s.name))
    ensures "" + PathText(at) == PathText(p) + "/" + Token(s)
  {
    p, s := at[..|at| - 1], at[|at| - 1];
    assert at == p + [s];
    PathTextConcat(p, [s]);
    PathTextOne(s);
    assert PathText(p) + ("/" + Token(s)) == PathText(p) + "/" + Token(s);
  }

  lemma {:induction false} RemoveWorks(doc: Json, at: Path)
    requires Tidy(doc) && EditOk(Remove(at)) && Applicable(CanonOf(doc), Remove(at))
    ensures Works(doc, Remove(at))
  {
    hide CanonOf, Tidy, PathText, Token, PatchDetach, GetItem, Apply, SetPath, GetPath, HasPath, NamesOkPath, MakePatch;
    var p, s := LastStep(at);
    var e := Remove([s]);
    ApplyDeep(CanonOf(doc), p, e);
    RemoveHere(GetPath(CanonOf(doc), p), s);
    var doc' := DetachWorks(doc, p, s);
    PatchItems("remove", PathText(p) + "/" + Token(s), None);
  }

  lemma {:induction false} RemoveHere(c: Canon, s: Step)
    requires Applicable(c, Remove([s]))
    ensures Suits(c, s) && Apply(c, Remove([s])) == Drop(c, s)
  {
  }

  lemma {:induction false} AddNamedWorks(doc: Json, at: Path, v: Json)
    requires Tidy(doc) && EditOk(Add(at, v)) && Applicable(CanonOf(doc), Add(at, v))
    ensures Works(doc, Add(at, v))
  {
    hide CanonOf, Tidy, PathText, PatchAdd, GetItem, Apply, SetPath, GetPath, HasPath, NamesOkPath, MakePatch,
        AddChild, Encode, Decode;
    var p, s := LastStep(at);
    ApplyDeep(CanonOf(doc), p, Add([s], v));
    AddHere(GetPath(CanonOf(doc), p), s, v);
    TokenDecodes(s);
    var parent, doc' := AddWorks(doc, p, Token(s), s.name, v);
    ObjectCanon(parent);
    AddPuts(parent, s.name, v);
    PatchItems("add", PathText(p) + "/" + Token(s), Some(v));
  }

  lemma {:induction false} AddHere(c: Canon, s: Step, v: Json)
    requires Applicable(c, Add([s], v))
    ensures s.Key? && c.CObject? && Apply(c, Add([s], v)) == CObject(c.members[Fold(s.name) := CanonOf(v)])
  {
  }

  lemma {:induction false} ObjectCanon(v: Json)
    ensures CanonOf(v).CObject? ==> v.Object? && CanonOf(v).members == CanonMembers(v.members)
    ensures CanonOf(v).CArray? ==> v.Array? && CanonOf(v).items == CanonItems(v.items)
  {
  }

  lemma {:induction false} AppendWorks(doc: Json, at: Path, v: Json)
    requires Tidy(doc) && EditOk(Append(at, v)) && Applicable(CanonOf(doc), Append(at, v))
    ensures Works(doc, Append(at, v))
  {
    hide CanonOf, Tidy, PathText, PatchAdd, GetItem, Apply, SetPath, GetPath, HasPath, NamesOkPath, MakePatch,
        AddChild, Encode, Decode;
    assert at + [] == at && "" + PathText(at) + "/-" == PathText(at) + "/" + "-";
    ApplyDeep(CanonOf(doc), at, Append([], v));
    AppendHere(GetPath(CanonOf(doc), at), v);
    DashDecodes();
    var parent, doc' := AddWorks(doc, at, "-", "-", v);
    ObjectCanon(parent);
    AddAppends(parent, v);
    PatchItems("add", PathText(at) + "/" + "-", Some(v));
  }

  lemma {:induction false} AppendHere(c: Canon, v: Json)
    requires Applicable(c, Append([], v))
    ensures c.CArray? && Apply(c, Append([], v)) == CArray(c.items + [CanonOf(v)])
  {
  }

  lemma {:induction false} DashDecodes()
    ensures Decode("-") == Some("-")
  {
    PlainEncodes("-");
    DecodeEncode("-");
  }

  lemma {:induction false} ReplaceHere(c: Canon, s: Step, v: Json)
    requires Applicable(c, Replace([s], v))
    ensures Has(c, s) && Suits(c, s) && Apply(c, Replace([s], v)) == Set(c, s, CanonOf(v))
  {
    assert [s][1..] == [];
  }

  /** Dropping a child and adding the value in its place sets it. */
  lemma {:induction false} DropThenAdd(c: Canon, s: Step, parent: Json, v: Json)
    requires Has(c, s) && Suits(c, s) && Tidy(parent) && CanonOf(parent) == Drop(c, s) && Tidy(v)
               && (s.Key? ==> CString(s.name))
    ensures var r := AddChild(parent, ChildName(s), v); CanonOf(r) == Set(c, s, CanonOf(v)) && Tidy(r)
  {
    hide CanonOf, Tidy, AddChild;
    ObjectCanon(parent);
    if s.Index? {
      AddInserts(parent, s.k, v);
      var d, k := c.items[..s.k] + c.items[s.k + 1..], s.k;
      assert d[..k] + [CanonOf(v)] + d[k..] == c.items[k := CanonOf(v)];
    } else {
      AddPuts(parent, s.name, v);
      assert (c.members - {Fold(s.name)})[Fold(s.name) := CanonOf(v)] == c.members[Fold(s.name) := CanonOf(v)];
    }
  }

  lemma {:induction false} ReplaceWorks(doc: Json, at: Path, v: Json)
    requires Tidy(doc) && EditOk(Replace(at, v)) && Applicable(CanonOf(doc), Replace(at, v))
    ensures Works(doc, Replace(at, v))
  {
    hide CanonOf, Tidy, PathText, PatchAdd, PatchDetach, GetItem, Apply, SetPath, GetPath, HasPath, NamesOkPath,
        MakePatch, AddChild;
    hide Token, Decode, Drop, Set, Has, Suits, ChildName;
    var p, s := LastStep(at);
    var c := CanonOf(doc);
    ApplyDeep(c, p, Replace([s], v));
    var g := GetPath(c, p);
    ReplaceHere(g, s, v);
    var doc1 := DetachWorks(doc, p, s);
    SetPathTwice(c, p, Drop(g, s), Set(g, s, CanonOf(v)));
    TokenDecodes(s);
    var parent, doc2 := AddWorks(doc1, p, Token(s), ChildName(s), v);
    DropThenAdd(g, s, parent, v);
    PatchItems("replace", PathText(p) + "/" + Token(s), Some(v));
  }

  /** Every generated patch does what the edit it comes from means. */
  lemma {:induction false} EditWorks(doc: Json, e: Edit)
    requires Tidy(doc) && EditOk(e) && Applicable(CanonOf(doc), e)
    ensures Works(doc, e)
  {
    match e {
      case Replace(at, v) => ReplaceWorks(doc, at, v);
      case Remove(at) => RemoveWorks(doc, at);
      case Add(at, v) => AddNamedWorks(doc, at, v);
      case Append(at, v) => AppendWorks(doc, at, v);
    }
  }

  predicate AllOk(es: seq<Edit>) {
    forall i | 0 <= i < |es| :: EditOk(es[i])
  }

  lemma {:induction false} SequenceWorks(doc: Json, es: seq<Edit>) returns (doc': Json)
    requires Tidy(doc) && AllOk(es) && AllApplicable(CanonOf(doc), es)
    ensures ApplySequence(doc, RenderAll("", es)) == Done(0, doc')
    ensures CanonOf(doc') == ApplyAll(CanonOf(doc), es) && Tidy(doc')
    decreases |es|
  {
    hide ApplyPatch, Apply, Applicable, Tidy, EditOk, CanonOf, Render;
    if es == [] {
      doc' := doc;
    } else {
      EditWorks(doc, es[0]);
      var next := ApplyPatch(doc, Render("", es[0])).doc;
      doc' := SequenceWorks(next, es[1..]);
      var ps := RenderAll("", es);
      assert ps[0] == Render("", es[0]) && ps[1..] == RenderAll("", es[1..]);
    }
  }

  /** An edit that can be put under a step. */
  predicate Good(e: Edit) {
    NamesOkPath(e.at) && Named(e) && (!e.Remove? ==> Tidy(e.value))
  }

  predicate AllGood(es: seq<Edit>) {
    forall i | 0 <= i < |es| :: Good(es[i])
  }

  lemma {:induction false} GoodUnder(s: Step, es: seq<Edit>)
    requires AllGood(es) && (s.Key? ==> CString(s.name))
    ensures AllOk(AllUnder(s, es))
    decreases |es|
  {
    if es != [] {
      GoodUnder(s, es[1..]);
      var u := Under(s, es[0]);
      assert forall i | 0 <= i < |u.at| :: u.at[i] == if i == 0 then s else es[0].at[i - 1];
      assert EditOk(u);
    }
  }

  lemma {:induction false} RemovalsOk(k: nat, n: nat)
    ensures AllOk(Removals(k, n))
    decreases n - k
  {
    if k < n {
      RemovalsOk(k + 1, n);
    }
  }

  lemma {:induction false} AppendsOk(items: seq<Json>)
    requires forall i | 0 <= i < |items| :: Tidy(items[i])
    ensures AllOk(Appends(items))
  {
    if items != [] {
      AppendsOk(items[1..]);
    }
  }

  lemma {:induction false} ItemEditsOk(from: Json, to: Json, k: nat)
    requires from.Array? && to.Array? && Tidy(from) && Tidy(to) && k <= |from.items| && k <= |to.items|
    ensures AllOk(ItemEdits(from, to, k))
    decreases from, 0, |from.items| - k
  {
    TidyParts(from);
    TidyParts(to);
    if k < |from.items| && k < |to.items| {
      EditsGood(from.items[k], to.items[k]);
      GoodUnder(Index(k), EditsOf(from.items[k], to.items[k]));
      ItemEditsOk(from, to, k + 1);
    } else {
      RemovalsOk(k, |from.items|);
      AppendsOk(to.items[k..]);
    }
  }

  lemma {:induction false} MemberEditsOk(from: Json, a: seq<Member>, b: seq<Member>)
    requires From(from, a) && TidyMembers(a) && TidyMembers(b)
    ensures AllOk(MemberEdits(from, a, b))
    decreases from, 0, |a| + |b|
  {
    hide Tidy, EditsOf;
    if a != [] || b != [] {
      if Diff(a, b) > 0 {
        MemberEditsOk(from, a, b[1..]);
        assert EditOk(Add([Key(b[0].name)], b[0].value));
      } else {
        if Diff(a, b) < 0 {
          MemberEditsOk(from, a[1..], b);
          assert EditOk(Remove([Key(a[0].name)]));
        } else {
          EditsGood(a[0].value, b[0].value);
          GoodUnder(Key(a[0].name), EditsOf(a[0].value, b[0].value));
          MemberEditsOk(from, a[1..], b[1..]);
        }
      }
    }
  }

  lemma {:induction false} EditsGood(from: Json, to: Json)
    requires Tidy(from) && Tidy(to)
    ensures AllGood(EditsOf(from, to))
    ensures SameKind(from, to) && (from.Array? || from.Object?) ==> AllOk(EditsOf(from, to))
    decreases from, 1, 0
  {
    if SameKind(from, to) {
      match from {
        case Array(_) => ItemEditsOk(from, to, 0);
        case Object(_) => ObjectEditsOk(from, to);
        case _ =>
      }
    }
  }

  lemma {:induction false} ObjectEditsOk(from: Json, to: Json)
    requires Tidy(from) && Tidy(to) && from.Object? && to.Object?
    ensures AllOk(EditsOf(from, to))
    decreases from, 0, |from.members| + |to.members| + 1
  {
    hide MemberEdits, Tidy, TidyMembers, Strict, SortedMembers, From;
    TidyParts(from);
    TidyParts(to);
    SortedStrict(from.members);
    SortedStrict(to.members);
    SortedLength(from.members);
    SortedLength(to.members);
    ObjectEdits(from, to);
    MemberEditsOk(from, SortedMembers(from.members), SortedMembers(to.members));
  }

  /**
   Diff and apply (section 4 of RFC 6902): for two objects or two arrays, the
   patches that are generated apply with code 0 to any tree that equals from up
   to member order and the case of names, and the result equals to in the same
   way, exactly if no compared array shrinks by more than one item.
   */
  lemma {:induction false} ApplyUndoesDiff(from: Json, to: Json, copy: Json) returns (result: Json)
    requires Tidy(from) && Tidy(to) && Tidy(copy) && CanonOf(copy) == CanonOf(from)
    requires (from.Object? && to.Object?) || (from.Array? && to.Array?)
    ensures PatchAll(copy, Array(RenderAll("", EditsOf(from, to)))) == Done(0, result)
    ensures CanonOf(result) == CanonOf(to) <==> Fits(from, to)
    ensures Tidy(result)
  {
    EditsGood(from, to);
    EditsWork(from, to);
    PatchedIsTarget(from, to);
    result := SequenceWorks(copy, EditsOf(from, to));
  }

  /** An array that shrinks by two: the second removal hits the wrong item, and one item too many stays. */
  lemma {:induction false} ShrinkByTwoFails() returns (result: Json)
    ensures PatchAll(Array([Null, False, True]), Array(RenderAll("", EditsOf(Array([Null, False, True]),
              Array([Null]))))) == Done(0, result)
    ensures CanonOf(result) == CArray([CNull, CTrue]) && CanonOf(Array([Null])) == CArray([CNull])
  {
    hide EditsOf, ApplyAll, AllApplicable, PatchedItems, PatchAll, RenderAll, Tidy;
    var from, goal := Array([Null, False, True]), Array([Null]);
    ExampleTidy();
    EditsWork(from, goal);
    EditsGood(from, goal);
    result := SequenceWorks(from, EditsOf(from, goal));
    ExamplePatched();
    ApplyAllPatches(from, RenderAll("", EditsOf(from, goal)));
  }

  lemma {:induction false} ApplyAllPatches(doc: Json, ps: seq<Json>)
    ensures PatchAll(doc, Array(ps)) == ApplySequence(doc, ps)
  {
  }

  lemma {:induction false} ExampleTidy()
    ensures Tidy(Array([Null, False, True])) && Tidy(Array([Null]))
  {
  }

  lemma {:induction false} ExamplePatched()
    ensures Patched(Array([Null, False, True]), Array([Null])) == CArray([CNull, CTrue])
    ensures CanonOf(Array([Null])) == CArray([CNull])
  {
    var from, goal, rest := Array([Null, False, True]), Array([Null]), [False, True];
    assert from.items[1..] == rest && goal.items[1..] == [] && rest[2..] == [];
    assert Leftover([]) == [] && Leftover(rest) == [True] && [True][1..] == [];
    assert CanonItems([True]) == [CTrue] && CanonItems([]) == [];
    assert PatchedItems(from, goal, 1) == [CTrue];
    assert PatchedItems(from, goal, 0) == [CNull, CTrue];
  }

  /** A patch that replaces the root has no parent to act on: applying it is undefined in C. */
  lemma {:induction false} RootReplacementCrashes(doc: Json, goal: Json)
    ensures PatchAll(doc, Array(RenderAll("", [Replace([], goal)]))) == Crash
  {
    var es := [Replace([], goal)];
    assert es[1..] == [];
    PathTextNone("");
    PatchItems("replace", "", Some(goal));
    assert SplitPath("") == NoChild;
  }

  /** The generated patches can be applied exactly to two objects, two arrays, or equal scalars. */
  lemma {:induction false} CrashIffRootsDiffer(from: Json, goal: Json, copy: Json)
    requires Tidy(from) && Tidy(goal) && Tidy(copy) && CanonOf(copy) == CanonOf(from)
    ensures PatchAll(copy, Array(RenderAll("", EditsOf(from, goal)))) == Crash <==>
              !((from.Object? && goal.Object?) || (from.Array? && goal.Array?) || from == goal)
  {
    hide PatchAll, RenderAll, Tidy, CanonOf, MemberEdits, ItemEdits;
    if (from.Object? && goal.Object?) || (from.Array? && goal.Array?) {
      var result := ApplyUndoesDiff(from, goal, copy);
    } else if from == goal {
      NothingApplied(copy);
    } else {
      RootReplacementCrashes(copy, goal);
    }
  }

  lemma {:induction false} NothingApplied(doc: Json)
    ensures PatchAll(doc, Array(RenderAll("", []))) == Done(0, doc)
  {
  }

  /** Two different numbers. */
  lemma {:induction false} NumbersCrash()
    ensures PatchAll(Json.Number(1, 1.0), Array(RenderAll("", EditsOf(Json.Number(1, 1.0), Json.Number(2, 2.0))))) ==
              Crash
  {
    var one, two := Json.Number(1, 1.0), Json.Number(2, 2.0);
    assert EditsOf(one, two) == [Replace([], two)];
    RootReplacementCrashes(one, two);
  }
}
