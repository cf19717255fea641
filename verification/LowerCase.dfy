/**
 Trees whose names have no upper-case letters: patches and merge patches keep
 them so, and for them equality up to the case of names is equality.
 */
module LowerCase {
  import opened CaseOrder
  import opened Json
  import opened Pointers
  import opened Canon
  import opened Edits
  import opened Resolution
  import opened Comparison
  import opened Patch
  import opened PatchLaws
  import opened MergePatches
  import opened MergeInverse
  import opened MergeAgreeing

  // Equality

  /** Equality up to member order, with the names as they are. */
  predicate Equals(a: Json, b: Json)
    decreases a
  {
    SameKind(a, b) &&
    match a
    case Number(i, d) => i == b.valueint && d == b.valuedouble
    case String(s) => s == b.valuestring
    case Array(items) => |items| == |b.items| && forall i | 0 <= i < |items| :: Equals(items[i], b.items[i])
    case Object(members) => MembersMatch(members, b.members)
    case _ => true
  }

  predicate MembersMatch(s: seq<Member>, t: seq<Member>)
    decreases s
  {
    && (forall i | 0 <= i < |s| :: EqualsOne(s[i], t))
    && (forall j | 0 <= j < |t| :: exists i :: 0 <= i < |s| && s[i].name == t[j].name)
  }

  predicate EqualsOne(m: Member, members: seq<Member>)
    decreases m
  {
    exists j :: 0 <= j < |members| && members[j].name == m.name && Equals(m.value, members[j].value)
  }

  /** On lower-case names, equality up to case is equality. */
  lemma {:induction false} SameIsEqual(a: Json, b: Json)
    requires Lower(a) && Lower(b)
    ensures SameTree(a, b) <==> Equals(a, b)
    decreases a
  {
    if SameKind(a, b) {
      match a {
        case Array(items) =>
          if |items| == |b.items| {
            forall i | 0 <= i < |items|
              ensures SameTree(items[i], b.items[i]) <==> Equals(items[i], b.items[i])
            {
              SameIsEqual(items[i], b.items[i]);
            }
          }
        case Object(members) =>
          SameMembers(members, b.members);
        case _ =>
      }
    }
  }

  lemma {:induction false} SameMembers(s: seq<Member>, t: seq<Member>)
    requires LowerMembers(s) && LowerMembers(t)
    ensures Matched(s, t) <==> MembersMatch(s, t)
    decreases s
  {
    hide Equals, SameTree, HasCounterpart, EqualsOne, LowerMembers;
    SameNames(s, t);
    forall i | 0 <= i < |s|
      ensures HasCounterpart(s[i], t) <==> EqualsOne(s[i], t)
    {
      MemberIn(s, i);
      SameOne(s[i], t);
    }
    assert (forall i | 0 <= i < |s| :: HasCounterpart(s[i], t)) <==> (forall i | 0 <= i < |s| :: EqualsOne(s[i], t));
    var covered := forall j | 0 <= j < |t| :: exists i :: 0 <= i < |s| && s[i].name == t[j].name;
    assert covered <==> (forall j | 0 <= j < |t| :: exists i :: 0 <= i < |s| && Fold(s[i].name) == Fold(t[j].name));
    assert Matched(s, t) <==> (forall i | 0 <= i < |s| :: HasCounterpart(s[i], t)) && covered;
    assert MembersMatch(s, t) <==> (forall i | 0 <= i < |s| :: EqualsOne(s[i], t)) && covered;
  }

  lemma {:induction false} MemberIn(s: seq<Member>, i: nat)
    requires LowerMembers(s) && i < |s|
    ensures Fold(s[i].name) == s[i].name && Lower(s[i].value)
  {
  }

  lemma {:induction false} SameNames(s: seq<Member>, t: seq<Member>)
    requires LowerMembers(s) && LowerMembers(t)
    ensures forall j | 0 <= j < |t| ::
              (exists i :: 0 <= i < |s| && Fold(s[i].name) == Fold(t[j].name)) <==>
                  (exists i :: 0 <= i < |s| && s[i].name == t[j].name)
  {
    forall j | 0 <= j < |t|
      ensures (exists i :: 0 <= i < |s| && Fold(s[i].name) == Fold(t[j].name)) <==>
                (exists i :: 0 <= i < |s| && s[i].name == t[j].name)
    {
      if i :| 0 <= i < |s| && Fold(s[i].name) == Fold(t[j].name) {
        assert s[i].name == t[j].name;
      }
    }
  }

  lemma {:induction false} SameOne(m: Member, members: seq<Member>)
    requires Fold(m.name) == m.name && Lower(m.value) && LowerMembers(members)
    ensures HasCounterpart(m, members) <==> EqualsOne(m, members)
    decreases m
  {
    forall j | 0 <= j < |members|
      ensures SameTree(m.value, members[j].value) <==> Equals(m.value, members[j].value)
    {
      SameIsEqual(m.value, members[j].value);
    }
  }

  // Texts

  predicate LowerText(s: string) {
    forall i | 0 <= i < |s| :: ToLower(s[i]) == s[i]
  }

  lemma {:induction false} LowerIsFolded(s: string)
    ensures LowerText(s) <==> Fold(s) == s
  {
    forall i | 0 <= i < |s|
      ensures Fold(s)[i] == ToLower(s[i])
    {
      FoldAt(s, i);
    }
  }

  lemma {:induction false} EncodeLower(s: string)
    requires LowerText(s)
    ensures LowerText(Encode(s))
  {
    if s != "" {
      EncodeLower(s[1..]);
    }
  }

  lemma {:induction false} DecodeLower(s: string)
    requires LowerText(s) && Decode(s).Some?
    ensures LowerText(Decode(s).value)
    decreases |s|
  {
    if s != "" {
      DecodeLower(s[if s[0] == '~' then 2 else 1..]);
    }
  }

  predicate LowerPath(p: Path) {
    forall i | 0 <= i < |p| :: p[i].Key? ==> LowerText(p[i].name)
  }

  lemma {:induction false} PathTextLower(p: Path)
    requires LowerPath(p)
    ensures LowerText(PathText(p))
  {
    if p != [] {
      PathTextLower(p[1..]);
      if p[0].Key? {
        EncodeLower(p[0].name);
      }
    }
  }

  // Applying a patch

  lemma {:induction false} NodeLower(v: Json, a: Address)
    requires Lower(v) && IsNode(v, a)
    ensures Lower(NodeAt(v, a))
    decreases |a|
  {
    if a != [] {
      NodeLower(ChildAt(v, a[0]), a[1..]);
    }
  }

  lemma {:induction false} UpdateLower(v: Json, a: Address, n: Json)
    requires Lower(v) && IsNode(v, a) && Lower(n)
    ensures Lower(UpdateAt(v, a, n))
    decreases |a|
  {
    if a != [] {
      UpdateLower(ChildAt(v, a[0]), a[1..], n);
    }
  }

  lemma {:induction false} DetachChildLower(parent: Json, child: string)
    requires Lower(parent)
    ensures Lower(DetachChild(parent, child).0)
    ensures DetachChild(parent, child).1.Some? ==> Lower(DetachChild(parent, child).1.value)
  {
  }

  lemma {:induction false} AddChildLower(parent: Json, child: string, value: Json)
    requires Lower(parent) && LowerText(child) && Lower(value)
    ensures Lower(AddChild(parent, child, value))
  {
    LowerIsFolded(child);
  }

  lemma {:induction false} SplitLower(path: string)
    requires LowerText(path) && SplitPath(path).Split?
    ensures LowerText(SplitPath(path).child)
  {
    DecodeLower(path[LastSlash(path).value + 1..]);
  }

  lemma {:induction false} DetachLower(doc: Json, path: Json)
    requires Lower(doc) && PatchDetach(doc, path).Detaching?
    ensures Lower(PatchDetach(doc, path).doc)
    ensures PatchDetach(doc, path).value.Some? ==> Lower(PatchDetach(doc, path).value.value)
  {
    var split := SplitPath(path.valuestring);
    if Evaluate(doc, split.parent, 0).Some? {
      var a := Evaluate(doc, split.parent, 0).value;
      EvaluateIsNode(doc, split.parent, 0);
      NodeLower(doc, a);
      DetachChildLower(NodeAt(doc, a), split.child);
      UpdateLower(doc, a, DetachChild(NodeAt(doc, a), split.child).0);
    }
  }

  lemma {:induction false} PutLower(doc: Json, path: Json, value: Json)
    requires Lower(doc) && Lower(value) && (path.String? ==> LowerText(path.valuestring))
    ensures PatchAdd(doc, path, value).Done? ==> Lower(PatchAdd(doc, path, value).doc)
  {
    if path.String? && SplitPath(path.valuestring).Split? {
      var split := SplitPath(path.valuestring);
      SplitLower(path.valuestring);
      if Evaluate(doc, split.parent, 0).Some? {
        var a := Evaluate(doc, split.parent, 0).value;
        EvaluateIsNode(doc, split.parent, 0);
        NodeLower(doc, a);
        AddChildLower(NodeAt(doc, a), split.child, value);
        UpdateLower(doc, a, AddChild(NodeAt(doc, a), split.child, value));
      }
    }
  }

  /** Neither the path of a patch nor the names in it have upper-case letters. */
  predicate LowerPatch(patch: Json) {
    var path := GetItem(patch, "path");
    Lower(patch) && (path.Some? && path.value.String? ==> LowerText(path.value.valuestring))
  }

  lemma {:induction false} ItemLower(v: Json, name: string)
    requires Lower(v) && GetItem(v, name).Some?
    ensures Lower(GetItem(v, name).value)
  {
  }

  /** Whatever its operation, such a patch brings no upper-case letters into a tree. */
  lemma {:induction false} ApplyLower(doc: Json, patch: Json)
    requires Lower(doc) && LowerPatch(patch) && ApplyPatch(doc, patch).Done?
    ensures Lower(ApplyPatch(doc, patch).doc)
  {
    hide GetItem, PatchDetach, PatchAdd, Lower;
    var op, path := GetItem(patch, "op"), GetItem(patch, "path");
    if op.Some? && path.Some? {
      match op.value.valuestring {
        case "add" => AddValueLower(doc, patch, path.value);
        case "remove" => DetachLower(doc, path.value);
        case "replace" =>
          DetachLower(doc, path.value);
          AddValueLower(PatchDetach(doc, path.value).doc, patch, path.value);
        case "move" =>
          var from := GetItem(patch, "from");
          if from.Some? {
            DetachLower(doc, from.value);
            var d := PatchDetach(doc, from.value);
            if d.value.Some? {
              PutLower(d.doc, path.value, d.value.value);
            }
          }
        case "copy" =>
          var from := GetItem(patch, "from");
          if from.Some? && from.value.String? && Evaluate(doc, from.value.valuestring, 0).Some? {
            CopyLower(doc, path.value, from.value.valuestring);
          }
        case _ =>
      }
    }
  }

  lemma {:induction false} AddValueLower(doc: Json, patch: Json, path: Json)
    requires Lower(doc) && Lower(patch) && (path.String? ==> LowerText(path.valuestring))
    ensures AddValue(doc, patch, path).Done? ==> Lower(AddValue(doc, patch, path).doc)
  {
    hide GetItem, PatchAdd, Lower;
    if GetItem(patch, "value").Some? {
      ItemLower(patch, "value");
      PutLower(doc, path, GetItem(patch, "value").value);
    }
  }

  lemma {:induction false} CopyLower(doc: Json, path: Json, from: string)
    requires Lower(doc) && (path.String? ==> LowerText(path.valuestring)) && Evaluate(doc, from, 0).Some?
    ensures IsNode(doc, Evaluate(doc, from, 0).value)
    ensures var r := PatchAdd(doc, path, NodeAt(doc, Evaluate(doc, from, 0).value));
            r.Done? ==> Lower(r.doc)
  {
    EvaluateIsNode(doc, from, 0);
    NodeLower(doc, Evaluate(doc, from, 0).value);
    PutLower(doc, path, NodeAt(doc, Evaluate(doc, from, 0).value));
  }

  lemma {:induction false} SequenceLower(doc: Json, ps: seq<Json>)
    requires Lower(doc) && (forall i | 0 <= i < |ps| :: LowerPatch(ps[i])) && ApplySequence(doc, ps).Done?
    ensures Lower(ApplySequence(doc, ps).doc)
    decreases |ps|
  {
    hide ApplyPatch, LowerPatch;
    if ps != [] {
      ApplyLower(doc, ps[0]);
      if ApplyPatch(doc, ps[0]).code == 0 {
        SequenceLower(ApplyPatch(doc, ps[0]).doc, ps[1..]);
      }
    }
  }

  // Generated patches

  predicate LowerEdit(e: Edit) {
    LowerPath(e.at) && (!e.Remove? ==> Lower(e.value))
  }

  predicate LowerEdits(es: seq<Edit>) {
    forall i | 0 <= i < |es| :: LowerEdit(es[i])
  }

  lemma {:induction false} MakeLower(op: string, path: string, value: Option<Json>)
    requires LowerText(path) && (value.Some? ==> Lower(value.value))
    ensures LowerPatch(MakePatch(op, path, value))
  {
    PatchItems(op, path, value);
    LowerIsFolded("op");
    LowerIsFolded("path");
    LowerIsFolded("value");
  }

  lemma {:induction false} RenderLower(e: Edit)
    requires LowerEdit(e)
    ensures LowerPatch(Render("", e))
  {
    hide PathText, LowerPatch, MakePatch;
    PathTextLower(e.at);
    var path := "" + PathText(e.at);
    match e {
      case Replace(_, v) => MakeLower("replace", path, Some(v));
      case Remove(_) => MakeLower("remove", path, None);
      case Add(_, v) => MakeLower("add", path, Some(v));
      case Append(_, v) => MakeLower("add", path + "/-", Some(v));
    }
  }

  lemma {:induction false} RenderAllLower(es: seq<Edit>)
    requires LowerEdits(es)
    ensures forall i | 0 <= i < |RenderAll("", es)| :: LowerPatch(RenderAll("", es)[i])
  {
    hide Render, LowerEdit, LowerPatch;
    if es != [] {
      RenderLower(es[0]);
      RenderAllLower(es[1..]);
    }
  }

  lemma {:induction false} UnderLower(s: Step, es: seq<Edit>)
    requires LowerEdits(es) && (s.Key? ==> LowerText(s.name))
    ensures LowerEdits(AllUnder(s, es))
  {
    if es != [] {
      UnderLower(s, es[1..]);
      var u := Under(s, es[0]);
      assert forall i | 0 <= i < |u.at| :: u.at[i] == if i == 0 then s else es[0].at[i - 1];
      assert LowerEdit(u);
    }
  }

  lemma {:induction false} SortedLower(members: seq<Member>)
    requires LowerMembers(members)
    ensures LowerMembers(SortedMembers(members))
  {
    SortedFrom(Object(members));
    var a := SortedMembers(members);
    forall i | 0 <= i < |a|
      ensures Fold(a[i].name) == a[i].name && Lower(a[i].value)
    {
      assert a[i] in members;
    }
  }

  lemma {:induction false} EditsLower(from: Json, to: Json)
    requires Lower(from) && Lower(to)
    ensures LowerEdits(EditsOf(from, to))
    decreases from, 1, 0
  {
    if SameKind(from, to) {
      match from {
        case Array(_) => ItemEditsLower(from, to, 0);
        case Object(_) => ObjectEditsLower(from, to);
        case _ =>
      }
    }
  }

  lemma {:induction false} ObjectEditsLower(from: Json, to: Json)
    requires Lower(from) && Lower(to) && from.Object? && to.Object?
    ensures LowerEdits(EditsOf(from, to))
    decreases from, 0, |from.members| + |to.members| + 1
  {
    hide MemberEdits, LowerMembers, From, SortedMembers, LowerEdits;
    SortedLower(from.members);
    SortedLower(to.members);
    SortedLength(from.members);
    SortedLength(to.members);
    ObjectEdits(from, to);
    MemberEditsLower(from, SortedMembers(from.members), SortedMembers(to.members));
  }

  lemma {:induction false} ItemEditsLower(from: Json, to: Json, k: nat)
    requires from.Array? && to.Array? && Lower(from) && Lower(to) && k <= |from.items| && k <= |to.items|
    ensures LowerEdits(ItemEdits(from, to, k))
    decreases from, 0, |from.items| - k
  {
    if k < |from.items| && k < |to.items| {
      EditsLower(from.items[k], to.items[k]);
      UnderLower(Index(k), EditsOf(from.items[k], to.items[k]));
      ItemEditsLower(from, to, k + 1);
    } else {
      RemovalsLower(k, |from.items|);
      AppendsLower(to.items[k..]);
    }
  }

  lemma {:induction false} RemovalsLower(k: nat, n: nat)
    ensures LowerEdits(Removals(k, n))
    decreases n - k
  {
    if k < n {
      RemovalsLower(k + 1, n);
    }
  }

  lemma {:induction false} AppendsLower(items: seq<Json>)
    requires forall i | 0 <= i < |items| :: Lower(items[i])
    ensures LowerEdits(Appends(items))
  {
    if items != [] {
      AppendsLower(items[1..]);
    }
  }

  lemma {:induction false} MemberEditsLower(from: Json, a: seq<Member>, b: seq<Member>)
    requires From(from, a) && LowerMembers(a) && LowerMembers(b)
    ensures LowerEdits(MemberEdits(from, a, b))
    decreases from, 0, |a| + |b|
  {
    hide Lower, EditsOf;
    if a != [] { LowerIsFolded(a[0].name); }
    if b != [] { LowerIsFolded(b[0].name); }
    if a != [] || b != [] {
      if Diff(a, b) > 0 {
        MemberEditsLower(from, a, b[1..]);
        assert LowerEdit(Add([Key(b[0].name)], b[0].value));
      } else {
        if Diff(a, b) < 0 {
          MemberEditsLower(from, a[1..], b);
          assert LowerEdit(Remove([Key(a[0].name)]));
        } else {
          EditsLower(a[0].value, b[0].value);
          UnderLower(Key(a[0].name), EditsOf(a[0].value, b[0].value));
          MemberEditsLower(from, a[1..], b[1..]);
        }
      }
    }
  }

  /**
   Diff and apply (section 4 of RFC 6902) for lower-case names: the generated
   patches apply with code 0 to any tree that equals from up to member order,
   and the result equals to up to member order exactly if no compared array
   shrinks by more than one item.
   */
  lemma {:induction false} ApplyUndoesDiffExactly(from: Json, to: Json, copy: Json) returns (result: Json)
    requires Tidy(from) && Tidy(to) && Tidy(copy) && Lower(from) && Lower(to) && Lower(copy)
    requires (from.Object? && to.Object?) || (from.Array? && to.Array?)
    requires Equals(copy, from)
    ensures PatchAll(copy, Array(RenderAll("", EditsOf(from, to)))) == Done(0, result)
    ensures Lower(result) && (Equals(result, to) <==> Fits(from, to))
  {
    hide Tidy, Lower, Equals, SameTree, CanonOf, EditsOf, Fits, RenderAll, LowerEdits, LowerPatch;
    SameIsEqual(copy, from);
    CanonMeansSame(copy, from);
    result := ApplyUndoesDiff(from, to, copy);
    EditsLower(from, to);
    RenderAllLower(EditsOf(from, to));
    ApplyAllPatches(copy, RenderAll("", EditsOf(from, to)));
    SequenceLower(copy, RenderAll("", EditsOf(from, to)));
    CanonMeansSame(result, to);
    SameIsEqual(result, to);
  }

  // Merge patches

  /** Merging brings no upper-case letters into a tree. */
  lemma {:induction false} MergeLower(target: Option<Json>, patch: Json)
    requires (target.Some? ==> Lower(target.value)) && Lower(patch)
    ensures Lower(Merge(target, patch))
    decreases patch, 0
  {
    if patch.Object? {
      MergeMembersLower(if target.Some? && target.value.Object? then target.value.members else [], patch.members);
    }
  }

  lemma {:induction false} MergeMembersLower(target: seq<Member>, pm: seq<Member>)
    requires LowerMembers(target) && LowerMembers(pm)
    ensures LowerMembers(MergeMembers(target, pm))
    decreases pm
  {
    if pm != [] {
      var k := ItemIndex(target, pm[0].name);
      if !pm[0].value.Null? {
        MergeLower(if k < |target| then Some(target[k].value) else None, pm[0].value);
      }
      MergeMembersLower(MergeMember(target, pm[0]), pm[1..]);
    }
  }

  lemma {:induction false} GenerateLower(from: Json, goal: Json)
    requires Lower(from) && Lower(goal)
    ensures Generate(from, goal).Some? ==> Lower(Generate(from, goal).value)
    decreases goal, 1, 0
  {
    if from.Object? && goal.Object? {
      ObjectsLower(from, goal);
    }
  }

  lemma {:induction false} ObjectsLower(from: Json, goal: Json)
    requires Lower(from) && Lower(goal) && from.Object? && goal.Object?
    ensures Generate(from, goal).Some? ==> Lower(Generate(from, goal).value)
    decreases goal, 0, |from.members| + |goal.members| + 1
  {
    hide GenerateMembers, LowerMembers, From, SortedMembers;
    SortedLower(from.members);
    SortedLower(goal.members);
    SortedFrom(goal);
    SortedLength(from.members);
    SortedLength(goal.members);
    GeneratedMembersLower(goal, SortedMembers(from.members), SortedMembers(goal.members));
  }

  lemma {:induction false} GeneratedMembersLower(goal: Json, a: seq<Member>, b: seq<Member>)
    requires From(goal, b) && LowerMembers(a) && LowerMembers(b)
    ensures LowerMembers(GenerateMembers(goal, a, b))
    decreases goal, 0, |a| + |b|
  {
    if a == [] && b == [] {
    } else if Side(a, b) < 0 {
      GeneratedMembersLower(goal, a[1..], b);
    } else if Side(a, b) > 0 {
      GeneratedMembersLower(goal, a, b[1..]);
    } else {
      GenerateLower(a[0].value, b[0].value);
      GeneratedMembersLower(goal, a[1..], b[1..]);
    }
  }

  /**
   Merge-patch diff and apply (section 2 of RFC 7396), with the names as they
   are: no patch is generated exactly for two objects that are equal up to
   member order; otherwise merging the patch into a tree equal to the first
   gives the second, up to member order, exactly if its null members, if any,
   stand in places where the two trees agree.
   */
  lemma {:induction false} MergeUndoesGenerateExactly(from: Json, goal: Json, copy: Json)
    requires Tidy(from) && Lower(from) && Tidy(goal) && Lower(goal) && Tidy(copy) && Lower(copy) && Equals(copy, from)
    ensures Generate(from, goal).None? <==> from.Object? && goal.Object? && Equals(from, goal)
    ensures Generate(from, goal).Some? ==>
              var result := Merge(Some(copy), Generate(from, goal).value);
              && Lower(result)
              && (Equals(result, goal) <==> NullsAgree(from, goal))
              && (NoNulls(goal) ==> Equals(result, goal))
  {
    hide Tidy, Lower, Equals, SameTree, CanonOf, Generate, Merge, NullsAgree, NoNulls, Reaches, Agreeing;
    SameIsEqual(copy, from);
    CanonMeansSame(copy, from);
    SameIsEqual(from, goal);
    CanonMeansSame(from, goal);
    LowerAgrees(from, goal);
    MergeUndoesGenerate(from, goal, copy);
    MergeUndoesGenerateAgreeing(from, goal, copy);
    if Generate(from, goal).Some? {
      var result := Merge(Some(copy), Generate(from, goal).value);
      GenerateLower(from, goal);
      MergeLower(Some(copy), Generate(from, goal).value);
      CanonMeansSame(result, goal);
      SameIsEqual(result, goal);
    }
  }
}
