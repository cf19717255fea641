/** What merging a patch means, and that merging it again changes nothing. */
module MergeLaws {
  import opened Lists
  import opened CText
  import opened CaseOrder
  import opened Json
  import opened Pointers
  import opened Canon
  import opened Edits
  import opened Patch
  import opened PatchLaws
  import opened MergePatches

  // What merging means (section 2 of RFC 7396)

  /** The members of a canonical target; anything but an object counts as empty. */
  function MembersOf(c: Option<Canon>): (m: map<string, Canon>) {
    if c.Some? && c.value.CObject? then c.value.members else map[]
  }

  function CMerge(c: Option<Canon>, patch: Json): (r: Canon)
    decreases patch, 0
  {
    if !patch.Object? then CanonOf(patch) else CObject(CMergeMembers(MembersOf(c), patch.members))
  }

  function CMergeMembers(m: map<string, Canon>, pm: seq<Member>): (r: map<string, Canon>)
    decreases pm
  {
    if pm == [] then m else CMergeMembers(CMergeMember(m, pm[0]), pm[1..])
  }

  function Lookup(m: map<string, Canon>, key: string): (c: Option<Canon>) {
    if key in m then Some(m[key]) else None
  }

  function CMergeMember(m: map<string, Canon>, p: Member): (r: map<string, Canon>)
    decreases p
  {
    var key := Fold(p.name);
    if p.value.Null? then m - {key} else m[key := CMerge(Lookup(m, key), p.value)]
  }

  function CanonOption(v: Option<Json>): (c: Option<Canon>) {
    if v.Some? then Some(CanonOf(v.value)) else None
  }

  /** A patch whose names are C strings; names may come twice. */
  predicate Mergeable(patch: Json)
    decreases patch, 0
  {
    if patch.Object? then MergeableMembers(patch.members) else Tidy(patch)
  }

  predicate MergeableMembers(pm: seq<Member>)
    decreases pm
  {
    forall i | 0 <= i < |pm| :: CString(pm[i].name) && Mergeable(pm[i].value)
  }

  lemma {:induction false} TidyMergeable(patch: Json)
    requires Tidy(patch)
    ensures Mergeable(patch)
    decreases patch
  {
    if patch.Object? {
      ObjectTidy(patch.members);
      forall i | 0 <= i < |patch.members|
        ensures Mergeable(patch.members[i].value)
      {
        TidyMergeable(patch.members[i].value);
      }
    }
  }

  /** Merging does to the canonical form what it means. */
  lemma {:induction false} MergeIsCMerge(target: Option<Json>, patch: Json)
    requires (target.Some? ==> Tidy(target.value)) && Mergeable(patch)
    ensures CanonOf(Merge(target, patch)) == CMerge(CanonOption(target), patch) && Tidy(Merge(target, patch))
    decreases patch, 0
  {
    if patch.Object? {
      var members := if target.Some? && target.value.Object? then target.value.members else [];
      if members != [] {
        ObjectTidy(members);
      }
      MergeMembersWork(members, patch.members);
      ObjectTidy(MergeMembers(members, patch.members));
    }
  }

  lemma {:induction false} MergeMembersWork(target: seq<Member>, pm: seq<Member>)
    requires TidyMembers(target) && MergeableMembers(pm)
    ensures TidyMembers(MergeMembers(target, pm))
    ensures CanonMembers(MergeMembers(target, pm)) == CMergeMembers(CanonMembers(target), pm)
    decreases pm
  {
    hide Mergeable;
    if pm != [] {
      MergeMemberWorks(target, pm[0]);
      MergeMembersWork(MergeMember(target, pm[0]), pm[1..]);
    }
  }

  lemma {:induction false} MergeMemberWorks(target: seq<Member>, p: Member)
    requires TidyMembers(target) && CString(p.name) && Mergeable(p.value)
    ensures TidyMembers(MergeMember(target, p))
    ensures CanonMembers(MergeMember(target, p)) == CMergeMember(CanonMembers(target), p)
    decreases p
  {
    var name, v, k := p.name, p.value, ItemIndex(target, p.name);
    var key, m, rest := Fold(name), CanonMembers(target), Without(target, k);
    ItemIndexOf(target, name);
    if k < |target| {
      WithoutMember(target, k);
      CanonLookup(target, k);
    }
    assert CanonMembers(rest) == m - {key};
    if !v.Null? {
      var replaceme := if k < |target| then Some(target[k].value) else None;
      MergeIsCMerge(replaceme, v);
      WithMember(rest, name, Merge(replaceme, v));
      assert (m - {key})[key := CMerge(Lookup(m, key), v)] == m[key := CMerge(Lookup(m, key), v)];
    }
  }

  /** The members of a merged object, name by name. */
  lemma {:induction false} MergedElsewhere(m: map<string, Canon>, pm: seq<Member>, key: string)
    requires forall i | 0 <= i < |pm| :: Fold(pm[i].name) != key
    ensures Lookup(CMergeMembers(m, pm), key) == Lookup(m, key)
    decreases |pm|
  {
    if pm != [] {
      MergedElsewhere(CMergeMember(m, pm[0]), pm[1..], key);
    }
  }

  /** Merging a single value. */
  function CMergeValue(c: Option<Canon>, v: Json): (r: Option<Canon>) {
    if v.Null? then None else Some(CMerge(c, v))
  }

  // Idempotence

  predicate Lacks(members: seq<Member>, key: string) {
    forall i | 0 <= i < |members| :: Fold(members[i].name) != key
  }

  /** The patch has nothing to say about these members. */
  predicate Clear(members: seq<Member>, pm: seq<Member>) {
    && (forall i | 0 <= i < |members| :: CString(members[i].name))
    && (forall k | 0 <= k < |pm| :: Lacks(members, Fold(pm[k].name)))
  }

  /** Members that the patch has been merged into, in the order of the patch: merging it again leaves each as it is. */
  predicate Settled(s: seq<Member>, pm: seq<Member>)
    decreases |pm|
  {
    if pm == [] then s == []
    else if pm[0].value.Null? then Settled(s, pm[1..])
    else
      && s != []
      && s[0].name == pm[0].name
      && Merge(Some(s[0].value), pm[0].value) == s[0].value
      && Settled(s[1..], pm[1..])
  }

  lemma {:induction false} SettledLacks(s: seq<Member>, pm: seq<Member>, key: string)
    requires Settled(s, pm) && Lacks(pm, key)
    requires forall i | 0 <= i < |pm| :: CString(pm[i].name)
    ensures Lacks(s, key) && forall i | 0 <= i < |s| :: CString(s[i].name)
    decreases |pm|
  {
    hide Merge;
    if pm != [] {
      SettledLacks(if pm[0].value.Null? then s else s[1..], pm[1..], key);
    }
  }

  /** A name is found where it stands. */
  lemma {:induction false} FoundAt(members: seq<Member>, name: string, k: nat)
    requires CString(name) && forall i | 0 <= i < |members| :: CString(members[i].name)
    requires k <= |members| && Lacks(members[..k], Fold(name))
    requires k < |members| ==> Fold(members[k].name) == Fold(name)
    ensures ItemIndex(members, name) == k
    decreases k
  {
    if members != [] {
      CaseOrderTotal(members[0].name, name);
      if k > 0 {
        assert members[..k][0] == members[0] && members[1..][..k - 1] == members[..k][1..];
        FoundAt(members[1..], name, k - 1);
      }
    }
  }

  lemma {:induction false} TidyText(members: seq<Member>, name: string)
    requires TidyMembers(members) && CString(name)
    ensures forall i | 0 <= i < |members| :: CString(members[i].name)
    ensures var k := ItemIndex(members, name);
            && k <= |members| && Lacks(Without(members, k), Fold(name)) && Lacks(members[..k], Fold(name))
            && (k < |members| ==> Fold(members[k].name) == Fold(name))
            && TidyMembers(Without(members, k)) && forall m | m in Without(members, k) :: m in members
  {
    hide ItemIndex, CanonMembers, Fold;
    var k := ItemIndex(members, name);
    ItemIndexOf(members, name);
    if k < |members| {
      WithoutTidy(members, k);
    } else {
      CanonKeys(members, Fold(name));
    }
  }

  /** A member of the patch, and members it is not about behind those it may be about. */
  lemma {:induction false} FirstItem(r0: seq<Member>, s0: seq<Member>, p: Member)
    requires TidyMembers(r0) && CString(p.name) && Lacks(s0, Fold(p.name))
    requires forall i | 0 <= i < |s0| :: CString(s0[i].name)
    ensures MergeMember(r0 + s0, p) ==
            Without(r0, ItemIndex(r0, p.name)) + s0
            + if p.value.Null? then [] else [Member(p.name, Merge(GetItem(Object(r0), p.name), p.value))]
  {
    hide TidyMembers, Fold, Merge, ItemIndex, Lacks;
    TidyText(r0, p.name);
    var k := ItemIndex(r0, p.name);
    FoundInFront(r0, s0, p.name, k);
    WithoutFront(r0, s0, k);
  }

  lemma {:induction false} FoundInFront(r0: seq<Member>, s0: seq<Member>, name: string, k: nat)
    requires CString(name) && forall i | 0 <= i < |r0 + s0| :: CString((r0 + s0)[i].name)
    requires k <= |r0| && Lacks(r0[..k], Fold(name)) && Lacks(s0, Fold(name))
    requires k < |r0| ==> Fold(r0[k].name) == Fold(name)
    ensures ItemIndex(r0 + s0, name) == if k < |r0| then k else |r0| + |s0|
  {
    var t := r0 + s0;
    var n := if k < |r0| then k else |t|;
    assert forall i | 0 <= i < n :: t[..n][i] == if i < |r0| then r0[..k][i] else s0[i - |r0|];
    FoundAt(t, name, n);
  }

  lemma {:induction false} WithoutFront(r0: seq<Member>, s0: seq<Member>, k: nat)
    requires k <= |r0|
    ensures Without(r0 + s0, if k < |r0| then k else |r0| + |s0|) == Without(r0, k) + s0
    ensures k < |r0| ==> (r0 + s0)[k] == r0[k]
    ensures Without(r0, k) + s0 + [] == Without(r0, k) + s0
  {
  }

  lemma {:induction false} PatchHead(pm: seq<Member>)
    requires TidyMembers(pm) && pm != []
    ensures TidyMembers(pm[1..]) && CString(pm[0].name) && Tidy(pm[0].value) && Lacks(pm[1..], Fold(pm[0].name))
  {
  }

  lemma {:induction false} ClearStep(s: seq<Member>, m: Member, pm: seq<Member>)
    requires Clear(s, pm) && pm != [] && CString(m.name) && Lacks(pm[1..], Fold(m.name))
    ensures Clear(s, pm[1..]) && Clear(s + [m], pm[1..]) && Lacks(s, Fold(pm[0].name))
    ensures forall i | 0 <= i < |s| :: CString(s[i].name)
  {
    hide Fold;
  }

  lemma {:induction false} ClearCons(r: seq<Member>, r1: seq<Member>, pm: seq<Member>)
    requires pm != [] && Clear(r, pm[1..]) && Lacks(r1, Fold(pm[0].name)) && forall m | m in r :: m in r1
    ensures Clear(r, pm)
  {
    hide Fold;
    forall i | 0 <= i < |r|
      ensures Fold(r[i].name) != Fold(pm[0].name)
    {
      assert r[i] in r1;
    }
    forall k | 0 <= k < |pm|
      ensures Lacks(r, Fold(pm[k].name))
    {
      if k > 0 {
        assert pm[k] == pm[1..][k - 1];
      }
    }
  }

  /** Merging moves what the patch is about behind what it is not about. */
  lemma {:induction false} FirstMerge(r0: seq<Member>, s0: seq<Member>, pm: seq<Member>)
    returns (r: seq<Member>, s: seq<Member>)
    requires TidyMembers(r0) && TidyMembers(pm) && Clear(s0, pm)
    ensures MergeMembers(r0 + s0, pm) == r + s0 + s
    ensures Clear(r, pm) && Settled(s, pm) && forall m | m in r :: m in r0
    decreases pm, 1
  {
    if pm == [] {
      r, s := r0, [];
      TidyText(r0, "");
      assert r0 + s0 + [] == r0 + s0;
    } else {
      r, s := FirstStep(r0, s0, pm);
    }
  }

  lemma {:induction false} FirstStep(r0: seq<Member>, s0: seq<Member>, pm: seq<Member>)
    returns (r: seq<Member>, s: seq<Member>)
    requires TidyMembers(r0) && TidyMembers(pm) && Clear(s0, pm) && pm != []
    ensures MergeMembers(r0 + s0, pm) == r + s0 + s
    ensures Clear(r, pm) && Settled(s, pm) && forall m | m in r :: m in r0
    decreases pm, 0
  {
    hide Merge, MergeMember, ItemIndex, Tidy, TidyMembers, Clear, Lacks, Without, GetItem, Fold;
    var p := pm[0];
    var r1 := Without(r0, ItemIndex(r0, p.name));
    PatchHead(pm);
    ClearStep(s0, p, pm);
    TidyText(r0, p.name);
    FirstItem(r0, s0, p);
    if p.value.Null? {
      assert r1 + s0 + [] == r1 + s0;
      r, s := FirstMerge(r1, s0, pm[1..]);
    } else {
      var m := Member(p.name, Merge(GetItem(Object(r0), p.name), p.value));
      var s';
      ClearStep(s0, m, pm);
      assert r1 + s0 + [m] == r1 + (s0 + [m]);
      r, s' := FirstMerge(r1, s0 + [m], pm[1..]);
      s := [m] + s';
      assert r + (s0 + [m]) + s' == r + s0 + s;
      GotTidy(r0, p.name);
      MergeIsIdempotent(GetItem(Object(r0), p.name), p.value);
      assert s[0] == m && s[1..] == s';
    }
    ClearCons(r, r1, pm);
  }

  lemma {:induction false} GotTidy(members: seq<Member>, name: string)
    requires TidyMembers(members)
    ensures GetItem(Object(members), name).Some? ==> Tidy(GetItem(Object(members), name).value)
  {
  }

  /** Merging again takes each result from the front and puts it back at the end. */
  lemma {:induction false} SecondMerge(r: seq<Member>, s: seq<Member>, d: seq<Member>, pm: seq<Member>)
    requires TidyMembers(pm) && Clear(r, pm) && Clear(d, pm) && Settled(s, pm)
    ensures MergeMembers(r + s + d, pm) == r + d + s
    decreases |pm|
  {
    if pm == [] {
      assert r + [] + d == r + d + [];
    } else {
      SecondStep(r, s, d, pm);
    }
  }

  lemma {:induction false} SecondStep(r: seq<Member>, s: seq<Member>, d: seq<Member>, pm: seq<Member>)
    requires TidyMembers(pm) && Clear(r, pm) && Clear(d, pm) && Settled(s, pm) && pm != []
    ensures MergeMembers(r + s + d, pm) == r + d + s
    decreases |pm|, 0
  {
    hide Merge, MergeMember, Tidy, TidyMembers, Clear, Lacks, Without, Fold;
    var p, rest := pm[0], pm[1..];
    PatchHead(pm);
    ClearStep(r, p, pm);
    ClearStep(d, p, pm);
    SettledText(s, pm);
    if p.value.Null? {
      SettledLacks(s, rest, Fold(p.name));
      NotThere(r, s, d, p);
      SecondMerge(r, s, d, rest);
    } else {
      ClearStep(d, s[0], pm);
      RotatesOne(r, s, d, p);
      SecondMerge(r, s[1..], d + [s[0]], rest);
      assert r + (d + [s[0]]) + s[1..] == r + d + s;
    }
  }

  lemma {:induction false} SettledText(s: seq<Member>, pm: seq<Member>)
    requires TidyMembers(pm) && Settled(s, pm)
    ensures forall i | 0 <= i < |pm| :: CString(pm[i].name)
    ensures forall i | 0 <= i < |s| :: CString(s[i].name)
    decreases |pm|
  {
    hide Merge, Tidy, TidyMembers;
    if pm != [] {
      PatchHead(pm);
      SettledText(if pm[0].value.Null? then s else s[1..], pm[1..]);
    }
  }

  lemma {:induction false} NotThere(r: seq<Member>, s: seq<Member>, d: seq<Member>, p: Member)
    requires CString(p.name) && p.value.Null?
    requires Lacks(r, Fold(p.name)) && Lacks(s, Fold(p.name)) && Lacks(d, Fold(p.name))
    requires forall i | 0 <= i < |r| :: CString(r[i].name)
    requires forall i | 0 <= i < |s| :: CString(s[i].name)
    requires forall i | 0 <= i < |d| :: CString(d[i].name)
    ensures MergeMember(r + s + d, p) == r + s + d
  {
    hide Fold;
    var t := r + s + d;
    assert t[..|t|] == t;
    FoundAt(t, p.name, |t|);
  }

  lemma {:induction false} RotatesOne(r: seq<Member>, s: seq<Member>, d: seq<Member>, p: Member)
    requires CString(p.name) && !p.value.Null? && s != [] && s[0].name == p.name
    requires Merge(Some(s[0].value), p.value) == s[0].value && Lacks(r, Fold(p.name))
    requires forall i | 0 <= i < |r| :: CString(r[i].name)
    requires forall i | 0 <= i < |s| :: CString(s[i].name)
    requires forall i | 0 <= i < |d| :: CString(d[i].name)
    ensures MergeMember(r + s + d, p) == r + s[1..] + (d + [s[0]])
  {
    hide Fold, Merge;
    var t := r + s + d;
    assert t[..|r|] == r && t[|r|] == s[0];
    FoundAt(t, p.name, |r|);
    assert Without(t, |r|) == r + s[1..] + d;
    assert (r + s[1..] + d) + [s[0]] == r + s[1..] + (d + [s[0]]);
  }

  /**
   Merging the same patch again changes nothing at all, for trees and patches
   whose sibling names are C strings that differ ignoring case.
   */
  lemma {:induction false} MergeIsIdempotent(target: Option<Json>, patch: Json)
    requires (target.Some? ==> Tidy(target.value)) && Tidy(patch)
    ensures Merge(Some(Merge(target, patch)), patch) == Merge(target, patch)
    decreases patch, 3
  {
    hide MergeMembers, Tidy, TidyMembers;
    if patch.Object? {
      var members := if target.Some? && target.value.Object? then target.value.members else [];
      TargetTidy(target, members);
      ObjectTidy(patch.members);
      MembersMergeTwice(members, patch.members);
    }
  }

  lemma {:induction false} MembersMergeTwice(members: seq<Member>, pm: seq<Member>)
    requires TidyMembers(members) && TidyMembers(pm)
    ensures MergeMembers(MergeMembers(members, pm), pm) == MergeMembers(members, pm)
    decreases pm, 2
  {
    hide MergeMembers, TidyMembers, Settled, Clear;
    NothingClear(pm);
    var r, s := FirstMerge(members, [], pm);
    SecondMerge(r, s, [], pm);
    assert members + [] == members && r + [] + s == r + s && r + s + [] == r + s;
  }

  lemma {:induction false} TargetTidy(target: Option<Json>, members: seq<Member>)
    requires target.Some? ==> Tidy(target.value)
    requires members == if target.Some? && target.value.Object? then target.value.members else []
    ensures TidyMembers(members)
  {
  }

  lemma {:induction false} NothingClear(pm: seq<Member>)
    ensures Clear([], pm)
  {
  }

  /** With two members of one name, merging again may change the tree. */
  lemma {:induction false} DuplicatesMergeOn()
    ensures var target, patch := Object([Member("a", True), Member("a", False)]), Object([Member("a", String("x"))]);
            var once := Merge(Some(target), patch);
            Merge(Some(once), patch) != once
  {
    var x := Member("a", String("x"));
    var f := Member("a", False);
    var t := [Member("a", True), f];
    assert [x][1..] == [] && Strcasecmp("a", "a") == 0;
    assert MergeMember(t, x) == [f, x] && MergeMember([f, x], x) == [x, x];
    assert MergeMembers(t, [x]) == [f, x] && MergeMembers([f, x], [x]) == [x, x];
  }
}
