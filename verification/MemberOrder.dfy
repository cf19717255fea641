/** Names and order: what patches and merge patches do to the member list of an object, member by member. */
module MemberOrder {
  import opened Lists
  import opened CText
  import opened CaseOrder
  import opened Json
  import opened Pointers
  import opened Edits
  import opened Patch
  import opened PatchLaws
  import opened MergePatches
  import opened MergeLaws

  /**
   In a patch, the first member with the name goes, the others keep their order, and
   what is added goes to the end under the name as it is spelled in the path.
   */
  lemma {:induction false} FirstGoes(members: seq<Member>, child: string, v: Json, k: nat)
    requires CString(child) && forall i | 0 <= i < |members| :: CString(members[i].name)
    requires k <= |members| && forall i | 0 <= i < k :: Fold(members[i].name) != Fold(child)
    requires k < |members| ==> Fold(members[k].name) == Fold(child)
    ensures var rest := if k < |members| then members[..k] + members[k + 1..] else members;
            && AddChild(Object(members), child, v) == Object(rest + [Member(child, v)])
            && DetachChild(Object(members), child) ==
                 (Object(rest), if k < |members| then Some(members[k].value) else None)
  {
    FoundAt(members, child, k);
  }

  /** The members that a merge patch does not name. */
  function Untouched(members: seq<Member>, pm: seq<Member>): (r: seq<Member>) {
    if members == [] then []
    else (if Lacks(pm, Fold(members[0].name)) then [members[0]] else []) + Untouched(members[1..], pm)
  }

  /** The members that a merge patch leaves behind, under its own names and in its own order. */
  function Updates(members: seq<Member>, pm: seq<Member>): (r: seq<Member>) {
    if pm == [] then []
    else
      (if pm[0].value.Null? then [] else [Member(pm[0].name, Merge(GetItem(Object(members), pm[0].name), pm[0].value))])
      + Updates(members, pm[1..])
  }

  lemma {:induction false} LacksParts(pm: seq<Member>, key: string)
    requires pm != []
    ensures Lacks(pm, key) <==> Fold(pm[0].name) != key && Lacks(pm[1..], key)
  {
    assert forall i | 0 < i < |pm| :: pm[i] == pm[1..][i - 1];
  }

  lemma {:induction false} UntouchedByHead(members: seq<Member>, pm: seq<Member>)
    requires pm != [] && Lacks(members, Fold(pm[0].name))
    ensures Untouched(members, pm) == Untouched(members, pm[1..])
    decreases |members|
  {
    hide Fold;
    if members != [] {
      UntouchedByHead(members[1..], pm);
      LacksParts(pm, Fold(members[0].name));
    }
  }

  lemma {:induction false} UntouchedWithout(members: seq<Member>, pm: seq<Member>, k: nat)
    requires pm != [] && k < |members| && Fold(members[k].name) == Fold(pm[0].name)
    ensures Untouched(Without(members, k), pm) == Untouched(members, pm)
    decreases k
  {
    hide Fold;
    if k == 0 {
      assert Without(members, k) == members[1..];
    } else {
      UntouchedWithout(members[1..], pm, k - 1);
      assert Without(members, k)[0] == members[0] && Without(members, k)[1..] == Without(members[1..], k - 1);
    }
  }

  /** Taking a member out does not change what other names find. */
  lemma {:induction false} OthersFound(members: seq<Member>, name: string, k: nat)
    requires CString(name) && forall i | 0 <= i < |members| :: CString(members[i].name)
    requires k < |members| && Fold(members[k].name) != Fold(name)
    ensures GetItem(Object(Without(members, k)), name) == GetItem(Object(members), name)
    decreases k
  {
    hide Fold, Strcasecmp, GetItem, Without;
    var first, rest := members[0], members[1..];
    CaseOrderTotal(first.name, name);
    assert members == [first] + rest;
    GetItemCons(first, rest, name);
    WithoutCons(first, rest, k);
    if k > 0 {
      OthersFound(rest, name, k - 1);
      GetItemCons(first, Without(rest, k - 1), name);
    }
  }

  lemma {:induction false} WithoutCons(first: Member, rest: seq<Member>, k: nat)
    requires k <= |rest|
    ensures Without([first] + rest, k) == if k == 0 then rest else [first] + Without(rest, k - 1)
  {
  }

  lemma {:induction false} UpdatesWithout(members: seq<Member>, pm: seq<Member>, k: nat)
    requires TidyMembers(pm) && forall i | 0 <= i < |members| :: CString(members[i].name)
    requires k < |members| && Lacks(pm, Fold(members[k].name))
    ensures Updates(Without(members, k), pm) == Updates(members, pm)
    decreases |pm|
  {
    hide Fold, Merge, GetItem;
    if pm != [] {
      PatchHead(pm);
      OthersFound(members, pm[0].name, k);
      LacksParts(pm, Fold(members[k].name));
      UpdatesWithout(members, pm[1..], k);
    }
  }

  /** What merging has put behind the members of the target so far stays there. */
  lemma {:induction false} MembersMergeInOrder(r0: seq<Member>, s0: seq<Member>, pm: seq<Member>)
    requires TidyMembers(r0) && TidyMembers(pm) && Clear(s0, pm)
    ensures MergeMembers(r0 + s0, pm) == Untouched(r0, pm) + s0 + Updates(r0, pm)
    decreases |pm|
  {
    if pm == [] {
      AllUntouched(r0);
      assert r0 + s0 + [] == r0 + s0;
    } else {
      HeadMerges(r0, s0, pm);
    }
  }

  lemma {:induction false} AllUntouched(r0: seq<Member>)
    ensures Untouched(r0, []) == r0
    decreases |r0|
  {
    if r0 != [] {
      AllUntouched(r0[1..]);
    }
  }

  lemma {:induction false} HeadMerges(r0: seq<Member>, s0: seq<Member>, pm: seq<Member>)
    requires TidyMembers(r0) && TidyMembers(pm) && Clear(s0, pm) && pm != []
    ensures MergeMembers(r0 + s0, pm) == Untouched(r0, pm) + s0 + Updates(r0, pm)
    decreases |pm|, 0
  {
    hide Merge, MergeMember, ItemIndex, Tidy, TidyMembers, Clear, Lacks, Without, GetItem, Fold, Untouched, Updates;
    var p := pm[0];
    var r1 := Without(r0, ItemIndex(r0, p.name));
    var u, w := Untouched(r0, pm), Updates(r0, pm[1..]);
    UpdatesHead(r0, pm);
    PatchHead(pm);
    ClearStep(s0, p, pm);
    TidyText(r0, p.name);
    FirstItem(r0, s0, p);
    HeadGone(r0, pm);
    if p.value.Null? {
      assert r1 + s0 + [] == r1 + s0;
      MembersMergeInOrder(r1, s0, pm[1..]);
    } else {
      var m := Member(p.name, Merge(GetItem(Object(r0), p.name), p.value));
      ClearStep(s0, m, pm);
      assert r1 + s0 + [m] == r1 + (s0 + [m]);
      MembersMergeInOrder(r1, s0 + [m], pm[1..]);
      assert u + (s0 + [m]) + w == u + s0 + ([m] + w);
    }
  }

  lemma {:induction false} UpdatesHead(r0: seq<Member>, pm: seq<Member>)
    requires pm != []
    ensures Updates(r0, pm) == if pm[0].value.Null? then Updates(r0, pm[1..])
                               else [Member(pm[0].name, Merge(GetItem(Object(r0), pm[0].name), pm[0].value))]
                                    + Updates(r0, pm[1..])
  {
  }

  lemma {:induction false} HeadGone(r0: seq<Member>, pm: seq<Member>)
    requires TidyMembers(r0) && TidyMembers(pm) && pm != []
    ensures var r1 := Without(r0, ItemIndex(r0, pm[0].name));
            Untouched(r1, pm[1..]) == Untouched(r0, pm) && Updates(r1, pm[1..]) == Updates(r0, pm[1..])
  {
    hide Merge, ItemIndex, Tidy, TidyMembers, Lacks, GetItem, Fold, Untouched, Updates;
    var k := ItemIndex(r0, pm[0].name);
    PatchHead(pm);
    TidyText(r0, pm[0].name);
    UntouchedByHead(Without(r0, k), pm);
    if k < |r0| {
      UntouchedWithout(r0, pm, k);
      UpdatesWithout(r0, pm[1..], k);
    }
  }

  /**
   Merging keeps the members that the patch does not name, as they are and in their
   order; behind them go those that the patch sets, with its names and in its order.
   */
  lemma {:induction false} MergeKeepsOrder(members: seq<Member>, pm: seq<Member>)
    requires Tidy(Object(members)) && Tidy(Object(pm))
    ensures Merge(Some(Object(members)), Object(pm)) == Object(Untouched(members, pm) + Updates(members, pm))
  {
    ObjectTidy(members);
    ObjectTidy(pm);
    MembersMergeInOrder(members, [], pm);
    assert members + [] == members && Untouched(members, pm) + [] == Untouched(members, pm);
  }
}
