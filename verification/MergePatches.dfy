/** JSON Merge Patch in cJSON_Utils.c: merging a patch and generating one. */
module MergePatches {
  import opened Lists
  import opened CaseOrder
  import opened Json
  import opened Pointers
  import opened Edits
  import opened Comparison
  import opened Patch

  // Merging

  /** cJSONUtils_MergePatch; the target may be missing. */
  function Merge(target: Option<Json>, patch: Json): (r: Json)
    decreases patch, 0
  {
    if !patch.Object? then patch
    else Object(MergeMembers(if target.Some? && target.value.Object? then target.value.members else [], patch.members))
  }

  /** The loop over the members of the patch. */
  function MergeMembers(target: seq<Member>, pm: seq<Member>): (r: seq<Member>)
    decreases pm
  {
    if pm == [] then target else MergeMembers(MergeMember(target, pm[0]), pm[1..])
  }

  /** What a member of the patch does to the members of the target. */
  function MergeMember(target: seq<Member>, m: Member): (r: seq<Member>)
    decreases m
  {
    var k := ItemIndex(target, m.name);
    if m.value.Null? then Without(target, k)
    else Without(target, k) + [Member(m.name, Merge(if k < |target| then Some(target[k].value) else None, m.value))]
  }

  /** cJSONUtils_MergePatch, with the loop. */
  method MergePatch(target: Option<Json>, patch: Json) returns (r: Json)
    ensures r == Merge(target, patch)
    decreases patch
  {
    if !patch.Object? { return patch; }
    var members := if target.Some? && target.value.Object? then target.value.members else [];
    ghost var whole := MergeMembers(members, patch.members);
    var i := 0;
    while i < |patch.members|
      invariant i <= |patch.members| && MergeMembers(members, patch.members[i..]) == whole
    {
      var m := patch.members[i];
      assert patch.members[i..][1..] == patch.members[i + 1..];
      var k := ItemIndex(members, m.name);
      if m.value.Null? {
        members := Without(members, k);
      } else {
        var replaceme := if k < |members| then Some(members[k].value) else None;
        members := Without(members, k);
        var merged := MergePatch(replaceme, m.value);
        members := members + [Member(m.name, merged)];
      }
      i := i + 1;
    }
    r := Object(members);
  }

  // Generating

  /** cJSONUtils_GenerateMergePatch for two trees that are there; None is a null pointer. */
  function Generate(from: Json, goal: Json): (patch: Option<Json>)
    decreases goal, 1, 0
  {
    if !goal.Object? || !from.Object? then Some(goal)
    else
      SortedFrom(goal);
      var pm := GenerateMembers(goal, SortedMembers(from.members), SortedMembers(goal.members));
      if pm == [] then None else Some(Object(pm))
  }

  /** Which list the walk takes from: below zero the first, above the second, zero both. */
  function Side(a: seq<Member>, b: seq<Member>): (r: int)
    requires a != [] || b != []
  {
    if a == [] then 1 else if b == [] then -1 else Strcmp(a[0].name, b[0].name)
  }

  function GenerateMembers(goal: Json, a: seq<Member>, b: seq<Member>): (pm: seq<Member>)
    requires From(goal, b)
    decreases goal, 0, |a| + |b|
  {
    if a == [] && b == [] then []
    else if Side(a, b) < 0 then [Member(a[0].name, Null)] + GenerateMembers(goal, a[1..], b)
    else
      if Side(a, b) > 0 then [b[0]] + GenerateMembers(goal, a, b[1..])
      else ChangedMember(goal, a, b) + GenerateMembers(goal, a[1..], b[1..])
  }

  /** The entry for a name on both sides, if the values differ. */
  function ChangedMember(goal: Json, a: seq<Member>, b: seq<Member>): (pm: seq<Member>)
    requires From(goal, b) && a != [] && b != []
    decreases goal, 0, 0
  {
    if Compare(a[0].value, b[0].value) == 0 then []
    else
      match Generate(a[0].value, b[0].value)
      case None => []
      case Some(p) => [Member(b[0].name, p)]
  }

  /** cJSONUtils_GenerateMergePatch, with the loop. */
  method GenerateMergePatch(from: Json, goal: Json) returns (patch: Option<Json>)
    ensures patch == Generate(from, goal)
    decreases goal
  {
    hide GenerateMembers, SortedMembers;
    if !goal.Object? || !from.Object? { return Some(goal); }
    SortedFrom(goal);
    var a, b, pm := SortedMembers(from.members), SortedMembers(goal.members), [];
    ghost var whole := GenerateMembers(goal, a, b);
    while a != [] || b != []
      invariant From(goal, b) && pm + GenerateMembers(goal, a, b) == whole
      decreases |a| + |b|
    {
      GenerateStep(goal, a, b, pm);
      var compare := if a != [] then if b != [] then Strcmp(a[0].name, b[0].name) else -1 else 1;
      if compare < 0 {
        pm := pm + [Member(a[0].name, Null)];
        a := a[1..];
      } else if compare > 0 {
        pm := pm + [b[0]];
        b := b[1..];
      } else {
        if Compare(a[0].value, b[0].value) != 0 {
          var nested := GenerateMergePatch(a[0].value, b[0].value);
          if nested.Some? {
            pm := pm + [Member(b[0].name, nested.value)];
          }
        }
        a, b := a[1..], b[1..];
      }
    }
    GenerateEnd(goal, a, b, pm);
    patch := if pm == [] then None else Some(Object(pm));
  }

  lemma {:induction false} GenerateStep(goal: Json, a: seq<Member>, b: seq<Member>, pm: seq<Member>)
    requires From(goal, b) && (a != [] || b != [])
    ensures if Side(a, b) < 0 then
              pm + GenerateMembers(goal, a, b) == (pm + [Member(a[0].name, Null)]) + GenerateMembers(goal, a[1..], b)
            else
              && From(goal, b[1..])
              && if Side(a, b) > 0 then
                   pm + GenerateMembers(goal, a, b) == (pm + [b[0]]) + GenerateMembers(goal, a, b[1..])
                 else
                   && pm + GenerateMembers(goal, a, b) ==
                      (pm + ChangedMember(goal, a, b)) + GenerateMembers(goal, a[1..], b[1..])
                   && (ChangedMember(goal, a, b) == [] ==> pm + ChangedMember(goal, a, b) == pm)
  {
    if Side(a, b) < 0 {
      Reassociate(pm, [Member(a[0].name, Null)], GenerateMembers(goal, a[1..], b));
    } else {
      if Side(a, b) > 0 {
        Reassociate(pm, [b[0]], GenerateMembers(goal, a, b[1..]));
      } else {
        Reassociate(pm, ChangedMember(goal, a, b), GenerateMembers(goal, a[1..], b[1..]));
      }
    }
  }

  lemma {:induction false} Reassociate(a: seq<Member>, b: seq<Member>, c: seq<Member>)
    ensures a + (b + c) == (a + b) + c
  {
  }

  lemma {:induction false} GenerateEnd(goal: Json, a: seq<Member>, b: seq<Member>, pm: seq<Member>)
    requires From(goal, b) && a == [] && b == []
    ensures pm + GenerateMembers(goal, a, b) == pm
  {
  }
}
