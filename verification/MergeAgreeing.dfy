/**
 Merge patches between trees on whose names strcmp and the order that ignores
 case agree, as they do on lower-case names: there the walk misses no name.
 */
module MergeAgreeing {
  import opened CText
  import opened CaseOrder
  import opened Json
  import opened Pointers
  import opened Canon
  import opened Edits
  import opened PatchLaws
  import opened MergePatches
  import opened MergeLaws
  import opened MergeInverse

  predicate SameSide(x: string, y: string) {
    && (Strcmp(x, y) < 0 <==> Strcasecmp(x, y) < 0)
    && (Strcmp(x, y) > 0 <==> Strcasecmp(x, y) > 0)
  }

  /** In all objects that are compared, strcmp orders the names as the comparison that ignores case does. */
  predicate Agreeing(from: Json, goal: Json)
    decreases goal
  {
    from.Object? && goal.Object? ==> AgreeingMembers(from.members, goal.members)
  }

  predicate AgreeingMembers(a: seq<Member>, b: seq<Member>)
    decreases b
  {
    forall i, j | 0 <= i < |a| && 0 <= j < |b| ::
      SameSide(a[i].name, b[j].name) && (Fold(a[i].name) == Fold(b[j].name) ==> Agreeing(a[i].value, b[j].value))
  }

  /** Lower-case names agree. */
  lemma {:induction false} LowerAgrees(from: Json, goal: Json)
    requires Lower(from) && Lower(goal)
    ensures Agreeing(from, goal)
    decreases goal
  {
    if from.Object? && goal.Object? {
      forall i, j | 0 <= i < |from.members| && 0 <= j < |goal.members|
        ensures SameSide(from.members[i].name, goal.members[j].name)
        ensures Agreeing(from.members[i].value, goal.members[j].value)
      {
        LowerCaseAgrees(from.members[i].name, goal.members[j].name);
        LowerAgrees(from.members[i].value, goal.members[j].value);
      }
    }
  }

  lemma {:induction false} AgreeingPermuted(s: seq<Member>, t: seq<Member>, a: seq<Member>, b: seq<Member>)
    requires AgreeingMembers(s, t) && multiset(s) == multiset(a) && multiset(t) == multiset(b)
    ensures AgreeingMembers(a, b)
  {
    forall i, j | 0 <= i < |a| && 0 <= j < |b|
      ensures SameSide(a[i].name, b[j].name)
      ensures Fold(a[i].name) == Fold(b[j].name) ==> Agreeing(a[i].value, b[j].value)
    {
      CaseSort.MemberOf(a, s, i);
      CaseSort.MemberOf(b, t, j);
      var k :| 0 <= k < |s| && s[k] == a[i];
      var l :| 0 <= l < |t| && t[l] == b[j];
      assert SameSide(s[k].name, t[l].name);
    }
  }

  /** On agreeing names the walk takes sides as the order that ignores case does. */
  lemma {:induction false} AgreeingSide(a: seq<Member>, b: seq<Member>)
    requires Orderly(a) && Orderly(b) && (a != [] || b != []) && AgreeingMembers(a, b)
    ensures Side(a, b) < 0 ==> a != [] && Fold(a[0].name) !in CanonMembers(b)
    ensures Side(a, b) > 0 ==> b != [] && Fold(b[0].name) !in CanonMembers(a)
  {
    if a != [] && b != [] {
      assert SameSide(a[0].name, b[0].name);
      CaseOrderTotal(a[0].name, b[0].name);
      if Side(a, b) < 0 { BelowAbsent(a[0].name, b); }
      if Side(a, b) > 0 { BelowAbsent(b[0].name, a); }
    }
  }

  lemma {:induction false} AgreeingTails(a: seq<Member>, b: seq<Member>)
    requires AgreeingMembers(a, b)
    ensures a != [] ==> AgreeingMembers(a[1..], b)
    ensures b != [] ==> AgreeingMembers(a, b[1..])
    ensures a != [] && b != [] ==> AgreeingMembers(a[1..], b[1..])
  {
  }

  /** On agreeing names the walk finds what both objects have. */
  lemma {:induction false} AgreeingMeet(a: seq<Member>, b: seq<Member>, key: string)
    requires Orderly(a) && Orderly(b) && AgreeingMembers(a, b) && key in CanonMembers(a) && key in CanonMembers(b)
    ensures Meet(a, b, key) == Together
    decreases |a| + |b|
  {
    hide AgreeingMembers, Orderly;
    if a != [] && b != [] {
      AgreeingSide(a, b);
      AgreeingTails(a, b);
      TailOrderly(a);
      TailOrderly(b);
      if Side(a, b) < 0 {
        AgreeingMeet(a[1..], b, key);
      } else if Side(a, b) > 0 {
        AgreeingMeet(a, b[1..], key);
      } else if Fold(a[0].name) != key {
        SideZero(a, b);
        AgreeingMeet(a[1..], b[1..], key);
      }
    }
  }

  /** Every null member of the wanted tree stands in a value that the first tree has equal. */
  predicate NullsAgree(from: Json, goal: Json)
    decreases goal, 1
  {
    if from.Object? && goal.Object? then
      forall j | 0 <= j < |goal.members| ::
        NullsAgreeMember(from.members, Fold(goal.members[j].name), goal.members[j].value)
    else NoNulls(goal)
  }

  predicate NullsAgreeMember(a: seq<Member>, key: string, v: Json)
    decreases v, 2
  {
    var k := Partner(a, key);
    if k >= |a| then !v.Null? && NoNulls(v)
    else CanonOf(a[k].value) == CanonOf(v) || (!v.Null? && NullsAgree(a[k].value, v))
  }

  /** On agreeing names only null members can be missed. */
  lemma {:induction false} AgreeingReaches(from: Json, goal: Json)
    requires Tidy(from) && Tidy(goal) && Agreeing(from, goal)
    ensures Reaches(from, goal) <==> NullsAgree(from, goal)
    decreases goal
  {
    if from.Object? && goal.Object? {
      forall j | 0 <= j < |goal.members|
        ensures ReachesMember(SortedMembers(from.members), SortedMembers(goal.members), Fold(goal.members[j].name),
                              goal.members[j].value) <==>
                NullsAgreeMember(from.members, Fold(goal.members[j].name), goal.members[j].value)
      {
        AgreeingMember(from, goal, j);
      }
    }
  }

  lemma {:induction false} AgreeingMember(from: Json, goal: Json, j: nat)
    requires from.Object? && goal.Object? && Tidy(from) && Tidy(goal) && Agreeing(from, goal) && j < |goal.members|
    ensures ReachesMember(SortedMembers(from.members), SortedMembers(goal.members), Fold(goal.members[j].name),
                          goal.members[j].value) <==>
            NullsAgreeMember(from.members, Fold(goal.members[j].name), goal.members[j].value)
    decreases goal, 0
  {
    hide Tidy, Orderly, SortedMembers, CanonMembers, NoNulls, AgreeingMembers;
    var a, b, m := SortedMembers(from.members), SortedMembers(goal.members), goal.members[j];
    var key := Fold(m.name);
    SortedOrderly(from);
    SortedOrderly(goal);
    ObjectTidy(from.members);
    ObjectTidy(goal.members);
    OrderlyUnlike(a);
    PartnerPermuted(a, from.members, key);
    AgreeingPermuted(from.members, goal.members, a, b);
    PartnerAbsent(a, key);
    CanonLookup(goal.members, j);
    var k := Partner(from.members, key);
    if k < |from.members| {
      AgreeingMeet(a, b, key);
      PairAgrees(from.members, goal.members, k, j);
      AgreeingReaches(from.members[k].value, m.value);
    }
  }

  lemma {:induction false} OrderlyUnlike(a: seq<Member>)
    requires Orderly(a)
    ensures Unlike(a)
  {
  }

  lemma {:induction false} PairAgrees(a: seq<Member>, b: seq<Member>, k: nat, j: nat)
    requires AgreeingMembers(a, b) && TidyMembers(a) && TidyMembers(b) && k < |a| && j < |b|
    requires Fold(a[k].name) == Fold(b[j].name)
    ensures Agreeing(a[k].value, b[j].value) && Tidy(a[k].value) && Tidy(b[j].value)
  {
  }

  /** Sorting does not change which counterpart a name has. */
  lemma {:induction false} PartnerPermuted(a: seq<Member>, a': seq<Member>, key: string)
    requires Unlike(a) && Unlike(a') && multiset(a) == multiset(a')
    ensures Partner(a, key) < |a| <==> Partner(a', key) < |a'|
    ensures Partner(a, key) < |a| ==> a[Partner(a, key)] == a'[Partner(a', key)]
  {
    var k, l := Partner(a, key), Partner(a', key);
    if k < |a| {
      CaseSort.MemberOf(a, a', k);
      var j :| 0 <= j < |a'| && a'[j] == a[k];
      PartnerUnique(a', key, j);
    }
    if l < |a'| {
      CaseSort.MemberOf(a', a, l);
      var j :| 0 <= j < |a| && a[j] == a'[l];
      PartnerUnique(a, key, j);
    }
  }

  /** On agreeing names, equality up to case and order is equality up to order. */
  lemma {:induction false} AgreeingNames(from: Json, goal: Json)
    requires from.Object? && goal.Object? && Tidy(from) && Tidy(goal)
    requires Agreeing(from, goal) && CanonOf(from) == CanonOf(goal)
    ensures NamesIn(from.members, goal.members)
  {
    hide Tidy;
    var s, t := from.members, goal.members;
    ObjectTidy(s);
    ObjectTidy(t);
    forall i | 0 <= i < |s|
      ensures HasName(t, s[i].name)
    {
      CanonLookup(s, i);
      CanonKeys(t, Fold(s[i].name));
      var j :| 0 <= j < |t| && Fold(t[j].name) == Fold(s[i].name);
      assert SameSide(s[i].name, t[j].name);
      CaseOrderTotal(s[i].name, t[j].name);
      StrcmpZero(s[i].name, t[j].name);
    }
  }

  lemma {:induction false} TidyCons(m: Member, rest: seq<Member>)
    requires CString(m.name) && Tidy(m.value) && TidyMembers(rest) && Fold(m.name) !in CanonMembers(rest)
    ensures TidyMembers([m] + rest)
    ensures CanonMembers([m] + rest).Keys == CanonMembers(rest).Keys + {Fold(m.name)}
  {
    var ms := [m] + rest;
    assert ms[1..] == rest;
    forall i | 0 <= i < |rest|
      ensures Fold(rest[i].name) != Fold(m.name)
    {
      CanonKeys(rest, Fold(m.name));
    }
  }

  /** A patch generated between trees with agreeing names is tidy. */
  lemma {:induction false} GeneratedTidy(from: Json, goal: Json)
    requires Tidy(from) && Tidy(goal) && Agreeing(from, goal)
    ensures Generate(from, goal).Some? ==> Tidy(Generate(from, goal).value)
    decreases goal, 1, 0
  {
    if from.Object? && goal.Object? {
      ObjectsTidy(from, goal);
    }
  }

  lemma {:induction false} ObjectsTidy(from: Json, goal: Json)
    requires Tidy(from) && Tidy(goal) && Agreeing(from, goal) && from.Object? && goal.Object?
    ensures Generate(from, goal).Some? ==> Tidy(Generate(from, goal).value)
    decreases goal, 0, |from.members| + |goal.members| + 1
  {
    hide GenerateMembers, Tidy, TidyMembers, Orderly, From, SortedMembers, CanonMembers, AgreeingMembers;
    SortedOrderly(from);
    SortedOrderly(goal);
    SortedFrom(goal);
    AgreeingPermuted(from.members, goal.members, SortedMembers(from.members), SortedMembers(goal.members));
    MembersTidy(goal, SortedMembers(from.members), SortedMembers(goal.members));
    ObjectTidy(GenerateMembers(goal, SortedMembers(from.members), SortedMembers(goal.members)));
  }

  lemma {:induction false} MembersTidy(goal: Json, a: seq<Member>, b: seq<Member>)
    requires From(goal, b) && Orderly(a) && Orderly(b) && AgreeingMembers(a, b)
    ensures TidyMembers(GenerateMembers(goal, a, b))
    ensures CanonMembers(GenerateMembers(goal, a, b)).Keys <= CanonMembers(a).Keys + CanonMembers(b).Keys
    decreases goal, 0, |a| + |b|
  {
    hide Tidy, TidyMembers, AgreeingMembers;
    if a == [] && b == [] {
    } else {
      AgreeingSide(a, b);
      AgreeingTails(a, b);
      if Side(a, b) < 0 {
        OrderlyTail(a);
        MembersTidy(goal, a[1..], b);
        NullTidy();
        TidyCons(Member(a[0].name, Null), GenerateMembers(goal, a[1..], b));
      } else {
        OrderlyTail(b);
        if Side(a, b) > 0 {
          MembersTidy(goal, a, b[1..]);
          TidyCons(b[0], GenerateMembers(goal, a, b[1..]));
        } else {
          PairTidy(goal, a, b);
        }
      }
    }
  }

  lemma {:induction false} NullTidy()
    ensures Tidy(Null)
  {
  }

  lemma {:induction false} PairTidy(goal: Json, a: seq<Member>, b: seq<Member>)
    requires From(goal, b) && Orderly(a) && Orderly(b) && AgreeingMembers(a, b)
    requires (a != [] || b != []) && Side(a, b) == 0
    ensures TidyMembers(GenerateMembers(goal, a, b))
    ensures CanonMembers(GenerateMembers(goal, a, b)).Keys <= CanonMembers(a).Keys + CanonMembers(b).Keys
    decreases goal, 0, |a| + |b|, 0
  {
    hide Tidy, TidyMembers;
    SideZero(a, b);
    OrderlyTail(a);
    OrderlyTail(b);
    var rest := GenerateMembers(goal, a[1..], b[1..]);
    MembersTidy(goal, a[1..], b[1..]);
    assert [] + rest == rest;
    if ChangedMember(goal, a, b) != [] {
      assert Agreeing(a[0].value, b[0].value);
      GeneratedTidy(a[0].value, b[0].value);
      TidyCons(ChangedMember(goal, a, b)[0], rest);
    }
  }

  /** A tree without null members agrees. */
  lemma {:induction false} NoNullsAgree(from: Json, goal: Json)
    requires NoNulls(goal)
    ensures NullsAgree(from, goal)
    decreases goal
  {
    if from.Object? && goal.Object? {
      forall j | 0 <= j < |goal.members|
        ensures NullsAgreeMember(from.members, Fold(goal.members[j].name), goal.members[j].value)
      {
        var k := Partner(from.members, Fold(goal.members[j].name));
        if k < |from.members| {
          NoNullsAgree(from.members[k].value, goal.members[j].value);
        }
      }
    }
  }

  /**
   The same for names on which strcmp and the order that ignores case agree, as
   they do on lower-case names: the second tree is reached exactly if its null
   members, if any, stand in places where the two trees agree.
   */
  lemma {:induction false} MergeUndoesGenerateAgreeing(from: Json, goal: Json, copy: Json)
    requires Tidy(from) && Tidy(goal) && Tidy(copy) && CanonOf(copy) == CanonOf(from) && Agreeing(from, goal)
    ensures Generate(from, goal).None? <==> from.Object? && goal.Object? && CanonOf(from) == CanonOf(goal)
    ensures Generate(from, goal).Some? ==>
              var result := Merge(Some(copy), Generate(from, goal).value);
              && (CanonOf(result) == CanonOf(goal) <==> NullsAgree(from, goal))
              && (NoNulls(goal) ==> CanonOf(result) == CanonOf(goal))
  {
    hide Tidy, Reaches, CMerge, Merge, Generate, NullsAgree, NoNulls, Agreeing, CanonOf;
    MergeUndoesGenerate(from, goal, copy);
    AgreeingReaches(from, goal);
    if from.Object? && goal.Object? && CanonOf(from) == CanonOf(goal) {
      AgreeingNames(from, goal);
    }
    if NoNulls(goal) {
      NoNullsAgree(from, goal);
    }
  }
}
