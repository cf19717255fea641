/** What merging a generated merge patch gives, for all trees with tidy names, and when that is the wanted tree. */
module MergeInverse {
  import opened Lists
  import opened CText
  import opened CaseOrder
  import opened Json
  import opened Pointers
  import opened Canon
  import opened Edits
  import opened Comparison
  import opened Patch
  import opened PatchLaws
  import opened MergePatches
  import opened MergeLaws

  /** Members in the order of their names, ignoring case. */
  predicate Orderly(a: seq<Member>) {
    TidyMembers(a) && Strict(a)
  }

  lemma {:induction false} OrderlyTail(a: seq<Member>)
    requires Orderly(a) && a != []
    ensures Orderly(a[1..]) && Fold(a[0].name) !in CanonMembers(a[1..])
    ensures CString(a[0].name) && Tidy(a[0].value)
  {
    TidyTail(a);
  }

  lemma {:induction false} SortedOrderly(v: Json)
    requires v.Object? && Tidy(v)
    ensures Orderly(SortedMembers(v.members)) && CanonMembers(SortedMembers(v.members)) == CanonMembers(v.members)
    ensures multiset(SortedMembers(v.members)) == multiset(v.members)
    ensures Unlike(v.members) && |SortedMembers(v.members)| == |v.members|
  {
    ObjectTidy(v.members);
    SortedStrict(v.members);
    SortedLength(v.members);
  }

  /** Both lists have this name first. */
  lemma {:induction false} SideZero(a: seq<Member>, b: seq<Member>)
    requires Orderly(a) && Orderly(b) && (a != [] || b != []) && Side(a, b) == 0
    ensures a != [] && b != [] && a[0].name == b[0].name
  {
    StrcmpZero(a[0].name, b[0].name);
  }

  // The walk, name by name

  /** How the walk deals with a name that both objects have. */
  datatype Meeting = Together | RemovedFirst | AddedFirst

  /** The walk goes by strcmp, the lists are in the order that ignores case: it may miss that both have a name. */
  function Meet(a: seq<Member>, b: seq<Member>, key: string): (m: Meeting)
    decreases |a| + |b|
  {
    if a == [] || b == [] then Together
    else if Side(a, b) < 0 then if Fold(a[0].name) == key then RemovedFirst else Meet(a[1..], b, key)
    else if Side(a, b) > 0 then if Fold(b[0].name) == key then AddedFirst else Meet(a, b[1..], key)
    else if Fold(a[0].name) == key then Together else Meet(a[1..], b[1..], key)
  }

  /** What the entries of a patch for one name do to its value, in turn. */
  function Fate(c: Option<Canon>, pm: seq<Member>, key: string): (r: Option<Canon>)
    decreases |pm|
  {
    if pm == [] then c
    else Fate(if Fold(pm[0].name) == key then CMergeValue(c, pm[0].value) else c, pm[1..], key)
  }

  lemma {:induction false} MergeFate(m: map<string, Canon>, pm: seq<Member>, key: string)
    ensures Lookup(CMergeMembers(m, pm), key) == Fate(Lookup(m, key), pm, key)
    decreases |pm|
  {
    hide CMerge;
    if pm != [] {
      MergeFate(CMergeMember(m, pm[0]), pm[1..], key);
    }
  }

  lemma {:induction false} FateCons(c: Option<Canon>, p: Member, pm: seq<Member>, key: string)
    ensures Fate(c, [p] + pm, key) == Fate(if Fold(p.name) == key then CMergeValue(c, p.value) else c, pm, key)
    ensures Fate(c, [] + pm, key) == Fate(c, pm, key)
  {
    assert ([p] + pm)[1..] == pm && [] + pm == pm;
  }

  /** What becomes of a value that both objects have in the same place of the walk. */
  function Changed(c: Option<Canon>, x: Json, y: Json): (r: Option<Canon>) {
    if CanonOf(x) == CanonOf(y) then c
    else
      match Generate(x, y)
      case None => c
      case Some(p) => CMergeValue(c, p)
  }

  /** What the generated patch makes of the value under a name. */
  function Outcome(a: seq<Member>, b: seq<Member>, key: string, c: Option<Canon>): (r: Option<Canon>) {
    var i, j := Partner(a, key), Partner(b, key);
    if j >= |b| then if i >= |a| then c else None
    else if i >= |a| then CMergeValue(c, b[j].value)
    else
      match Meet(a, b, key)
      case Together => Changed(c, a[i].value, b[j].value)
      case RemovedFirst => CMergeValue(None, b[j].value)
      case AddedFirst => None
  }

  lemma {:induction false} PartnerTail(a: seq<Member>, key: string)
    requires Orderly(a) && a != []
    ensures if Fold(a[0].name) == key then Partner(a, key) == 0 && Partner(a[1..], key) == |a[1..]|
            else Partner(a, key) == Partner(a[1..], key) + 1
  {
    OrderlyTail(a);
    if Fold(a[0].name) == key {
      PartnerAbsent(a[1..], key);
    }
  }

  lemma {:induction false} WalkFate(goal: Json, a: seq<Member>, b: seq<Member>, key: string, c: Option<Canon>)
    requires From(goal, b) && Orderly(a) && Orderly(b)
    ensures Fate(c, GenerateMembers(goal, a, b), key) == Outcome(a, b, key, c)
    decreases |a| + |b|
  {
    if a != [] || b != [] {
      if Side(a, b) < 0 {
        FateRemoves(goal, a, b, key, c);
      } else if Side(a, b) > 0 {
        FateAdds(goal, a, b, key, c);
      } else {
        FateChanges(goal, a, b, key, c);
      }
    }
  }

  lemma {:induction false} SideTakes(a: seq<Member>, b: seq<Member>)
    requires a != [] || b != []
    ensures if Side(a, b) < 0 then a != [] else b != []
  {
  }

  lemma {:induction false} FateRemoves(goal: Json, a: seq<Member>, b: seq<Member>, key: string, c: Option<Canon>)
    requires From(goal, b) && Orderly(a) && Orderly(b) && (a != [] || b != []) && Side(a, b) < 0
    ensures Fate(c, GenerateMembers(goal, a, b), key) == Outcome(a, b, key, c)
    decreases |a| + |b|, 0
  {
    hide Orderly, CMergeValue, Changed, CanonMembers, Fate;
    var p, rest := Member(a[0].name, Null), GenerateMembers(goal, a[1..], b);
    PartnerTail(a, key);
    TailOrderly(a);
    NullRemoves(c);
    WalkFate(goal, a[1..], b, key, if Fold(p.name) == key then None else c);
    FateCons(c, p, rest, key);
  }

  lemma {:induction false} TailOrderly(a: seq<Member>)
    requires Orderly(a) && a != []
    ensures Orderly(a[1..])
  {
    OrderlyTail(a);
  }

  lemma {:induction false} NullRemoves(c: Option<Canon>)
    ensures CMergeValue(c, Null) == None
  {
  }

  lemma {:induction false} FateAdds(goal: Json, a: seq<Member>, b: seq<Member>, key: string, c: Option<Canon>)
    requires From(goal, b) && Orderly(a) && Orderly(b) && (a != [] || b != []) && Side(a, b) > 0
    ensures Fate(c, GenerateMembers(goal, a, b), key) == Outcome(a, b, key, c)
    decreases |a| + |b|, 0
  {
    hide Orderly, CMergeValue, Changed, CanonMembers, Fate, Side;
    SideTakes(a, b);
    var p := b[0];
    PartnerTail(b, key);
    TailOrderly(b);
    WalkFate(goal, a, b[1..], key, if Fold(p.name) == key then CMergeValue(c, p.value) else c);
    FateCons(c, p, GenerateMembers(goal, a, b[1..]), key);
  }

  lemma {:induction false} FateChanges(goal: Json, a: seq<Member>, b: seq<Member>, key: string, c: Option<Canon>)
    requires From(goal, b) && Orderly(a) && Orderly(b) && (a != [] || b != []) && Side(a, b) == 0
    ensures Fate(c, GenerateMembers(goal, a, b), key) == Outcome(a, b, key, c)
    decreases |a| + |b|, 0
  {
    hide Orderly, Changed, CMergeValue, CanonMembers, GenerateMembers, Fate;
    SideZero(a, b);
    PartnerTail(a, key);
    PartnerTail(b, key);
    TailOrderly(a);
    TailOrderly(b);
    FateOfPair(goal, a, b, key, c);
    WalkFate(goal, a[1..], b[1..], key, if Fold(b[0].name) == key then Changed(c, a[0].value, b[0].value) else c);
  }

  lemma {:induction false} FateOfPair(goal: Json, a: seq<Member>, b: seq<Member>, key: string, c: Option<Canon>)
    requires From(goal, b) && Orderly(a) && Orderly(b) && a != [] && b != [] && Side(a, b) == 0
    ensures Fate(c, GenerateMembers(goal, a, b), key) ==
            Fate(if Fold(b[0].name) == key then Changed(c, a[0].value, b[0].value) else c,
                 GenerateMembers(goal, a[1..], b[1..]), key)
  {
    hide Orderly, Fate, CanonOf, Fold, Compare, CMergeValue;
    HeadTidy(a);
    HeadTidy(b);
    EqualIffSame(a[0].value, b[0].value);
    var made := ChangedMember(goal, a, b);
    FateCons(c, if made == [] then b[0] else made[0], GenerateMembers(goal, a[1..], b[1..]), key);
  }

  lemma {:induction false} HeadTidy(a: seq<Member>)
    requires Orderly(a) && a != []
    ensures Tidy(a[0].value) && CString(a[0].name)
  {
  }

  // No patch

  /** Every name of s is a name of t, letter by letter. */
  predicate NamesIn(s: seq<Member>, t: seq<Member>) {
    forall i | 0 <= i < |s| :: HasName(t, s[i].name)
  }

  predicate HasName(t: seq<Member>, name: string) {
    exists j :: 0 <= j < |t| && t[j].name == name
  }

  /** Two sorted lists with the same names, ignoring case, begin with the same name. */
  lemma {:induction false} SameHeads(a: seq<Member>, b: seq<Member>)
    requires Orderly(a) && Orderly(b) && CanonMembers(a) == CanonMembers(b) && (a != [] || b != [])
    ensures a != [] && b != [] && Fold(a[0].name) == Fold(b[0].name)
  {
    if a != [] { assert Fold(a[0].name) in CanonMembers(a); }
    if b != [] { assert Fold(b[0].name) in CanonMembers(b); }
    CaseOrderTotal(a[0].name, b[0].name);
    if Diff(a, b) < 0 {
      BelowAbsent(a[0].name, b);
    } else if Diff(a, b) > 0 {
      BelowAbsent(b[0].name, a);
    }
  }

  /** The same names ignoring case, but different first names: the one is not among the names of the other list. */
  lemma {:induction false} HeadsDiffer(a: seq<Member>, b: seq<Member>)
    requires Orderly(a) && Orderly(b) && CanonMembers(a) == CanonMembers(b) && (a != [] || b != []) && Side(a, b) != 0
    ensures !NamesIn(a, b)
  {
    SameHeads(a, b);
    StrcmpZero(a[0].name, b[0].name);
  }

  lemma {:induction false} NamesInTail(a: seq<Member>, b: seq<Member>)
    requires Orderly(a) && Orderly(b) && a != [] && b != [] && a[0].name == b[0].name
    ensures NamesIn(a, b) <==> NamesIn(a[1..], b[1..])
  {
    hide CanonMembers, Fold;
    OrderlyTail(a);
    if NamesIn(a, b) {
      forall i | 0 <= i < |a[1..]|
        ensures HasName(b[1..], a[1..][i].name)
      {
        assert a[1..][i] == a[i + 1];
        var j :| 0 <= j < |b| && b[j].name == a[i + 1].name;
        assert j > 0 by { assert Fold(a[0].name) != Fold(a[i + 1].name); }
        assert b[1..][j - 1] == b[j];
      }
    }
    if NamesIn(a[1..], b[1..]) {
      forall i | 0 <= i < |a|
        ensures HasName(b, a[i].name)
      {
        if i > 0 {
          assert a[1..][i - 1] == a[i];
          var j :| 0 <= j < |b[1..]| && b[1..][j].name == a[i].name;
          assert b[j + 1] == b[1..][j];
        }
      }
    }
  }

  /** A null pointer comes back exactly for two objects equal up to member order, with the same names to the letter. */
  lemma {:induction false} NoPatchIffEqual(from: Json, goal: Json)
    requires Tidy(from) && Tidy(goal)
    ensures Generate(from, goal).None? <==>
              from.Object? && goal.Object? && CanonOf(from) == CanonOf(goal) && NamesIn(from.members, goal.members)
    decreases goal, 1, 0
  {
    if from.Object? && goal.Object? {
      ObjectsNoPatch(from, goal);
    }
  }

  lemma {:induction false} ObjectsNoPatch(from: Json, goal: Json)
    requires Tidy(from) && Tidy(goal) && from.Object? && goal.Object?
    ensures Generate(from, goal).None? <==> CanonOf(from) == CanonOf(goal) && NamesIn(from.members, goal.members)
    decreases goal, 0, |from.members| + |goal.members| + 1
  {
    hide GenerateMembers, Tidy, Orderly, From, SortedMembers, CanonMembers, NamesIn;
    SortedOrderly(from);
    SortedOrderly(goal);
    SortedFrom(goal);
    MembersNoPatch(goal, SortedMembers(from.members), SortedMembers(goal.members));
    NamesInPermuted(from.members, goal.members, SortedMembers(from.members), SortedMembers(goal.members));
  }

  lemma {:induction false} NamesInPermuted(s: seq<Member>, t: seq<Member>, a: seq<Member>, b: seq<Member>)
    requires multiset(s) == multiset(a) && multiset(t) == multiset(b)
    ensures NamesIn(s, t) <==> NamesIn(a, b)
  {
    if NamesIn(s, t) { NamesInMoves(s, t, a, b); }
    if NamesIn(a, b) { NamesInMoves(a, b, s, t); }
  }

  lemma {:induction false} NamesInMoves(s: seq<Member>, t: seq<Member>, a: seq<Member>, b: seq<Member>)
    requires multiset(s) == multiset(a) && multiset(t) == multiset(b) && NamesIn(s, t)
    ensures NamesIn(a, b)
  {
    forall i | 0 <= i < |a|
      ensures HasName(b, a[i].name)
    {
      CaseSort.MemberOf(a, s, i);
      var k :| 0 <= k < |s| && s[k] == a[i];
      var j :| 0 <= j < |t| && t[j].name == s[k].name;
      CaseSort.MemberOf(t, b, j);
      var l :| 0 <= l < |b| && b[l] == t[j];
      assert b[l].name == a[i].name;
    }
  }

  lemma {:induction false} MembersNoPatch(goal: Json, a: seq<Member>, b: seq<Member>)
    requires From(goal, b) && Orderly(a) && Orderly(b)
    ensures GenerateMembers(goal, a, b) == [] <==> CanonMembers(a) == CanonMembers(b) && NamesIn(a, b)
    decreases goal, 0, |a| + |b|
  {
    if a != [] || b != [] {
      if Side(a, b) != 0 {
        if CanonMembers(a) == CanonMembers(b) {
          HeadsDiffer(a, b);
        }
      } else {
        PairNoPatch(goal, a, b);
      }
    }
  }

  lemma {:induction false} PairNoPatch(goal: Json, a: seq<Member>, b: seq<Member>)
    requires From(goal, b) && Orderly(a) && Orderly(b) && (a != [] || b != []) && Side(a, b) == 0
    ensures GenerateMembers(goal, a, b) == [] <==> CanonMembers(a) == CanonMembers(b) && NamesIn(a, b)
    decreases goal, 0, |a| + |b|, 0
  {
    hide Tidy, Orderly, NamesIn;
    SideZero(a, b);
    NamesInTail(a, b);
    OrderlyTail(a);
    OrderlyTail(b);
    ChangedIffDifferent(goal, a, b);
    MembersNoPatch(goal, a[1..], b[1..]);
    MapConsEqual(CanonMembers(a[1..]), CanonMembers(b[1..]), Fold(a[0].name), CanonOf(a[0].value), CanonOf(b[0].value));
  }

  /** An entry is made exactly for values that differ. */
  lemma {:induction false} ChangedIffDifferent(goal: Json, a: seq<Member>, b: seq<Member>)
    requires From(goal, b) && a != [] && b != []
    requires Tidy(a[0].value) && Tidy(b[0].value)
    ensures ChangedMember(goal, a, b) == [] <==> CanonOf(a[0].value) == CanonOf(b[0].value)
    decreases goal, 0, 0
  {
    EqualIffSame(a[0].value, b[0].value);
    NoPatchIffEqual(a[0].value, b[0].value);
  }

  // When the result is the wanted tree

  /** No object member is null. */
  predicate NoNulls(v: Json) {
    v.Object? ==> forall i | 0 <= i < |v.members| :: !v.members[i].value.Null? && NoNulls(v.members[i].value)
  }

  /**
   The walk reaches the wanted tree: a name that only this tree has, or that the
   walk removes before it adds it again, must come without null members; a name
   must not be removed after it has been added; and a name that the walk finds in
   both trees must have equal values, or a value that is not null and is reached.
   */
  predicate Reaches(from: Json, goal: Json)
    decreases goal, 1
  {
    if from.Object? && goal.Object? then
      var a, b := SortedMembers(from.members), SortedMembers(goal.members);
      forall j | 0 <= j < |goal.members| :: ReachesMember(a, b, Fold(goal.members[j].name), goal.members[j].value)
    else NoNulls(goal)
  }

  predicate ReachesMember(a: seq<Member>, b: seq<Member>, key: string, v: Json)
    decreases v, 2
  {
    var k := Partner(a, key);
    if k >= |a| then !v.Null? && NoNulls(v)
    else
      match Meet(a, b, key)
      case Together => CanonOf(a[k].value) == CanonOf(v) || (!v.Null? && Reaches(a[k].value, v))
      case RemovedFirst => !v.Null? && NoNulls(v)
      case AddedFirst => false
  }

  /** Merging a value where there is no object drops its null members. */
  lemma {:induction false} FreshMerge(c: Option<Canon>, v: Json)
    requires Tidy(v) && MembersOf(c) == map[]
    ensures CMerge(c, v) == CanonOf(v) <==> NoNulls(v)
    decreases v, 1
  {
    if v.Object? {
      ObjectTidy(v.members);
      FreshMembers(map[], v.members);
      assert map[] + CanonMembers(v.members) == CanonMembers(v.members);
    }
  }

  lemma {:induction false} FreshMembers(d: map<string, Canon>, pm: seq<Member>)
    requires TidyMembers(pm) && d.Keys !! CanonMembers(pm).Keys
    ensures CMergeMembers(d, pm) == d + CanonMembers(pm) <==>
            forall i | 0 <= i < |pm| :: !pm[i].value.Null? && NoNulls(pm[i].value)
    decreases pm
  {
    hide Tidy, NoNulls, CMerge;
    if pm == [] {
      assert d + map[] == d;
    } else {
      FreshStep(d, pm);
    }
  }

  lemma {:induction false} TidyRest(pm: seq<Member>)
    requires TidyMembers(pm) && pm != []
    ensures TidyMembers(pm[1..]) && Tidy(pm[0].value) && Fold(pm[0].name) !in CanonMembers(pm[1..])
  {
    CanonKeys(pm[1..], Fold(pm[0].name));
  }

  lemma {:induction false} FreshStep(d: map<string, Canon>, pm: seq<Member>)
    requires TidyMembers(pm) && d.Keys !! CanonMembers(pm).Keys && pm != []
    ensures CMergeMembers(d, pm) == d + CanonMembers(pm) <==>
            forall i | 0 <= i < |pm| :: !pm[i].value.Null? && NoNulls(pm[i].value)
    decreases pm, 0
  {
    hide Tidy, NoNulls, CMerge;
    var key, v, rest := Fold(pm[0].name), pm[0].value, pm[1..];
    TidyRest(pm);
    assert forall i | 0 <= i < |rest| :: rest[i] == pm[i + 1];
    assert (forall i | 0 <= i < |pm| :: !pm[i].value.Null? && NoNulls(pm[i].value)) <==>
           (!v.Null? && NoNulls(v)) && forall i | 0 <= i < |rest| :: !rest[i].value.Null? && NoNulls(rest[i].value);
    assert Lookup(d, key) == None;
    FreshMerge(None, v);
    if v.Null? {
      assert d - {key} == d;
      MergedElsewhere(d, rest, key);
      assert key in d + CanonMembers(pm);
    } else {
      var x := CMerge(None, v);
      FreshMembers(d[key := x], rest);
      MergedElsewhere(d[key := x], rest, key);
      MapFacts(d, CanonMembers(rest), key, x, x);
      MapFacts(d, CanonMembers(rest), key, CanonOf(v), CanonOf(v));
      assert Lookup(CMergeMembers(d, pm), key) == Some(x);
      assert (d + CanonMembers(pm))[key] == CanonOf(v);
    }
  }

  /** One member of the result is as wanted exactly if it is reached. */
  lemma {:induction false} ValueReached(a: seq<Member>, b: seq<Member>, key: string, v: Json)
    requires Orderly(a) && Tidy(v) && Partner(b, key) < |b| && b[Partner(b, key)].value == v
    ensures var c := if Partner(a, key) < |a| then Some(CanonOf(a[Partner(a, key)].value)) else None;
            Outcome(a, b, key, c) == Some(CanonOf(v)) <==> ReachesMember(a, b, key, v)
    decreases v, 2
  {
    hide Tidy, NoNulls;
    var k := Partner(a, key);
    FreshMerge(None, v);
    if k < |a| && Meet(a, b, key).Together? && CanonOf(a[k].value) != CanonOf(v) {
      NoPatchIffEqual(a[k].value, v);
      PatchReaches(a[k].value, v);
    }
  }

  /** Merging the patch between two values reaches the second. */
  lemma {:induction false} PatchReaches(from: Json, goal: Json)
    requires Tidy(from) && Tidy(goal) && Generate(from, goal).Some?
    ensures CMerge(Some(CanonOf(from)), Generate(from, goal).value) == CanonOf(goal) <==> Reaches(from, goal)
    ensures Generate(from, goal).value.Null? <==> goal.Null?
    decreases goal, 1
  {
    if from.Object? && goal.Object? {
      ObjectsReach(from, goal);
    } else if goal.Object? {
      FreshMerge(Some(CanonOf(from)), goal);
    }
  }

  lemma {:induction false} ObjectsReach(from: Json, goal: Json)
    requires Tidy(from) && Tidy(goal) && Generate(from, goal).Some? && from.Object? && goal.Object?
    ensures Generate(from, goal).value.Object?
    ensures CMerge(Some(CanonOf(from)), Generate(from, goal).value) == CanonOf(goal) <==> Reaches(from, goal)
    decreases goal, 0, 2
  {
    hide GenerateMembers, Tidy, Orderly, From, SortedMembers, CanonMembers, CMergeMembers, ReachesMember;
    var a, b := SortedMembers(from.members), SortedMembers(goal.members);
    SortedOrderly(from);
    SortedOrderly(goal);
    SortedFrom(goal);
    MembersReach(goal, a, b);
  }

  lemma {:induction false} MembersReach(goal: Json, a: seq<Member>, b: seq<Member>)
    requires goal.Object? && From(goal, b) && Orderly(a) && Orderly(b) && Unlike(goal.members)
    requires multiset(b) == multiset(goal.members) && CanonMembers(b) == CanonMembers(goal.members) && Tidy(goal)
    ensures CMergeMembers(CanonMembers(a), GenerateMembers(goal, a, b)) == CanonMembers(goal.members) <==>
            forall j | 0 <= j < |goal.members| :: ReachesMember(a, b, Fold(goal.members[j].name), goal.members[j].value)
    decreases goal, 0, 1
  {
    hide Tidy, Orderly, CanonMembers, CMergeMembers, GenerateMembers, ReachesMember, Fold, From;
    var r, m := CMergeMembers(CanonMembers(a), GenerateMembers(goal, a, b)), CanonMembers(b);
    forall j | 0 <= j < |goal.members|
      ensures Lookup(r, Fold(goal.members[j].name)) == Lookup(m, Fold(goal.members[j].name)) <==>
              ReachesMember(a, b, Fold(goal.members[j].name), goal.members[j].value)
    {
      MemberReached(goal, a, b, j);
    }
    if r != m && (forall j | 0 <= j < |goal.members| ::
        Lookup(r, Fold(goal.members[j].name)) == Lookup(m, Fold(goal.members[j].name))) {
      forall key
        ensures Lookup(r, key) == Lookup(m, key)
      {
        if key in m {
          CanonKeys(goal.members, key);
        } else {
          NotWanted(goal, a, b, key);
        }
      }
      SameLookups(r, m);
    }
  }

  /** A name that is not wanted is not left. */
  lemma {:induction false} NotWanted(goal: Json, a: seq<Member>, b: seq<Member>, key: string)
    requires From(goal, b) && Orderly(a) && Orderly(b) && key !in CanonMembers(b)
    ensures Lookup(CMergeMembers(CanonMembers(a), GenerateMembers(goal, a, b)), key) == None
  {
    MergeFate(CanonMembers(a), GenerateMembers(goal, a, b), key);
    WalkFate(goal, a, b, key, Lookup(CanonMembers(a), key));
    PartnerAbsent(a, key);
    PartnerAbsent(b, key);
  }

  lemma {:induction false} MemberReached(goal: Json, a: seq<Member>, b: seq<Member>, j: nat)
    requires goal.Object? && From(goal, b) && Orderly(a) && Orderly(b) && Unlike(goal.members) && j < |goal.members|
    requires multiset(b) == multiset(goal.members) && Tidy(goal)
    ensures var key := Fold(goal.members[j].name);
            Lookup(CMergeMembers(CanonMembers(a), GenerateMembers(goal, a, b)), key) ==
              Lookup(CanonMembers(b), key) <==>
            ReachesMember(a, b, key, goal.members[j].value)
    decreases goal, 0, 0
  {
    hide CMergeMembers, GenerateMembers, ReachesMember, Tidy, CanonMembers, Outcome, Fate;
    var m := goal.members[j];
    var key, c := Fold(m.name), Lookup(CanonMembers(a), Fold(m.name));
    MergeFate(CanonMembers(a), GenerateMembers(goal, a, b), key);
    WalkFate(goal, a, b, key, c);
    ObjectTidy(goal.members);
    CaseSort.MemberOf(goal.members, b, j);
    var k :| 0 <= k < |b| && b[k] == m;
    PartnerUnique(b, key, k);
    CanonLookup(b, k);
    PartnerAbsent(a, key);
    if Partner(a, key) < |a| {
      CanonLookup(a, Partner(a, key));
    }
    ValueReached(a, b, key, m.value);
  }

  lemma {:induction false} SameLookups(m: map<string, Canon>, n: map<string, Canon>)
    requires forall key :: Lookup(m, key) == Lookup(n, key)
    ensures m == n
  {
    forall key
      ensures key in m <==> key in n
      ensures key in m ==> m[key] == n[key]
    {
      assert Lookup(m, key) == Lookup(n, key);
    }
  }

  // The generated patch can be merged

  lemma {:induction false} GeneratedMergeable(from: Json, goal: Json)
    requires Tidy(from) && Tidy(goal)
    ensures Generate(from, goal).Some? ==> Mergeable(Generate(from, goal).value)
    decreases goal, 1, 0
  {
    TidyMergeable(goal);
    if from.Object? && goal.Object? {
      hide GenerateMembers, Tidy, Orderly, From, SortedMembers, CanonMembers;
      SortedOrderly(from);
      SortedOrderly(goal);
      SortedFrom(goal);
      MembersMergeable(goal, SortedMembers(from.members), SortedMembers(goal.members));
    }
  }

  lemma {:induction false} MembersMergeable(goal: Json, a: seq<Member>, b: seq<Member>)
    requires From(goal, b) && Orderly(a) && Orderly(b)
    ensures MergeableMembers(GenerateMembers(goal, a, b))
    decreases goal, 0, |a| + |b|
  {
    if a != [] || b != [] {
      if Side(a, b) < 0 {
        OrderlyTail(a);
        MembersMergeable(goal, a[1..], b);
      } else if Side(a, b) > 0 {
        OrderlyTail(b);
        TidyMergeable(b[0].value);
        MembersMergeable(goal, a, b[1..]);
      } else {
        SideZero(a, b);
        OrderlyTail(a);
        OrderlyTail(b);
        GeneratedMergeable(a[0].value, b[0].value);
        MembersMergeable(goal, a[1..], b[1..]);
      }
    }
  }

  /**
   Merge-patch diff and apply (section 2 of RFC 7396), for trees whose sibling
   names are C strings that differ ignoring case: no patch is generated exactly
   for two objects that are equal up to member order; otherwise merging the patch
   into a tree that equals the first gives the second exactly if the walk reaches
   it.
   */
  lemma {:induction false} MergeUndoesGenerate(from: Json, goal: Json, copy: Json)
    requires Tidy(from) && Tidy(goal) && Tidy(copy) && CanonOf(copy) == CanonOf(from)
    ensures Generate(from, goal).None? <==>
              from.Object? && goal.Object? && CanonOf(from) == CanonOf(goal) && NamesIn(from.members, goal.members)
    ensures Generate(from, goal).Some? ==>
              var result := Merge(Some(copy), Generate(from, goal).value);
              Tidy(result) && (CanonOf(result) == CanonOf(goal) <==> Reaches(from, goal))
  {
    hide Tidy, Reaches, CMerge, Merge, Generate;
    NoPatchIffEqual(from, goal);
    if Generate(from, goal).Some? {
      GeneratedMergeable(from, goal);
      MergeIsCMerge(Some(copy), Generate(from, goal).value);
      PatchReaches(from, goal);
    }
  }

  /** Names on which the orders disagree: B is found missing, added, and then removed with the rest. */
  lemma {:induction false} MixedCaseLost()
    ensures var from, goal := Object([Member("a", True), Member("B", True)]), Object([Member("B", True)]);
            var patch := Object([Member("B", True), Member("a", Null), Member("B", Null)]);
            Generate(from, goal) == Some(patch) && Merge(Some(from), patch) == Object([])
  {
    MixedCaseWalk();
    MixedCaseMerge();
  }

  lemma {:induction false} MixedCaseWalk()
    ensures var from, goal := Object([Member("a", True), Member("B", True)]), Object([Member("B", True)]);
            Generate(from, goal) == Some(Object([Member("B", True), Member("a", Null), Member("B", Null)]))
  {
    var from, goal := Object([Member("a", True), Member("B", True)]), Object([Member("B", True)]);
    var a, b := from.members, goal.members;
    assert Strcasecmp("a", "B") < 0 && Strcmp("a", "B") > 0;
    assert SortedMembers(a) == a && SortedMembers(b) == b;
    assert a[1..] == [Member("B", True)] && a[1..][1..] == [] && b[1..] == [];
    assert From(goal, []);
    var last := GenerateMembers(goal, a[1..], []);
    assert last == [Member("B", Null)] + [] == [Member("B", Null)];
    assert GenerateMembers(goal, a, []) == [Member("a", Null)] + last == [Member("a", Null), Member("B", Null)];
    assert GenerateMembers(goal, a, b) == [b[0]] + GenerateMembers(goal, a, []);
    assert GenerateMembers(goal, a, b) == [Member("B", True), Member("a", Null), Member("B", Null)];
  }

  lemma {:induction false} MixedCaseMerge()
    ensures Merge(Some(Object([Member("a", True), Member("B", True)])),
                  Object([Member("B", True), Member("a", Null), Member("B", Null)])) == Object([])
  {
    hide MergeMember;
    var x, y := Member("a", True), Member("B", True);
    var p, q := Member("a", Null), Member("B", Null);
    MixedCaseSteps();
    assert [y, p, q][1..] == [p, q] && [p, q][1..] == [q] && [q][1..] == [];
    assert MergeMembers([y], [q]) == [];
    assert MergeMembers([x, y], [p, q]) == [];
  }

  lemma {:induction false} MixedCaseSteps()
    ensures var x, y := Member("a", True), Member("B", True);
            && MergeMember([x, y], y) == [x, y]
            && MergeMember([x, y], Member("a", Null)) == [y]
            && MergeMember([y], Member("B", Null)) == []
  {
    var x, y := Member("a", True), Member("B", True);
    assert Strcasecmp("a", "B") != 0 && Strcasecmp("B", "B") == 0 && Strcasecmp("a", "a") == 0;
    hide Strcasecmp;
    assert [x, y][1..] == [y] && [x] + [y] == [x, y];
    assert ItemIndex([y], "B") == 0 && ItemIndex([x, y], "B") == 1 && ItemIndex([x, y], "a") == 0;
    assert Without([x, y], 1) == [x] && Without([x, y], 0) == [y] && Without([y], 0) == [];
  }

  /** The smallest null member that a merge patch loses. */
  lemma {:induction false} NullMemberLost()
    ensures var goal := Object([Member("a", Null)]);
            && Generate(Object([]), goal) == Some(goal)
            && Merge(Some(Object([])), goal) == Object([])
            && CanonOf(Object([])) != CanonOf(goal)
  {
    var goal := Object([Member("a", Null)]);
    var b := goal.members;
    assert SortedMembers(b) == b && SortedMembers([]) == [];
    assert GenerateMembers(goal, [], b[1..]) == [] && b[0..1] + [] == b;
    assert GenerateMembers(goal, [], b) == b;
    assert b[1..] == [] && MergeMember([], b[0]) == [];
    assert MergeMembers([], b) == [];
    CanonLookup(b, 0);
  }
}
