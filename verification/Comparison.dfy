/** cJSONUtils_Compare: it returns 0 exactly for trees that are equal up to member order and the case of names. */
module Comparison {
  import opened CaseOrder
  import opened Json
  import opened Canon
  import opened Edits

  /** cJSONUtils_Compare; it sorts the members of both objects first. */
  function Compare(a: Json, b: Json): (err: int)
    decreases a, 1, 0
  {
    if !SameKind(a, b) then -1
    else
      match a
      case Number(i, d) => if i != b.valueint || d != b.valuedouble then -2 else 0
      case String(s) => if s != b.valuestring then -3 else 0
      case Array(_) => CompareItems(a, b, 0)
      case Object(members) =>
        SortedFrom(a);
        CompareMembers(a, SortedMembers(members), SortedMembers(b.members))
      case _ => 0
  }

  function CompareItems(a: Json, b: Json, k: nat): (err: int)
    requires a.Array? && b.Array? && k <= |a.items| && k <= |b.items|
    decreases a, 0, |a.items| - k
  {
    if k < |a.items| && k < |b.items| then
      var err := Compare(a.items[k], b.items[k]);
      if err != 0 then err else CompareItems(a, b, k + 1)
    else if k < |a.items| || k < |b.items| then -4 else 0
  }

  function CompareMembers(owner: Json, x: seq<Member>, y: seq<Member>): (err: int)
    requires From(owner, x)
    decreases owner, 0, |x|
  {
    if x != [] && y != [] then
      if Strcasecmp(x[0].name, y[0].name) != 0 then -6
      else
        var err := Compare(x[0].value, y[0].value);
        if err != 0 then err else CompareMembers(owner, x[1..], y[1..])
    else if x != [] || y != [] then -5 else 0
  }

  lemma {:induction false} ItemsEqual(a: Json, b: Json, k: nat)
    requires a.Array? && b.Array? && Tidy(a) && Tidy(b) && k <= |a.items| && k <= |b.items|
    ensures CompareItems(a, b, k) == 0 <==> CanonItems(a.items[k..]) == CanonItems(b.items[k..])
    decreases a, 0, |a.items| - k
  {
    if k < |a.items| && k < |b.items| {
      TidyParts(a);
      TidyParts(b);
      EqualIffSame(a.items[k], b.items[k]);
      ItemsEqual(a, b, k + 1);
      assert a.items[k..][1..] == a.items[k + 1..] && b.items[k..][1..] == b.items[k + 1..];
      SeqConsEqual(CanonOf(a.items[k]), CanonItems(a.items[k + 1..]), CanonOf(b.items[k]),
          CanonItems(b.items[k + 1..]));
    }
  }

  lemma {:induction false} MembersEqual(owner: Json, x: seq<Member>, y: seq<Member>)
    requires From(owner, x) && TidyMembers(x) && Strict(x) && TidyMembers(y) && Strict(y)
    ensures CompareMembers(owner, x, y) == 0 <==> CanonMembers(x) == CanonMembers(y)
    decreases owner, 0, |x|
  {
    if x != [] && y != [] {
      TidyTail(x);
      TidyTail(y);
      CaseOrderTotal(x[0].name, y[0].name);
      if Strcasecmp(x[0].name, y[0].name) < 0 {
        BelowAbsent(x[0].name, y);
      } else if Strcasecmp(x[0].name, y[0].name) > 0 {
        BelowAbsent(y[0].name, x);
      } else {
        EqualIffSame(x[0].value, y[0].value);
        MembersEqual(owner, x[1..], y[1..]);
        MapConsEqual(CanonMembers(x[1..]), CanonMembers(y[1..]), Fold(x[0].name), CanonOf(x[0].value),
            CanonOf(y[0].value));
      }
    } else if x != [] {
      assert Fold(x[0].name) in CanonMembers(x);
    } else if y != [] {
      assert Fold(y[0].name) in CanonMembers(y);
    }
  }

  /** The comparison reports no difference exactly if the trees have the same canonical form. */
  lemma {:induction false} EqualIffSame(a: Json, b: Json)
    requires Tidy(a) && Tidy(b)
    ensures Compare(a, b) == 0 <==> CanonOf(a) == CanonOf(b)
    decreases a, 1, 0
  {
    if SameKind(a, b) {
      match a {
        case Array(items) =>
          assert items[0..] == items && b.items[0..] == b.items;
          ItemsEqual(a, b, 0);
        case Object(_) => ObjectsEqual(a, b);
        case _ =>
      }
    }
  }

  lemma {:induction false} ObjectsEqual(a: Json, b: Json)
    requires Tidy(a) && Tidy(b) && a.Object? && b.Object?
    ensures Compare(a, b) == 0 <==> CanonOf(a) == CanonOf(b)
    decreases a, 0, |a.members| + 1
  {
    hide CompareMembers, CanonMembers, Tidy, TidyMembers, Strict, SortedMembers, From;
    TidyParts(a);
    TidyParts(b);
    SortedStrict(a.members);
    SortedStrict(b.members);
    SortedFrom(a);
    SortedLength(a.members);
    MembersEqual(a, SortedMembers(a.members), SortedMembers(b.members));
  }

  // What it means to be equal

  /** Equality up to member order and the case of names, member by member. */
  predicate SameTree(a: Json, b: Json)
    decreases a
  {
    SameKind(a, b) &&
    match a
    case Number(i, d) => i == b.valueint && d == b.valuedouble
    case String(s) => s == b.valuestring
    case Array(items) => |items| == |b.items| && forall i | 0 <= i < |items| :: SameTree(items[i], b.items[i])
    case Object(members) => Matched(members, b.members)
    case _ => true
  }

  predicate Matched(s: seq<Member>, t: seq<Member>)
    decreases s
  {
    && (forall i | 0 <= i < |s| :: HasCounterpart(s[i], t))
    && (forall j | 0 <= j < |t| :: exists i :: 0 <= i < |s| && Fold(s[i].name) == Fold(t[j].name))
  }

  predicate HasCounterpart(m: Member, members: seq<Member>)
    decreases m
  {
    exists j :: 0 <= j < |members| && Fold(members[j].name) == Fold(m.name) && SameTree(m.value, members[j].value)
  }

  /** The canonical forms are equal exactly for equal trees. */
  lemma {:induction false} CanonMeansSame(a: Json, b: Json)
    requires Tidy(a) && Tidy(b)
    ensures CanonOf(a) == CanonOf(b) <==> SameTree(a, b)
    decreases a
  {
    if SameKind(a, b) {
      match a {
        case Array(items) => ArraysSame(a, b);
        case Object(_) => ObjectsSame(a, b);
        case _ =>
      }
    }
  }

  lemma {:induction false} ArraysSame(a: Json, b: Json)
    requires Tidy(a) && Tidy(b) && a.Array? && b.Array?
    ensures CanonOf(a) == CanonOf(b) <==> SameTree(a, b)
    decreases a, 0
  {
    if |a.items| == |b.items| {
      forall i | 0 <= i < |a.items|
        ensures CanonItems(a.items)[i] == CanonItems(b.items)[i] <==> SameTree(a.items[i], b.items[i])
      {
        CanonItemsAt(a.items, i);
        CanonItemsAt(b.items, i);
        CanonMeansSame(a.items[i], b.items[i]);
      }
    }
  }

  lemma {:induction false} ObjectsSame(a: Json, b: Json)
    requires Tidy(a) && Tidy(b) && a.Object? && b.Object?
    ensures CanonOf(a) == CanonOf(b) <==> SameTree(a, b)
    decreases a, 0
  {
    TidyParts(a);
    TidyParts(b);
    forall i, j | 0 <= i < |a.members| && 0 <= j < |b.members|
      ensures Agree(a.members[i].value, b.members[j].value)
    {
      CanonMeansSame(a.members[i].value, b.members[j].value);
    }
    hide CanonOf, SameTree, Tidy;
    if CanonMembers(a.members) == CanonMembers(b.members) {
      EqualMembersMatch(a.members, b.members);
    }
    if Matched(a.members, b.members) {
      MatchedMembersEqual(a.members, b.members);
    }
  }

  predicate Agree(v: Json, w: Json) {
    CanonOf(v) == CanonOf(w) <==> SameTree(v, w)
  }

  lemma {:induction false} MatchedMembersEqual(s: seq<Member>, t: seq<Member>)
    requires TidyMembers(s) && TidyMembers(t) && Matched(s, t)
    requires forall i, j | 0 <= i < |s| && 0 <= j < |t| :: Agree(s[i].value, t[j].value)
    ensures CanonMembers(s) == CanonMembers(t)
  {
    var n := CanonMembers(t);
    forall i | 0 <= i < |s|
      ensures Fold(s[i].name) in n && n[Fold(s[i].name)] == CanonOf(s[i].value)
    {
      assert HasCounterpart(s[i], t);
      var j :| 0 <= j < |t| && Fold(t[j].name) == Fold(s[i].name) && SameTree(s[i].value, t[j].value);
      assert Agree(s[i].value, t[j].value);
      CanonLookup(t, j);
    }
    forall key | key in n
      ensures exists i :: 0 <= i < |s| && Fold(s[i].name) == key
    {
      CanonKeys(t, key);
    }
    CanonMembersIs(s, n);
  }

  lemma {:induction false} EqualMembersMatch(s: seq<Member>, t: seq<Member>)
    requires TidyMembers(s) && TidyMembers(t) && CanonMembers(s) == CanonMembers(t)
    requires forall i, j | 0 <= i < |s| && 0 <= j < |t| :: Agree(s[i].value, t[j].value)
    ensures Matched(s, t)
  {
    forall i | 0 <= i < |s|
      ensures HasCounterpart(s[i], t)
    {
      CanonLookup(s, i);
      CanonKeys(t, Fold(s[i].name));
      var j :| 0 <= j < |t| && Fold(t[j].name) == Fold(s[i].name);
      CanonLookup(t, j);
      assert Agree(s[i].value, t[j].value);
    }
    forall j | 0 <= j < |t|
      ensures exists i :: 0 <= i < |s| && Fold(s[i].name) == Fold(t[j].name)
    {
      CanonLookup(t, j);
      CanonKeys(s, Fold(t[j].name));
    }
  }

  // What the codes tell

  /** Different kinds, numbers and strings have codes of their own. */
  lemma {:induction false} ScalarCodes(a: Json, b: Json)
    ensures !SameKind(a, b) ==> Compare(a, b) == -1
    ensures a.Number? && b.Number? && a != b ==> Compare(a, b) == -2
    ensures a.String? && b.String? && a != b ==> Compare(a, b) == -3
  {
  }

  /** Two arrays have the code of the first items that differ, or -4 if one goes on where the other ends. */
  lemma {:induction false} ArrayCode(a: Json, b: Json, k: nat)
    requires a.Array? && b.Array? && k <= |a.items| && k <= |b.items|
    requires forall i | 0 <= i < k :: Compare(a.items[i], b.items[i]) == 0
    requires if k < |a.items| && k < |b.items| then Compare(a.items[k], b.items[k]) != 0 else |a.items| != |b.items|
    ensures Compare(a, b) == if k < |a.items| && k < |b.items| then Compare(a.items[k], b.items[k]) else -4
  {
    ItemsCode(a, b, 0, k);
  }

  lemma {:induction false} ItemsCode(a: Json, b: Json, i: nat, k: nat)
    requires a.Array? && b.Array? && i <= k <= |a.items| && k <= |b.items|
    requires forall j | i <= j < k :: Compare(a.items[j], b.items[j]) == 0
    ensures CompareItems(a, b, i) == CompareItems(a, b, k)
    decreases k - i
  {
    if i < k {
      ItemsCode(a, b, i + 1, k);
    }
  }

  /**
   Two objects, their members in order, have the code of the first values that
   differ under the same name, -6 if the names differ first, or -5 if one goes on
   where the other ends.
   */
  lemma {:induction false} ObjectCode(a: Json, b: Json, k: nat)
    requires a.Object? && b.Object?
    requires var x, y := SortedMembers(a.members), SortedMembers(b.members);
             && k <= |x| && k <= |y| && (k < |x| || k < |y|)
             && (forall i | 0 <= i < k :: Strcasecmp(x[i].name, y[i].name) == 0 && Compare(x[i].value, y[i].value) == 0)
             && (k < |x| && k < |y| ==> Strcasecmp(x[k].name, y[k].name) != 0 || Compare(x[k].value, y[k].value) != 0)
    ensures var x, y := SortedMembers(a.members), SortedMembers(b.members);
            Compare(a, b) == if k == |x| || k == |y| then -5
                             else if Strcasecmp(x[k].name, y[k].name) != 0 then -6
                             else Compare(x[k].value, y[k].value)
  {
    SortedFrom(a);
    var x, y := SortedMembers(a.members), SortedMembers(b.members);
    assert x[0..] == x && y[0..] == y;
    MembersCode(a, x, y, 0, k);
  }

  lemma {:induction false} MembersCode(owner: Json, x: seq<Member>, y: seq<Member>, i: nat, k: nat)
    requires From(owner, x) && i <= k <= |x| && k <= |y|
    requires forall j | i <= j < k :: Strcasecmp(x[j].name, y[j].name) == 0 && Compare(x[j].value, y[j].value) == 0
    ensures CompareMembers(owner, x[i..], y[i..]) == CompareMembers(owner, x[k..], y[k..])
    decreases k - i
  {
    if i < k {
      MembersCode(owner, x, y, i + 1, k);
      assert x[i..][1..] == x[i + 1..] && y[i..][1..] == y[i + 1..];
    }
  }
}
