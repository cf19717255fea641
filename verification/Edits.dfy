/** The edits that cJSONUtils_CompareToPatch finds between two trees, and what applying them gives. */
module Edits {
  import opened CText
  import opened CaseOrder
  import opened CaseSort
  import opened Json
  import opened Pointers
  import opened Canon

  function NameOf(m: Member): (name: string) {
    m.name
  }

  function SortedMembers(members: seq<Member>): (r: seq<Member>) {
    SortList(NameOf, members)
  }

  predicate SameKind(a: Json, b: Json) {
    match a
    case Null => b.Null?
    case False => b.False?
    case True => b.True?
    case Number(_, _) => b.Number?
    case String(_) => b.String?
    case Array(_) => b.Array?
    case Object(_) => b.Object?
  }

  /** Members that are found in an object. */
  predicate From(v: Json, a: seq<Member>) {
    v.Object? && forall i | 0 <= i < |a| :: a[i] in v.members
  }

  lemma {:induction false} SortedFrom(v: Json)
    requires v.Object?
    ensures From(v, SortedMembers(v.members))
  {
    SortPermutes(NameOf, v.members);
    var a := SortedMembers(v.members);
    forall i | 0 <= i < |a|
      ensures a[i] in v.members
    {
      MemberOf(a, v.members, i);
    }
  }

  /** Member comparison while walking two lists: below zero for a member to remove, above for one to add. */
  function Diff(a: seq<Member>, b: seq<Member>): (r: int)
    requires a != [] || b != []
  {
    if a == [] then 1 else if b == [] then -1 else Strcasecmp(a[0].name, b[0].name)
  }

  /** The edits between two trees, relative to where these stand. */
  function EditsOf(from: Json, to: Json): (es: seq<Edit>)
    decreases from, 1, 0
  {
    if !SameKind(from, to) then [Replace([], to)]
    else
      match from
      case Number(i, d) => if i != to.valueint || d != to.valuedouble then [Replace([], to)] else []
      case String(s) => if s != to.valuestring then [Replace([], to)] else []
      case Array(items) => ItemEdits(from, to, 0)
      case Object(members) =>
        SortedFrom(from);
        MemberEdits(from, SortedMembers(members), SortedMembers(to.members))
      case _ => []
  }

  function ItemEdits(from: Json, to: Json, k: nat): (es: seq<Edit>)
    requires from.Array? && to.Array? && k <= |from.items| && k <= |to.items|
    decreases from, 0, |from.items| - k
  {
    if k < |from.items| && k < |to.items| then
      AllUnder(Index(k), EditsOf(from.items[k], to.items[k])) + ItemEdits(from, to, k + 1)
    else Removals(k, |from.items|) + Appends(to.items[k..])
  }

  /** Array removals, with increasing indices. */
  function Removals(k: nat, n: nat): (es: seq<Edit>)
    decreases n - k
  {
    if k < n then [Remove([Index(k)])] + Removals(k + 1, n) else []
  }

  function Appends(items: seq<Json>): (es: seq<Edit>) {
    if items == [] then [] else [Append([], items[0])] + Appends(items[1..])
  }

  function MemberEdits(from: Json, a: seq<Member>, b: seq<Member>): (es: seq<Edit>)
    requires From(from, a)
    decreases from, 0, |a| + |b|
  {
    if a == [] && b == [] then []
    else
      var diff := Diff(a, b);
      if diff > 0 then [Add([Key(b[0].name)], b[0].value)] + MemberEdits(from, a, b[1..])
      else
        if diff < 0 then [Remove([Key(a[0].name)])] + MemberEdits(from, a[1..], b)
        else AllUnder(Key(a[0].name), EditsOf(a[0].value, b[0].value)) + MemberEdits(from, a[1..], b[1..])
  }

  // What the edits produce

  /** What removing at increasing indices leaves of the surplus items: every second one. */
  function Leftover(items: seq<Json>): (r: seq<Json>) {
    if |items| <= 1 then [] else [items[1]] + Leftover(items[2..])
  }

  function Partner(a: seq<Member>, key: string): (k: nat)
    ensures k <= |a| && (k < |a| ==> Fold(a[k].name) == key)
  {
    if a == [] || Fold(a[0].name) == key then 0 else 1 + Partner(a[1..], key)
  }

  /** The result of applying the edits. */
  function Patched(from: Json, to: Json): (c: Canon)
    decreases from, 1, 0
  {
    if !SameKind(from, to) then CanonOf(to)
    else
      match from
      case Array(items) => CArray(PatchedItems(from, to, 0))
      case Object(members) =>
        SortedFrom(from);
        CObject(PatchedMembers(from, SortedMembers(members), SortedMembers(to.members)))
      case _ => CanonOf(to)
  }

  function PatchedItems(from: Json, to: Json, k: nat): (c: seq<Canon>)
    requires from.Array? && to.Array? && k <= |from.items| && k <= |to.items|
    decreases from, 0, |from.items| - k
  {
    if k < |from.items| && k < |to.items| then [Patched(from.items[k], to.items[k])] + PatchedItems(from, to, k + 1)
    else CanonItems(Leftover(from.items[k..])) + CanonItems(to.items[k..])
  }

  function PatchedMembers(from: Json, a: seq<Member>, b: seq<Member>): (c: map<string, Canon>)
    requires From(from, a)
    decreases from, 0, |b|
  {
    if b == [] then map[]
    else
      var key, k := Fold(b[0].name), Partner(a, Fold(b[0].name));
      PatchedMembers(from, a, b[1..])[key := if k < |a| then PatchedMember(from, a, k, b[0].value)
          else CanonOf(b[0].value)]
  }

  function PatchedMember(from: Json, a: seq<Member>, k: nat, to: Json): (c: Canon)
    requires From(from, a) && k < |a|
    decreases from, 0, 0
  {
    assert a[k..][0] == a[k] && From(from, a[k..]);
    Patched(a[k].value, to)
  }

  // The edits work

  /** Names are C strings, and siblings differ ignoring case. */
  predicate Tidy(v: Json) {
    NamesOk(v) && DistinctNames(v)
  }

  predicate TidyMembers(a: seq<Member>) {
    Unlike(a) && forall i | 0 <= i < |a| :: CString(a[i].name) && Tidy(a[i].value)
  }

  /** Names without upper-case letters, on which strcmp and the order that ignores case agree. */
  predicate Lower(v: Json) {
    match v
    case Array(items) => forall i | 0 <= i < |items| :: Lower(items[i])
    case Object(members) => LowerMembers(members)
    case _ => true
  }

  predicate LowerMembers(a: seq<Member>) {
    forall i | 0 <= i < |a| :: Fold(a[i].name) == a[i].name && Lower(a[i].value)
  }

  predicate Strict(a: seq<Member>) {
    forall i, j | 0 <= i < j < |a| :: Strcasecmp(a[i].name, a[j].name) < 0
  }

  lemma {:induction false} TidyParts(v: Json)
    requires Tidy(v)
    ensures v.Object? ==> TidyMembers(v.members)
    ensures v.Array? ==> forall i | 0 <= i < |v.items| :: Tidy(v.items[i])
  {
  }

  lemma {:induction false} TidyPermuted(s: seq<Member>, t: seq<Member>)
    requires TidyMembers(s) && multiset(s) == multiset(t)
    ensures TidyMembers(t)
  {
    forall i | 0 <= i < |t|
      ensures CString(t[i].name) && Tidy(t[i].value)
    {
      MemberOf(t, s, i);
    }
    forall i, j | 0 <= i < j < |t|
      ensures Fold(t[i].name) != Fold(t[j].name)
    {
      UnlikePermuted(s, t, i, j);
    }
  }

  lemma {:induction false} UnlikeCounts(s: seq<Member>, m: Member)
    requires Unlike(s)
    ensures multiset(s)[m] <= 1
  {
    if s != [] {
      var k := |s| - 1;
      assert s == s[..k] + [s[k]];
      UnlikeCounts(s[..k], m);
      assert s[k] !in s[..k];
    }
  }

  lemma {:induction false} UnlikePermuted(s: seq<Member>, t: seq<Member>, i: nat, j: nat)
    requires Unlike(s) && multiset(s) == multiset(t) && i < j < |t|
    ensures Fold(t[i].name) != Fold(t[j].name)
  {
    MemberOf(t, s, i);
    MemberOf(t, s, j);
    UnlikeCounts(s, t[i]);
    assert t == t[..j] + [t[j]] + t[j + 1..];
    assert t[..j][i] == t[i];
    assert multiset(t)[t[i]] >= 1 + if t[j] == t[i] then 1 else 0;
  }

  /** Sorting the members of a tidy object orders them strictly. */
  lemma {:induction false} SortedStrict(members: seq<Member>)
    requires TidyMembers(members)
    ensures TidyMembers(SortedMembers(members)) && Strict(SortedMembers(members))
    ensures multiset(SortedMembers(members)) == multiset(members)
    ensures CanonMembers(SortedMembers(members)) == CanonMembers(members)
  {
    var a := SortedMembers(members);
    SortSorts(NameOf, members);
    TidyPermuted(members, a);
    CanonPermuted(a, members);
    forall i, j | 0 <= i < j < |a|
      ensures Strcasecmp(a[i].name, a[j].name) < 0
    {
      CaseOrderTotal(a[i].name, a[j].name);
      assert Strcasecmp(NameOf(a[i]), NameOf(a[j])) <= 0;
    }
  }

  lemma {:induction false} TidyTail(a: seq<Member>)
    requires TidyMembers(a) && Strict(a) && a != []
    ensures TidyMembers(a[1..]) && Strict(a[1..])
    ensures Fold(a[0].name) !in CanonMembers(a[1..])
  {
    CanonKeys(a[1..], Fold(a[0].name));
  }

  /** A name below the first one is not among the names. */
  lemma {:induction false} BelowAbsent(name: string, a: seq<Member>)
    requires TidyMembers(a) && Strict(a) && CString(name)
    requires a == [] || Strcasecmp(name, a[0].name) < 0
    ensures Fold(name) !in CanonMembers(a)
  {
    CanonKeys(a, Fold(name));
    if i :| 0 <= i < |a| && Fold(a[i].name) == Fold(name) {
      CaseOrderTotal(name, a[i].name);
      if i > 0 {
        CaseOrderTransitive(name, a[0].name, a[i].name);
      }
    }
  }

  lemma {:induction false} AppendsWork(items: seq<Canon>, rest: seq<Json>)
    ensures AllApplicable(CArray(items), Appends(rest))
    ensures ApplyAll(CArray(items), Appends(rest)) == CArray(items + CanonItems(rest))
    decreases |rest|
  {
    if rest == [] {
      assert items + CanonItems(rest) == items;
    } else {
      AppendsWork(items + [CanonOf(rest[0])], rest[1..]);
      assert items + [CanonOf(rest[0])] + CanonItems(rest[1..]) == items + CanonItems(rest);
    }
  }

  /** Removing past the end does nothing. */
  lemma {:induction false} RemovalsIdle(items: seq<Canon>, k: nat, n: nat)
    requires |items| <= k
    ensures AllApplicable(CArray(items), Removals(k, n)) && ApplyAll(CArray(items), Removals(k, n)) == CArray(items)
    decreases n - k
  {
    if k < n {
      RemovalsIdle(items, k + 1, n);
    }
  }

  /** As the indices go up while the array shrinks, every second item stays. */
  lemma {:induction false} RemovalsWork(done: seq<Canon>, rest: seq<Json>, n: nat)
    requires |done| + |rest| <= n
    ensures AllApplicable(CArray(done + CanonItems(rest)), Removals(|done|, n))
    ensures ApplyAll(CArray(done + CanonItems(rest)), Removals(|done|, n)) == CArray(done + CanonItems(Leftover(rest)))
    decreases |rest|
  {
    var k, c := |done|, done + CanonItems(rest);
    if rest == [] {
      assert c == done && done + CanonItems(Leftover(rest)) == done;
      RemovalsIdle(done, k, n);
    } else {
      var r := CanonItems(rest[1..]);
      assert c[..k] + c[k + 1..] == done + r;
      if |rest| == 1 {
        assert done + r == done && done + CanonItems(Leftover(rest)) == done;
        RemovalsIdle(done, k + 1, n);
      } else {
        var x := CanonOf(rest[1]);
        assert rest[1..][1..] == rest[2..];
        assert done + r == (done + [x]) + CanonItems(rest[2..]);
        RemovalsWork(done + [x], rest[2..], n);
        assert (done + [x]) + CanonItems(Leftover(rest[2..])) == done + CanonItems(Leftover(rest));
      }
    }
  }

  lemma {:induction false} MapFacts(d: map<string, Canon>, r: map<string, Canon>, key: string, x: Canon, y: Canon)
    requires key !in d && key !in r
    ensures d + r[key := x] - {key} == d + r
    ensures (d + r[key := x])[key := y] == d[key := y] + r
    ensures (d + r)[key := y] == d[key := y] + r
    ensures d[key := y] + r == d + r[key := y]
    ensures key in d + r[key := x] && (d + r[key := x])[key] == x
  {
    MapPut(d, r, key, x);
    MapPut(d, r, key, y);
    assert d + r[key := x] - {key} == d + r;
  }

  lemma {:induction false} MapPut(d: map<string, Canon>, r: map<string, Canon>, key: string, y: Canon)
    requires key !in d && key !in r
    ensures (d + r)[key := y] == d[key := y] + r == d + r[key := y]
  {
  }

  lemma {:induction false} PatchedKeys(from: Json, a: seq<Member>, b: seq<Member>)
    requires From(from, a)
    ensures PatchedMembers(from, a, b).Keys == CanonMembers(b).Keys
    decreases |b|
  {
    if b != [] {
      PatchedKeys(from, a, b[1..]);
    }
  }

  lemma {:induction false} PartnerAbsent(a: seq<Member>, key: string)
    ensures key !in CanonMembers(a) <==> Partner(a, key) == |a|
    decreases |a|
  {
    if a != [] {
      PartnerAbsent(a[1..], key);
    }
  }

  /** A member that has no counterpart does not matter. */
  lemma {:induction false} PatchedSkips(from: Json, a: seq<Member>, b: seq<Member>)
    requires From(from, a) && a != [] && Fold(a[0].name) !in CanonMembers(b)
    ensures From(from, a[1..]) && PatchedMembers(from, a, b) == PatchedMembers(from, a[1..], b)
    decreases |b|
  {
    if b != [] {
      PatchedSkips(from, a, b[1..]);
    }
  }

  /** The canonical object that the walk starts from is changed by the edits to the patched one. */
  lemma {:induction false} MemberEditsWork(from: Json, a: seq<Member>, b: seq<Member>, d: map<string, Canon>)
    requires From(from, a) && TidyMembers(a) && Strict(a) && TidyMembers(b) && Strict(b)
    requires d.Keys !! CanonMembers(a).Keys && d.Keys !! CanonMembers(b).Keys
    ensures AllApplicable(CObject(d + CanonMembers(a)), MemberEdits(from, a, b))
    ensures ApplyAll(CObject(d + CanonMembers(a)), MemberEdits(from, a, b)) == CObject(d + PatchedMembers(from, a, b))
    decreases from, 0, |a| + |b|
  {
    if a == [] && b == [] {
      assert d + map[] == d;
    } else if Diff(a, b) > 0 {
      AdditionWorks(from, a, b, d);
    } else if Diff(a, b) < 0 {
      RemovalWorks(from, a, b, d);
    } else {
      ChangeWorks(from, a, b, d);
    }
  }

  lemma {:induction false} AdditionWorks(from: Json, a: seq<Member>, b: seq<Member>, d: map<string, Canon>)
    requires From(from, a) && TidyMembers(a) && Strict(a) && TidyMembers(b) && Strict(b)
    requires d.Keys !! CanonMembers(a).Keys && d.Keys !! CanonMembers(b).Keys
    requires b != [] && Diff(a, b) > 0
    ensures AllApplicable(CObject(d + CanonMembers(a)), MemberEdits(from, a, b))
    ensures ApplyAll(CObject(d + CanonMembers(a)), MemberEdits(from, a, b)) == CObject(d + PatchedMembers(from, a, b))
    decreases from, 0, |a| + |b|, 0
  {
    var c, kb, x, rest := CObject(d + CanonMembers(a)), Fold(b[0].name), CanonOf(b[0].value), b[1..];
    if a != [] {
      CaseOrderTotal(a[0].name, b[0].name);
    }
    BelowAbsent(b[0].name, a);
    TidyTail(b);
    PartnerAbsent(a, kb);
    PatchedKeys(from, a, rest);
    MapFacts(d, CanonMembers(a), kb, x, x);
    MapFacts(d, PatchedMembers(from, a, rest), kb, x, x);
    var e := Add([Key(b[0].name)], b[0].value);
    assert Apply(c, e) == CObject(d[kb := x] + CanonMembers(a));
    MemberEditsWork(from, a, rest, d[kb := x]);
    var es := MemberEdits(from, a, b);
    assert es[0] == e && es[1..] == MemberEdits(from, a, rest);
  }

  lemma {:induction false} RemovalWorks(from: Json, a: seq<Member>, b: seq<Member>, d: map<string, Canon>)
    requires From(from, a) && TidyMembers(a) && Strict(a) && TidyMembers(b) && Strict(b)
    requires d.Keys !! CanonMembers(a).Keys && d.Keys !! CanonMembers(b).Keys
    requires a != [] && Diff(a, b) < 0
    ensures AllApplicable(CObject(d + CanonMembers(a)), MemberEdits(from, a, b))
    ensures ApplyAll(CObject(d + CanonMembers(a)), MemberEdits(from, a, b)) == CObject(d + PatchedMembers(from, a, b))
    decreases from, 0, |a| + |b|, 0
  {
    var c, ka, rest := CObject(d + CanonMembers(a)), Fold(a[0].name), a[1..];
    BelowAbsent(a[0].name, b);
    TidyTail(a);
    PatchedSkips(from, a, b);
    MapFacts(d, CanonMembers(rest), ka, CanonOf(a[0].value), CNull);
    var e := Remove([Key(a[0].name)]);
    assert Apply(c, e) == CObject(d + CanonMembers(rest));
    MemberEditsWork(from, rest, b, d);
    var es := MemberEdits(from, a, b);
    assert es[0] == e && es[1..] == MemberEdits(from, rest, b);
  }

  lemma {:induction false} ChangeWorks(from: Json, a: seq<Member>, b: seq<Member>, d: map<string, Canon>)
    requires From(from, a) && TidyMembers(a) && Strict(a) && TidyMembers(b) && Strict(b)
    requires d.Keys !! CanonMembers(a).Keys && d.Keys !! CanonMembers(b).Keys
    requires a != [] && b != [] && Diff(a, b) == 0
    ensures AllApplicable(CObject(d + CanonMembers(a)), MemberEdits(from, a, b))
    ensures ApplyAll(CObject(d + CanonMembers(a)), MemberEdits(from, a, b)) == CObject(d + PatchedMembers(from, a, b))
    decreases from, 0, |a| + |b|, 0
  {
    var c, key, s := CObject(d + CanonMembers(a)), Fold(a[0].name), Key(a[0].name);
    var x, p := CanonOf(a[0].value), Patched(a[0].value, b[0].value);
    CaseOrderTotal(a[0].name, b[0].name);
    TidyTail(a);
    TidyTail(b);
    PatchedSkips(from, a, b[1..]);
    PatchedKeys(from, a[1..], b[1..]);
    MapFacts(d, CanonMembers(a[1..]), key, x, p);
    MapFacts(d, PatchedMembers(from, a[1..], b[1..]), key, p, p);
    EditsWork(a[0].value, b[0].value);
    var first := EditsOf(a[0].value, b[0].value);
    assert Has(c, s) && Get(c, s) == x;
    ApplyUnder(c, s, first);
    var c' := CObject(d[key := p] + CanonMembers(a[1..]));
    assert Set(c, s, p) == c';
    MemberEditsWork(from, a[1..], b[1..], d[key := p]);
    ApplyConcat(c, AllUnder(s, first), MemberEdits(from, a[1..], b[1..]));
  }

  lemma {:induction false} ItemEditsWork(from: Json, to: Json, k: nat, done: seq<Canon>)
    requires from.Array? && to.Array? && Tidy(from) && Tidy(to)
    requires |done| == k <= |from.items| && k <= |to.items|
    ensures AllApplicable(CArray(done + CanonItems(from.items[k..])), ItemEdits(from, to, k))
    ensures ApplyAll(CArray(done + CanonItems(from.items[k..])), ItemEdits(from, to, k)) ==
              CArray(done + PatchedItems(from, to, k))
    decreases from, 0, |from.items| - k
  {
    if k < |from.items| && k < |to.items| {
      PairWorks(from, to, k, done);
    } else {
      SurplusWorks(from.items[k..], to.items[k..], done, |from.items|);
    }
  }

  lemma {:induction false} SurplusWorks(a: seq<Json>, b: seq<Json>, done: seq<Canon>, n: nat)
    requires (a == [] || b == []) && n == |done| + |a|
    ensures AllApplicable(CArray(done + CanonItems(a)), Removals(|done|, n) + Appends(b))
    ensures ApplyAll(CArray(done + CanonItems(a)), Removals(|done|, n) + Appends(b)) ==
              CArray(done + (CanonItems(Leftover(a)) + CanonItems(b)))
  {
    var left := done + CanonItems(Leftover(a));
    RemovalsWork(done, a, n);
    AppendsWork(left, b);
    ApplyConcat(CArray(done + CanonItems(a)), Removals(|done|, n), Appends(b));
    assert left + CanonItems(b) == done + (CanonItems(Leftover(a)) + CanonItems(b));
  }

  lemma {:induction false} PairWorks(from: Json, to: Json, k: nat, done: seq<Canon>)
    requires from.Array? && to.Array? && Tidy(from) && Tidy(to)
    requires |done| == k < |from.items| && k < |to.items|
    ensures AllApplicable(CArray(done + CanonItems(from.items[k..])), ItemEdits(from, to, k))
    ensures ApplyAll(CArray(done + CanonItems(from.items[k..])), ItemEdits(from, to, k)) ==
              CArray(done + PatchedItems(from, to, k))
    decreases from, 0, |from.items| - k, 0
  {
    hide AllApplicable, ApplyAll, Tidy, Patched, EditsOf, CanonItems, CanonOf, AllUnder, ItemEdits, PatchedItems;
    var rest := CanonItems(from.items[k + 1..]);
    var c, s := CArray(done + CanonItems(from.items[k..])), Index(k);
    var p, first := Patched(from.items[k], to.items[k]), EditsOf(from.items[k], to.items[k]);
    ItemHere(done, from.items, k, p);
    TidyParts(from);
    TidyParts(to);
    EditsWork(from.items[k], to.items[k]);
    ApplyUnder(c, s, first);
    ItemEditsWork(from, to, k + 1, done + [p]);
    ApplyConcat(c, AllUnder(s, first), ItemEdits(from, to, k + 1));
    PairUnfolds(from, to, k, done);
  }

  /** The item at the position that the walk has reached. */
  lemma {:induction false} ItemHere(done: seq<Canon>, items: seq<Json>, k: nat, p: Canon)
    requires |done| == k < |items|
    ensures var c := CArray(done + CanonItems(items[k..]));
            && Has(c, Index(k)) && Get(c, Index(k)) == CanonOf(items[k])
            && Set(c, Index(k), p) == CArray((done + [p]) + CanonItems(items[k + 1..]))
  {
    hide CanonItems, CanonOf;
    CanonItemsStep(items[k..]);
    assert items[k..][1..] == items[k + 1..];
    var c := done + CanonItems(items[k..]);
    assert c == done + ([CanonOf(items[k])] + CanonItems(items[k + 1..]));
    assert c[k := p] == (done + [p]) + CanonItems(items[k + 1..]);
  }

  lemma {:induction false} PairUnfolds(from: Json, to: Json, k: nat, done: seq<Canon>)
    requires from.Array? && to.Array? && k < |from.items| && k < |to.items|
    ensures ItemEdits(from, to, k) == AllUnder(Index(k), EditsOf(from.items[k], to.items[k])) +
              ItemEdits(from, to, k + 1)
    ensures (done + [Patched(from.items[k], to.items[k])]) + PatchedItems(from, to, k + 1) ==
              done + PatchedItems(from, to, k)
  {
  }

  /** Applying the edits between two trees gives the patched tree. */
  lemma {:induction false} EditsWork(from: Json, to: Json)
    requires Tidy(from) && Tidy(to)
    ensures AllApplicable(CanonOf(from), EditsOf(from, to))
    ensures ApplyAll(CanonOf(from), EditsOf(from, to)) == Patched(from, to)
    decreases from, 1, 0
  {
    if !SameKind(from, to) {
      ReplaceWorks(from, to);
    } else {
      match from {
        case Array(_) => ArrayWorks(from, to);
        case Object(_) => ObjectWorks(from, to);
        case _ => 
      }
    }
  }

  lemma {:induction false} ReplaceWorks(from: Json, to: Json)
    ensures AllApplicable(CanonOf(from), [Replace([], to)])
    ensures ApplyAll(CanonOf(from), [Replace([], to)]) == CanonOf(to)
  {
    assert [Replace([], to)][1..] == [];
  }

  lemma {:induction false} ArrayWorks(from: Json, to: Json)
    requires Tidy(from) && Tidy(to) && from.Array? && to.Array?
    ensures AllApplicable(CanonOf(from), EditsOf(from, to))
    ensures ApplyAll(CanonOf(from), EditsOf(from, to)) == Patched(from, to)
    decreases from, 0, |from.items| + 1
  {
    hide ItemEdits, PatchedItems, CanonItems, AllApplicable, ApplyAll, Tidy;
    assert from.items[0..] == from.items && [] + CanonItems(from.items) == CanonItems(from.items);
    assert [] + PatchedItems(from, to, 0) == PatchedItems(from, to, 0);
    ItemEditsWork(from, to, 0, []);
  }

  lemma {:induction false} ObjectWorks(from: Json, to: Json)
    requires Tidy(from) && Tidy(to) && from.Object? && to.Object?
    ensures AllApplicable(CanonOf(from), EditsOf(from, to))
    ensures ApplyAll(CanonOf(from), EditsOf(from, to)) == Patched(from, to)
    decreases from, 0, |from.members| + |to.members| + 1
  {
    hide MemberEdits, PatchedMembers, CanonMembers, AllApplicable, ApplyAll, Tidy, TidyMembers, Strict, SortedMembers,
        From;
    var a, b := SortedMembers(from.members), SortedMembers(to.members);
    TidyParts(from);
    TidyParts(to);
    SortedStrict(from.members);
    SortedStrict(to.members);
    SortedLength(from.members);
    SortedLength(to.members);
    SortedFrom(from);
    assert map[] + CanonMembers(a) == CanonMembers(a);
    assert map[] + PatchedMembers(from, a, b) == PatchedMembers(from, a, b);
    MemberEditsWork(from, a, b, map[]);
  }

  lemma {:induction false} SortedLength(members: seq<Member>)
    ensures |SortedMembers(members)| == |members|
  {
  }

  // When the result is the target

  /** No array that is compared shrinks by more than one item. */
  predicate Fits(from: Json, to: Json)
    decreases from, 0
  {
    match from
    case Array(items) =>
      to.Array? ==> |items| <= |to.items| + 1 && forall k | 0 <= k < |items| && k < |to.items| ::
          Fits(items[k], to.items[k])
    case Object(members) => to.Object? ==> forall i | 0 <= i < |members| ::
        FitsMember(members[i].value, Fold(members[i].name), to.members)
    case _ => true
  }

  /** The same for the counterparts of a member. */
  predicate FitsMember(v: Json, key: string, members: seq<Member>)
    decreases v, 1
  {
    forall j | 0 <= j < |members| :: Fold(members[j].name) == key ==> Fits(v, members[j].value)
  }

  lemma {:induction false} SeqConsEqual(x: Canon, s: seq<Canon>, y: Canon, t: seq<Canon>)
    ensures [x] + s == [y] + t <==> x == y && s == t
  {
    assert ([x] + s)[0] == x && ([x] + s)[1..] == s && ([y] + t)[0] == y && ([y] + t)[1..] == t;
  }

  lemma {:induction false} MapConsEqual(m: map<string, Canon>, n: map<string, Canon>, key: string, x: Canon, y: Canon)
    requires key !in m && key !in n
    ensures m[key := x] == n[key := y] <==> m == n && x == y
  {
    if m[key := x] == n[key := y] {
      assert m[key := x][key] == x && n[key := y][key] == y;
      assert m[key := x] - {key} == m && n[key := y] - {key} == n;
    }
  }

  /** The items from k on are patched to the target exactly if they fit. */
  lemma {:induction false} ItemsFit(from: Json, to: Json, k: nat)
    requires from.Array? && to.Array? && Tidy(from) && Tidy(to) && k <= |from.items| && k <= |to.items|
    ensures PatchedItems(from, to, k) == CanonItems(to.items[k..]) <==>
            |from.items| <= |to.items| + 1 && forall j | k <= j < |from.items| && j < |to.items| ::
                Fits(from.items[j], to.items[j])
    decreases from, 0, |from.items| - k
  {
    if k < |from.items| && k < |to.items| {
      TidyParts(from);
      TidyParts(to);
      PatchedIsTarget(from.items[k], to.items[k]);
      ItemsFit(from, to, k + 1);
      assert to.items[k..][1..] == to.items[k + 1..];
      SeqConsEqual(Patched(from.items[k], to.items[k]), PatchedItems(from, to, k + 1),
                   CanonOf(to.items[k]), CanonItems(to.items[k + 1..]));
    } else {
      var left, rest := CanonItems(Leftover(from.items[k..])), CanonItems(to.items[k..]);
      assert |left + rest| == |left| + |rest|;
      if |left| == 0 {
        assert left + rest == rest;
      }
    }
  }

  /** The members are patched to the target exactly if all counterparts fit. */
  lemma {:induction false} MembersFit(from: Json, a: seq<Member>, b: seq<Member>)
    requires From(from, a) && TidyMembers(a) && TidyMembers(b)
    ensures PatchedMembers(from, a, b) == CanonMembers(b) <==>
            forall i | 0 <= i < |a| :: FitsMember(a[i].value, Fold(a[i].name), b)
    decreases from, 0, |b|
  {
    if b != [] {
      var key, k, rest := Fold(b[0].name), Partner(a, Fold(b[0].name)), b[1..];
      CanonKeys(rest, key);
      PatchedKeys(from, a, rest);
      MembersFit(from, a, rest);
      var x := if k < |a| then PatchedMember(from, a, k, b[0].value) else CanonOf(b[0].value);
      MapConsEqual(PatchedMembers(from, a, rest), CanonMembers(rest), key, x, CanonOf(b[0].value));
      if k < |a| {
        assert a[k..][0] == a[k] && From(from, a[k..]);
        PatchedIsTarget(a[k].value, b[0].value);
      }
      FitsMemberCons(a, b, k);
    }
  }

  /** Only the partner of a member has to fit it. */
  lemma {:induction false} FitsMemberCons(a: seq<Member>, b: seq<Member>, k: nat)
    requires b != [] && k == Partner(a, Fold(b[0].name)) && Unlike(a)
    ensures (forall i | 0 <= i < |a| :: FitsMember(a[i].value, Fold(a[i].name), b)) <==>
            (k < |a| ==> Fits(a[k].value, b[0].value)) && forall i | 0 <= i < |a| ::
                FitsMember(a[i].value, Fold(a[i].name), b[1..])
  {
    forall i | 0 <= i < |a|
      ensures FitsMember(a[i].value, Fold(a[i].name), b) <==>
              (i == k ==> Fits(a[k].value, b[0].value)) && FitsMember(a[i].value, Fold(a[i].name), b[1..])
    {
      PartnerUnique(a, Fold(b[0].name), i);
    }
  }

  lemma {:induction false} PartnerUnique(a: seq<Member>, key: string, i: nat)
    requires Unlike(a) && i < |a|
    ensures Fold(a[i].name) == key <==> i == Partner(a, key)
    decreases |a|
  {
    if i > 0 {
      PartnerUnique(a[1..], key, i - 1);
    }
  }

  lemma {:induction false} FitsPermuted(a: seq<Member>, a': seq<Member>, b: seq<Member>, b': seq<Member>)
    requires multiset(a) == multiset(a') && multiset(b) == multiset(b')
    requires forall i | 0 <= i < |a| :: FitsMember(a[i].value, Fold(a[i].name), b)
    ensures forall i | 0 <= i < |a'| :: FitsMember(a'[i].value, Fold(a'[i].name), b')
  {
    forall i | 0 <= i < |a'|
      ensures FitsMember(a'[i].value, Fold(a'[i].name), b')
    {
      MemberOf(a', a, i);
      var k :| 0 <= k < |a| && a[k] == a'[i];
      forall j | 0 <= j < |b'|
        ensures Fold(b'[j].name) == Fold(a'[i].name) ==> Fits(a'[i].value, b'[j].value)
      {
        MemberOf(b', b, j);
        var l :| 0 <= l < |b| && b[l] == b'[j];
        assert FitsMember(a[k].value, Fold(a[k].name), b);
      }
    }
  }

  /** The patched tree is the target exactly if no compared array shrinks by more than one item. */
  lemma {:induction false} PatchedIsTarget(from: Json, to: Json)
    requires Tidy(from) && Tidy(to)
    ensures Patched(from, to) == CanonOf(to) <==> Fits(from, to)
    decreases from, 1, 0
  {
    if SameKind(from, to) {
      match from {
        case Array(items) =>
          assert to.items[0..] == to.items;
          ItemsFit(from, to, 0);
        case Object(members) => ObjectFits(from, to);
        case _ =>
      }
    }
  }

  lemma {:induction false} ObjectFits(from: Json, to: Json)
    requires Tidy(from) && Tidy(to) && from.Object? && to.Object?
    ensures Patched(from, to) == CanonOf(to) <==> Fits(from, to)
    decreases from, 0, |to.members| + 1
  {
    hide PatchedMembers, CanonMembers, Tidy, TidyMembers, Strict, SortedMembers, From, FitsMember;
    var a, b := SortedMembers(from.members), SortedMembers(to.members);
    TidyParts(from);
    TidyParts(to);
    SortedStrict(from.members);
    SortedStrict(to.members);
    SortedLength(to.members);
    SortedFrom(from);
    MembersFit(from, a, b);
    if Fits(from, to) {
      FitsPermuted(from.members, a, to.members, b);
    }
    if forall i | 0 <= i < |a| :: FitsMember(a[i].value, Fold(a[i].name), b) {
      FitsPermuted(a, from.members, b, to.members);
    }
  }

  // No edits

  /** There are no edits exactly between trees that are equal up to member order and the case of names. */
  lemma {:induction false} NoEditsIffEqual(from: Json, to: Json)
    requires Tidy(from) && Tidy(to)
    ensures EditsOf(from, to) == [] <==> CanonOf(from) == CanonOf(to)
    decreases from, 1, 0
  {
    if SameKind(from, to) {
      match from {
        case Array(_) => NoItemEdits(from, to, 0);
        case Object(_) => NoObjectEdits(from, to);
        case _ =>
      }
    }
  }

  lemma {:induction false} NoItemEdits(from: Json, to: Json, k: nat)
    requires from.Array? && to.Array? && Tidy(from) && Tidy(to) && k <= |from.items| && k <= |to.items|
    ensures ItemEdits(from, to, k) == [] <==> CanonItems(from.items[k..]) == CanonItems(to.items[k..])
    decreases from, 0, |from.items| - k
  {
    TidyParts(from);
    TidyParts(to);
    if k < |from.items| && k < |to.items| {
      NoEditsIffEqual(from.items[k], to.items[k]);
      NoItemEdits(from, to, k + 1);
      CanonItemsTail(from.items, k);
      CanonItemsTail(to.items, k);
      SeqConsEqual(CanonOf(from.items[k]), CanonItems(from.items[k + 1..]), CanonOf(to.items[k]),
        CanonItems(to.items[k + 1..]));
    }
  }

  lemma {:induction false} CanonItemsTail(items: seq<Json>, k: nat)
    requires k < |items|
    ensures CanonItems(items[k..]) == [CanonOf(items[k])] + CanonItems(items[k + 1..])
  {
    assert items[k..][1..] == items[k + 1..];
  }

  lemma {:induction false} NoObjectEdits(from: Json, to: Json)
    requires Tidy(from) && Tidy(to) && from.Object? && to.Object?
    ensures EditsOf(from, to) == [] <==> CanonOf(from) == CanonOf(to)
    decreases from, 0, |from.members| + |to.members| + 1
  {
    hide MemberEdits, Tidy, TidyMembers, Strict, SortedMembers, From, CanonMembers;
    TidyParts(from);
    TidyParts(to);
    SortedStrict(from.members);
    SortedStrict(to.members);
    SortedLength(from.members);
    SortedLength(to.members);
    SortedFrom(from);
    NoMemberEdits(from, SortedMembers(from.members), SortedMembers(to.members));
  }

  lemma {:induction false} NoMemberEdits(from: Json, a: seq<Member>, b: seq<Member>)
    requires From(from, a) && TidyMembers(a) && Strict(a) && TidyMembers(b) && Strict(b)
    ensures MemberEdits(from, a, b) == [] <==> CanonMembers(a) == CanonMembers(b)
    decreases from, 0, |a| + |b|
  {
    if a != [] || b != [] {
      if Diff(a, b) > 0 {
        OnlyRight(a, b);
      } else if Diff(a, b) < 0 {
        OnlyLeft(a, b);
      } else {
        NoPairEdits(from, a, b);
      }
    }
  }

  lemma {:induction false} OnlyRight(a: seq<Member>, b: seq<Member>)
    requires TidyMembers(a) && Strict(a) && TidyMembers(b) && b != [] && Diff(a, b) > 0
    ensures CanonMembers(a) != CanonMembers(b)
  {
    if a != [] {
      CaseOrderTotal(a[0].name, b[0].name);
    }
    BelowAbsent(b[0].name, a);
    assert Fold(b[0].name) in CanonMembers(b);
  }

  lemma {:induction false} OnlyLeft(a: seq<Member>, b: seq<Member>)
    requires TidyMembers(b) && Strict(b) && TidyMembers(a) && a != [] && Diff(a, b) < 0
    ensures CanonMembers(a) != CanonMembers(b)
  {
    BelowAbsent(a[0].name, b);
    assert Fold(a[0].name) in CanonMembers(a);
  }

  lemma {:induction false} NoPairEdits(from: Json, a: seq<Member>, b: seq<Member>)
    requires From(from, a) && TidyMembers(a) && Strict(a) && TidyMembers(b) && Strict(b)
    requires (a != [] || b != []) && Diff(a, b) == 0
    ensures MemberEdits(from, a, b) == [] <==> CanonMembers(a) == CanonMembers(b)
    decreases from, 0, |a| + |b|, 0
  {
    hide Tidy, EditsOf, Fold;
    TidyTail(a);
    TidyTail(b);
    CaseOrderTotal(a[0].name, b[0].name);
    NoEditsIffEqual(a[0].value, b[0].value);
    NoMemberEdits(from, a[1..], b[1..]);
    MapConsEqual(CanonMembers(a[1..]), CanonMembers(b[1..]), Fold(a[0].name), CanonOf(a[0].value), CanonOf(b[0].value));
  }
}
