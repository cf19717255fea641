/** JSON values up to member order and the case of member names, and edits on them. */
module Canon {
  import opened CaseOrder
  import opened CaseSort
  import opened Json

  /** A value without member order; members are indexed by their folded names. */
  datatype Canon =
    | CNull
    | CFalse
    | CTrue
    | CNumber(valueint: int, valuedouble: real)
    | CText(s: string)
    | CArray(items: seq<Canon>)
    | CObject(members: map<string, Canon>)

  function CanonOf(v: Json): (c: Canon)
    decreases v, 0
  {
    match v
    case Null => CNull
    case False => CFalse
    case True => CTrue
    case Number(i, d) => CNumber(i, d)
    case String(s) => CText(s)
    case Array(items) => CArray(CanonItems(items))
    case Object(members) => CObject(CanonMembers(members))
  }

  function CanonItems(items: seq<Json>): (c: seq<Canon>)
    ensures |c| == |items|
    decreases items
  {
    if items == [] then [] else [CanonOf(items[0])] + CanonItems(items[1..])
  }

  function CanonMembers(members: seq<Member>): (c: map<string, Canon>)
    decreases members
  {
    if members == [] then map[]
    else CanonMembers(members[1..])[Fold(members[0].name) := CanonOf(members[0].value)]
  }

  /** The names of members differ, ignoring case. */
  predicate Unlike(members: seq<Member>) {
    forall i, j | 0 <= i < j < |members| :: Fold(members[i].name) != Fold(members[j].name)
  }

  lemma {:induction false} CanonItemsAt(items: seq<Json>, k: nat)
    requires k < |items|
    ensures CanonItems(items)[k] == CanonOf(items[k])
    decreases k
  {
    if k > 0 {
      CanonItemsAt(items[1..], k - 1);
    }
  }

  lemma {:induction false} CanonItemsStep(items: seq<Json>)
    ensures CanonItems(items) == if items == [] then [] else [CanonOf(items[0])] + CanonItems(items[1..])
  {
  }

  lemma {:induction false} CanonItemsConcat(a: seq<Json>, b: seq<Json>)
    ensures CanonItems(a + b) == CanonItems(a) + CanonItems(b)
    decreases |a|
  {
    hide CanonItems, CanonOf;
    CanonItemsStep(a);
    if a == [] {
      assert a + b == b && [] + CanonItems(b) == CanonItems(b);
    } else {
      CanonItemsConcat(a[1..], b);
      assert (a + b)[0] == a[0] && (a + b)[1..] == a[1..] + b;
      CanonItemsStep(a + b);
      assert [CanonOf(a[0])] + (CanonItems(a[1..]) + CanonItems(b)) ==
               ([CanonOf(a[0])] + CanonItems(a[1..])) + CanonItems(b);
    }
  }

  /** The domain of a canonical object. */
  lemma {:induction false} CanonKeys(members: seq<Member>, key: string)
    ensures key in CanonMembers(members) <==> exists i :: 0 <= i < |members| && Fold(members[i].name) == key
    decreases |members|
  {
    if members != [] {
      CanonKeys(members[1..], key);
      if key in CanonMembers(members[1..]) {
        var i :| 0 <= i < |members[1..]| && Fold(members[1..][i].name) == key;
        assert Fold(members[i + 1].name) == key;
      }
      if i :| 0 <= i < |members| && Fold(members[i].name) == key {
        if i > 0 {
          assert members[1..][i - 1] == members[i];
        }
      }
    }
  }

  lemma {:induction false} CanonLookup(members: seq<Member>, i: nat)
    requires Unlike(members) && i < |members|
    ensures Fold(members[i].name) in CanonMembers(members)
    ensures CanonMembers(members)[Fold(members[i].name)] == CanonOf(members[i].value)
    decreases |members|
  {
    if i > 0 {
      CanonLookup(members[1..], i - 1);
    }
  }

  /** A map that has the keys and the values of the members is their canonical map. */
  lemma {:induction false} CanonMembersIs(members: seq<Member>, m: map<string, Canon>)
    requires Unlike(members)
    requires forall i | 0 <= i < |members| :: Fold(members[i].name) in m
               && m[Fold(members[i].name)] == CanonOf(members[i].value)
    requires forall k | k in m :: exists i :: 0 <= i < |members| && Fold(members[i].name) == k
    ensures CanonMembers(members) == m
  {
    forall k
      ensures k in m <==> k in CanonMembers(members)
      ensures k in m ==> m[k] == CanonMembers(members)[k]
    {
      CanonKeys(members, k);
      if k in m {
        var i :| 0 <= i < |members| && Fold(members[i].name) == k;
        CanonLookup(members, i);
      }
    }
  }

  /** Member order does not matter. */
  lemma {:induction false} CanonPermuted(s: seq<Member>, t: seq<Member>)
    requires Unlike(s) && Unlike(t) && multiset(s) == multiset(t)
    ensures CanonMembers(s) == CanonMembers(t)
  {
    var m := CanonMembers(t);
    forall i | 0 <= i < |s|
      ensures Fold(s[i].name) in m && m[Fold(s[i].name)] == CanonOf(s[i].value)
    {
      MemberOf(s, t, i);
      var j :| 0 <= j < |t| && t[j] == s[i];
      CanonLookup(t, j);
    }
    forall k | k in m
      ensures exists i :: 0 <= i < |s| && Fold(s[i].name) == k
    {
      CanonKeys(t, k);
      var j :| 0 <= j < |t| && Fold(t[j].name) == k;
      MemberOf(t, s, j);
    }
    CanonMembersIs(s, m);
  }

  lemma {:induction false} CanonMembersStep(members: seq<Member>)
    ensures CanonMembers(members) ==
            if members == [] then map[]
                else CanonMembers(members[1..])[Fold(members[0].name) := CanonOf(members[0].value)]
  {
  }

  lemma {:induction false} CanonMembersConcat(a: seq<Member>, b: seq<Member>)
    requires Unlike(a + b)
    ensures CanonMembers(a + b) == CanonMembers(a) + CanonMembers(b)
    decreases |a|
  {
    hide CanonMembers, CanonOf;
    CanonMembersStep(a);
    if a == [] {
      assert a + b == b;
      assert CanonMembers(a) + CanonMembers(b) == CanonMembers(b);
    } else {
      var m, n, key, x := CanonMembers(a[1..]), CanonMembers(b), Fold(a[0].name), CanonOf(a[0].value);
      assert (a + b)[0] == a[0] && (a + b)[1..] == a[1..] + b;
      CanonMembersStep(a + b);
      CanonMembersConcat(a[1..], b);
      CanonKeys(b, key);
      assert forall i | 0 <= i < |b| :: (a + b)[|a| + i] == b[i];
      assert (m + n)[key := x] == m[key := x] + n;
    }
  }

  // Edits

  datatype Step = Index(k: nat) | Key(name: string)

  type Path = seq<Step>

  /** An edit of a tree; Append names an array, the others name what they put, remove or add. */
  datatype Edit =
    | Replace(at: Path, value: Json)
    | Remove(at: Path)
    | Add(at: Path, value: Json)
    | Append(at: Path, value: Json)

  /** There is a child at this step. */
  predicate Has(c: Canon, s: Step) {
    match s
    case Index(k) => c.CArray? && k < |c.items|
    case Key(name) => c.CObject? && Fold(name) in c.members
  }

  function Get(c: Canon, s: Step): (r: Canon)
    requires Has(c, s)
  {
    match s
    case Index(k) => c.items[k]
    case Key(name) => c.members[Fold(name)]
  }

  function Set(c: Canon, s: Step, x: Canon): (r: Canon)
    requires Has(c, s)
    ensures Has(r, s) && Get(r, s) == x
  {
    match s
    case Index(k) => CArray(c.items[k := x])
    case Key(name) => CObject(c.members[Fold(name) := x])
  }

  /** The same kind of container as the step needs, whether or not the child exists. */
  predicate Suits(c: Canon, s: Step) {
    if s.Index? then c.CArray? else c.CObject?
  }

  function Drop(c: Canon, s: Step): (r: Canon)
    requires Suits(c, s)
    ensures Suits(r, s)
  {
    if !Has(c, s) then c
    else
      match s
      case Index(k) => CArray(c.items[..k] + c.items[k + 1..])
      case Key(name) => CObject(c.members - {Fold(name)})
  }

  /** The edit concerns something below the first step of its path. */
  predicate Deep(e: Edit) {
    |e.at| > if e.Remove? || e.Add? then 1 else 0
  }

  function Tail(e: Edit): (r: Edit)
    requires e.at != []
  {
    e.(at := e.at[1..])
  }

  predicate Applicable(c: Canon, e: Edit)
    decreases |e.at|
  {
    if Deep(e) then Has(c, e.at[0]) && Applicable(Get(c, e.at[0]), Tail(e))
    else
      match e
      case Replace(_, _) => true
      case Remove(at) => at != [] && Suits(c, at[0])
      case Add(at, _) => at != [] && at[0].Key? && c.CObject?
      case Append(_, _) => c.CArray?
  }

  /** What an edit means. */
  function Apply(c: Canon, e: Edit): (r: Canon)
    requires Applicable(c, e)
    decreases |e.at|
  {
    if Deep(e) then Set(c, e.at[0], Apply(Get(c, e.at[0]), Tail(e)))
    else
      match e
      case Replace(_, v) => CanonOf(v)
      case Remove(at) => Drop(c, at[0])
      case Add(at, v) => CObject(c.members[Fold(at[0].name) := CanonOf(v)])
      case Append(_, v) => CArray(c.items + [CanonOf(v)])
  }

  predicate AllApplicable(c: Canon, es: seq<Edit>)
    decreases |es|
  {
    es != [] ==> Applicable(c, es[0]) && AllApplicable(Apply(c, es[0]), es[1..])
  }

  function ApplyAll(c: Canon, es: seq<Edit>): (r: Canon)
    requires AllApplicable(c, es)
    decreases |es|
  {
    if es == [] then c else ApplyAll(Apply(c, es[0]), es[1..])
  }

  lemma {:induction false} ApplyConcat(c: Canon, a: seq<Edit>, b: seq<Edit>)
    requires AllApplicable(c, a) && AllApplicable(ApplyAll(c, a), b)
    ensures AllApplicable(c, a + b) && ApplyAll(c, a + b) == ApplyAll(ApplyAll(c, a), b)
    decreases |a|
  {
    if a == [] {
      assert a + b == b;
    } else {
      assert (a + b)[0] == a[0] && (a + b)[1..] == a[1..] + b;
      ApplyConcat(Apply(c, a[0]), a[1..], b);
    }
  }

  function Under(s: Step, e: Edit): (r: Edit) {
    e.(at := [s] + e.at)
  }

  function AllUnder(s: Step, es: seq<Edit>): (r: seq<Edit>)
    ensures |r| == |es|
  {
    if es == [] then [] else [Under(s, es[0])] + AllUnder(s, es[1..])
  }

  /** A path is long enough to name something. */
  predicate Named(e: Edit) {
    e.Remove? || e.Add? ==> e.at != []
  }

  lemma {:induction false} SetSet(c: Canon, s: Step, x: Canon, y: Canon)
    requires Has(c, s)
    ensures Set(Set(c, s, x), s, y) == Set(c, s, y)
  {
  }

  /** Edits under a step act on the child at that step, and on nothing else. */
  lemma {:induction false} ApplyUnder(c: Canon, s: Step, es: seq<Edit>)
    requires Has(c, s) && AllApplicable(Get(c, s), es)
    ensures AllApplicable(c, AllUnder(s, es))
    ensures ApplyAll(c, AllUnder(s, es)) == Set(c, s, ApplyAll(Get(c, s), es))
    decreases |es|
  {
    if es == [] {
    } else {
      var e, x := es[0], Get(c, s);
      assert ([s] + e.at)[1..] == e.at;
      assert Tail(Under(s, e)) == e && Deep(Under(s, e));
      var c' := Set(c, s, Apply(x, e));
      ApplyUnder(c', s, es[1..]);
      SetSet(c, s, Apply(x, e), ApplyAll(Apply(x, e), es[1..]));
      var us := AllUnder(s, es);
      assert us[0] == Under(s, e) && us[1..] == AllUnder(s, es[1..]);
    }
  }

}
