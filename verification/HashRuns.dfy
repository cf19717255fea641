/**
 Whole runs of a uthash table: a run refines an insertion-ordered map from keys
 to elements, and the table grows until growth is inhibited for good.
 */
module HashRuns {
  import opened Lists
  import opened HashStructure
  import opened UtHash
  import HashExpand
  import SortSpec

  datatype Op = Insert(e: Elem, key: string) | Remove(e: Elem) | Reorder(cmp: (Elem, Elem) -> int)

  /** What one operation does to the map from keys to elements. */
  ghost function Step(m: map<string, Elem>, op: Op): (m': map<string, Elem>) {
    match op
    case Insert(e, key) => m[key := e]
    case Remove(e) => map k | k in m && m[k] != e :: m[k]
    case Reorder(_) => m
  }

  /** What uthash demands: an added element and its key are not in the table, a deleted element is. */
  ghost predicate Allowed(m: map<string, Elem>, op: Op) {
    match op
    case Insert(e, key) => e !in m.Values && key !in m
    case Remove(e) => e in m.Values
    case Reorder(_) => true
  }

  /** The map a run leads to from m: what has been added and not deleted since. */
  ghost function Replay(m: map<string, Elem>, ops: seq<Op>): (m': map<string, Elem>) {
    if ops == [] then m else Step(Replay(m, ops[..|ops| - 1]), ops[|ops| - 1])
  }

  ghost predicate Legal(m: map<string, Elem>, ops: seq<Op>) {
    ops != [] ==> Legal(m, ops[..|ops| - 1]) && Allowed(Replay(m, ops[..|ops| - 1]), ops[|ops| - 1])
  }

  /** s without the first e. */
  ghost function Dropped(s: seq<Elem>, e: Elem): (r: seq<Elem>) {
    if s == [] then [] else if s[0] == e then s[1..] else [s[0]] + Dropped(s[1..], e)
  }

  /** What one operation does to the application order. */
  ghost function Arranged(s: seq<Elem>, op: Op): (s': seq<Elem>) {
    match op
    case Insert(e, _) => s + [e]
    case Remove(e) => Dropped(s, e)
    case Reorder(cmp) => SortSpec.Sort(cmp, s, 1)
  }

  /** The application order a run leads to from s. */
  ghost function Order(s: seq<Elem>, ops: seq<Op>): (s': seq<Elem>) {
    if ops == [] then s else Arranged(Order(s, ops[..|ops| - 1]), ops[|ops| - 1])
  }

  ghost predicate NeverEmpty(s: seq<Elem>, ops: seq<Op>) {
    Order(s, ops) != [] && (ops != [] ==> NeverEmpty(s, ops[..|ops| - 1]))
  }

  ghost predicate Mentions(ops: seq<Op>, elems: set<Elem>) {
    forall i | 0 <= i < |ops| :: !ops[i].Reorder? ==> ops[i].e in elems
  }

  /** The table holds exactly the entries of m. */
  ghost predicate Refines(items: seq<Elem>, m: map<string, Elem>)
    reads items`key
  {
    && (forall i | 0 <= i < |items| :: items[i].key in m && m[items[i].key] == items[i])
    && (forall k | k in m :: m[k] in items && m[k].key == k)
  }

  /** What a table has allocated. */
  ghost function Footprint(h: Hash): (own: set<object>)
    reads h, h.view.table
  {
    if h.view.table == null then {} else var t: object, b: object := h.view.table, h.view.table.buckets; {t, b}
  }

  /** The table h is intact, holds the entries of m, and lies within elems and own. */
  ghost predicate Holds(h: Hash, m: map<string, Elem>, elems: set<Elem>, own: set<object>)
    reads h, h.view.table, elems, own
  {
    && (forall i | 0 <= i < |h.view.items| :: h.view.items[i] in elems)
    && h.view.hv.Keys <= elems
    && Footprint(h) <= own
    && h.Valid()
    && Refines(h.view.items, m)
  }

  ghost function GrowthIn(h: Hash): (g: Growth)
    reads h, h.view.table
  {
    if h.view.table == null then Growth(0, 0, 0, 0, []) else GrowthOf(h.view.table)
  }

  /** How a table may have grown since: expansions are only added, and none once they are inhibited. */
  ghost predicate Later(g: Growth, g': Growth) {
    g.expansions <= g'.expansions && (g.noexpand == 1 ==> g' == g)
  }

  lemma RemoveRefines(items: seq<Elem>, m: map<string, Elem>, k: nat)
    requires Refines(items, m) && Distinct(items) && k < |items|
    ensures Refines(Without(items, k), Step(m, Op.Remove(items[k])))
    ensures forall i | 0 <= i < |Without(items, k)| :: Without(items, k)[i] in items
  {
    DistinctAt(items);
    RemovedMembers(items, k);
    var r := Without(items, k);
    forall x | x in m && m[x] != items[k]
      ensures m[x] in r
    {
      assert m[x] in Members(items);
      assert m[x] in Members(r);
    }
    forall i | 0 <= i < |r|
      ensures r[i] in items && r[i] != items[k]
    {
      assert r[i] in Members(r);
    }
  }

  lemma {:induction false} NewIn(items: seq<Elem>, m: map<string, Elem>, e: Elem)
    requires Refines(items, m) && e !in m.Values
    ensures e !in items
  {
  }

  lemma {:induction false} InsertRefines(items: seq<Elem>, m: map<string, Elem>, e: Elem)
    requires Refines(items, m) && e.key !in m
    ensures Refines(items + [e], m[e.key := e])
  {
    var items', m' := items + [e], m[e.key := e];
    forall i | 0 <= i < |items'|
      ensures items'[i].key in m' && m'[items'[i].key] == items'[i]
    {
      assert i < |items| ==> items[i].key in m;
    }
  }

  lemma {:induction false} WithoutStep(items: seq<Elem>, k: nat)
    requires 0 < k < |items|
    ensures Without(items, k) == [items[0]] + Without(items[1..], k - 1)
  {
    assert items[1..][k - 1 + 1..] == items[k + 1..];
  }

  lemma {:induction false} DroppedAt(items: seq<Elem>, k: nat)
    requires k < |items| && forall i | 0 <= i < k :: items[i] != items[k]
    ensures Dropped(items, items[k]) == Without(items, k)
  {
    if k > 0 {
      hide Without;
      DroppedAt(items[1..], k - 1);
      WithoutStep(items, k);
    }
  }

  lemma ReorderRefines(items: seq<Elem>, out: seq<Elem>, m: map<string, Elem>)
    requires Refines(items, m) && multiset(out) == multiset(items)
    ensures Refines(out, m) && forall i | 0 <= i < |out| :: out[i] in items
  {
    forall i | 0 <= i < |out|
      ensures out[i] in items
    {
      assert out[i] in multiset(out);
    }
    forall k | k in m
      ensures m[k] in out
    {
      assert m[k] in multiset(items);
    }
  }

  lemma TableDistinct(h: Hash)
    requires h.Valid()
    ensures Distinct(h.view.items)
  {
  }

  lemma {:induction false} TableStands(h: Hash)
    requires h.Valid()
    ensures h.view.table == null <==> h.view.items == []
  {
  }

  method AddTo(h: Hash, e: Elem, key: string, ghost elems: set<Elem>, ghost own: set<object>)
    requires h.Valid() && e !in h.view.items && h.view.hv.Keys <= elems && Footprint(h) <= own && e in elems
    modifies h, elems, own
    ensures h.Valid() && h.view.items == old(h.view.items) + [e] && e.key == key
    ensures h.view.hv.Keys <= elems
    ensures forall x | x in old(h.view.items) :: x.key == old(x.key)
    ensures fresh(Footprint(h) - own) && h.view.table != null
    ensures if old(h.view.table) == null then fresh(h.view.table)
            else h.view.table == old(h.view.table) && Later(old(GrowthIn(h)), GrowthIn(h))
  {
    hide Intact, Full, HashExpand.Effective;
    h.Add(e, key);
  }

  method Insert(h: Hash, e: Elem, key: string, ghost m: map<string, Elem>, ghost elems: set<Elem>,
                ghost own: set<object>)
    returns (ghost own': set<object>)
    requires Holds(h, m, elems, own) && e in elems && e !in m.Values && key !in m
    modifies h, elems, own
    ensures Holds(h, m[key := e], elems, own') && fresh(own' - own)
    ensures h.view.items == old(h.view.items) + [e]
    ensures if old(h.view.table) == null then fresh(h.view.table)
            else h.view.table == old(h.view.table) && Later(old(GrowthIn(h)), GrowthIn(h))
  {
    hide Refines, Intact, Later;
    NewIn(h.view.items, m, e);
    AddTo(h, e, key, elems, own);
    InsertRefines(old(h.view.items), m, e);
    own' := own + Footprint(h);
  }

  method RemoveFrom(h: Hash, e: Elem, ghost m: map<string, Elem>, ghost elems: set<Elem>, ghost own: set<object>)
    requires h.Valid() && e in h.view.items && h.view.hv.Keys <= elems && Footprint(h) <= own
    requires Distinct(h.view.items) && Refines(h.view.items, m)
    modifies h, elems, own
    ensures h.Valid() && h.view.hv.Keys <= elems && Footprint(h) <= own
    ensures Refines(h.view.items, Step(m, Op.Remove(e)))
    ensures forall i | 0 <= i < |h.view.items| :: h.view.items[i] in old(h.view.items)
    ensures h.view.items == Dropped(old(h.view.items), e)
    ensures h.view.table == null || (h.view.table == old(h.view.table) && GrowthIn(h) == old(GrowthIn(h)))
  {
    hide Intact, Without, Lists.Distinct, Refines, Step, Dropped;
    FirstAt(h.view.items, e);
    ghost var i :| 0 <= i < |h.view.items| && h.view.items[i] == e
        && Dropped(h.view.items, e) == Without(h.view.items, i);
    RemoveRefines(h.view.items, m, i);
    h.Delete(e, i);
  }

  lemma {:induction false} FirstAt(items: seq<Elem>, e: Elem)
    requires e in items && Distinct(items)
    ensures exists i :: 0 <= i < |items| && items[i] == e && Dropped(items, e) == Without(items, i)
  {
    DistinctAt(items);
    var i :| 0 <= i < |items| && items[i] == e;
    DroppedAt(items, i);
  }

  method Remove(h: Hash, e: Elem, ghost m: map<string, Elem>, ghost elems: set<Elem>, ghost own: set<object>)
    requires Holds(h, m, elems, own) && e in m.Values
    modifies h, elems, own
    ensures Holds(h, Step(m, Op.Remove(e)), elems, own) && h.view.items == Dropped(old(h.view.items), e)
    ensures h.view.table == null || (h.view.table == old(h.view.table) && GrowthIn(h) == old(GrowthIn(h)))
  {
    TableDistinct(h);
    hide Intact, Lists.Distinct, Refines, Step, Dropped;
    RemoveFrom(h, e, m, elems, own);
  }

  method Reorder(h: Hash, cmp: (Elem, Elem) -> int, ghost m: map<string, Elem>, ghost elems: set<Elem>,
                 ghost own: set<object>)
    requires Holds(h, m, elems, own)
    modifies h, elems, own
    ensures Holds(h, m, elems, own) && h.view.items == SortSpec.Sort(cmp, old(h.view.items), 1)
    ensures h.view.table == old(h.view.table) && GrowthIn(h) == old(GrowthIn(h))
  {
    hide Intact, Refines, SortSpec.Sort;
    ghost var out := SortSpec.Sort(cmp, h.view.items, 1);
    SortSpec.SortPermutes(cmp, h.view.items, 1);
    ReorderRefines(h.view.items, out, m);
    h.Sort(cmp);
  }

  /** One operation: the entries, the order, and what becomes of the table header. */
  method Apply(h: Hash, op: Op, ghost m: map<string, Elem>, ghost elems: set<Elem>, ghost own: set<object>)
    returns (ghost own': set<object>)
    requires Holds(h, m, elems, own) && Allowed(m, op) && (!op.Reorder? ==> op.e in elems)
    modifies h, elems, own
    ensures Holds(h, Step(m, op), elems, own') && fresh(own' - own)
    ensures h.view.items == Arranged(old(h.view.items), op)
    ensures if old(h.view.table) != null && h.view.table == old(h.view.table) then Later(old(GrowthIn(h)), GrowthIn(h))
            else h.view.table == null || fresh(h.view.table)
    ensures h.view.table == null <==> h.view.items == []
    ensures old(h.view.table) != null && h.view.items != [] ==> h.view.table == old(h.view.table)
  {
    hide Holds;
    match op {
      case Insert(e, key) =>
        own' := Insert(h, e, key, m, elems, own);
      case Remove(e) =>
        Remove(h, e, m, elems, own);
        own' := own;
      case Reorder(cmp) =>
        Reorder(h, cmp, m, elems, own);
        own' := own;
    }
    Stands(h, Step(m, op), elems, own');
  }

  lemma {:induction false} Stands(h: Hash, m: map<string, Elem>, elems: set<Elem>, own: set<object>)
    requires Holds(h, m, elems, own)
    ensures h.view.table == null <==> h.view.items == []
  {
    TableStands(h);
  }

  lemma {:induction false} LegalPrefix(m: map<string, Elem>, ops: seq<Op>, i: nat)
    requires Legal(m, ops) && i < |ops|
    ensures Allowed(Replay(m, ops[..i]), ops[i])
    ensures Replay(m, ops[..i + 1]) == Step(Replay(m, ops[..i]), ops[i])
  {
    assert ops[..i + 1][..i] == ops[..i];
    if i < |ops| - 1 {
      LegalPrefix(m, ops[..|ops| - 1], i);
      assert ops[..|ops| - 1][..i] == ops[..i];
    }
  }

  lemma {:induction false} OrderPrefix(s: seq<Elem>, ops: seq<Op>, i: nat)
    requires i < |ops|
    ensures Order(s, ops[..i + 1]) == Arranged(Order(s, ops[..i]), ops[i])
    ensures NeverEmpty(s, ops) ==> Order(s, ops[..i + 1]) != []
  {
    assert ops[..i + 1][..i] == ops[..i];
    if i < |ops| - 1 {
      OrderPrefix(s, ops[..|ops| - 1], i);
      assert ops[..|ops| - 1][..i + 1] == ops[..i + 1];
    } else {
      assert ops[..i + 1] == ops;
    }
  }

  /**
   Any legal run from a table in use. While the table lasts, which it does if it
   is never emptied, expansions are only added, and none once they are inhibited.
   */
  method RunOn(h: Hash, ops: seq<Op>, ghost m: map<string, Elem>, ghost elems: set<Elem>, ghost own: set<object>)
    returns (ghost own': set<object>)
    requires Holds(h, m, elems, own) && Legal(m, ops) && Mentions(ops, elems)
    modifies h, elems, own
    ensures Holds(h, Replay(m, ops), elems, own') && fresh(own' - own)
    ensures h.view.items == Order(old(h.view.items), ops)
    ensures old(h.view.table) != null && NeverEmpty(old(h.view.items), ops) ==> h.view.table == old(h.view.table)
    ensures old(h.view.table) != null && h.view.table == old(h.view.table) ==> Later(old(GrowthIn(h)), GrowthIn(h))
  {
    ghost var s, t, g := h.view.items, h.view.table, GrowthIn(h);
    own' := own;
    assert ops[..0] == [] && ops[..|ops|] == ops;
    assert Replay(m, ops[..0]) == m && Order(s, ops[..0]) == s && Later(g, g);
    hide Holds, Replay, Legal, Step, Allowed, Order, Arranged, NeverEmpty, GrowthIn;
    for i := 0 to |ops|
      invariant Holds(h, Replay(m, ops[..i]), elems, own') && fresh(own' - own)
      invariant h.view.items == Order(s, ops[..i])
      invariant t != null && NeverEmpty(s, ops) ==> h.view.table == t
      invariant t != null && h.view.table == t ==> Later(g, GrowthIn(h))
    {
      LegalPrefix(m, ops, i);
      OrderPrefix(s, ops, i);
      own' := Apply(h, ops[i], Replay(m, ops[..i]), elems, own');
    }
  }

  /**
   After any legal run from an empty table, finding a key gives exactly the element added under it and not
   deleted since, and the elements stand in the order of the run.
   */
  method Run(hash: string -> nat, ops: seq<Op>, key: string, ghost elems: set<Elem>) returns (h: Hash, found: Elem?)
    requires Legal(map[], ops) && Mentions(ops, elems)
    modifies elems
    ensures h.Valid() && Refines(h.view.items, Replay(map[], ops)) && h.view.items == Order([], ops)
    ensures found == if key in Replay(map[], ops) then Replay(map[], ops)[key] else null
  {
    hide Replay, Order, Legal, Intact, Later;
    h := new Hash(hash);
    assert Holds(h, map[], elems, {});
    ghost var own := RunOn(h, ops, map[], elems, {});
    found := h.Find(key);
  }
}
