/**
 The hash table of uthash.h as its users see it: the head pointer, and the
 macros that find, add and delete elements through it.
 */
module UtHash {
  import opened Bits
  import opened Lists
  import opened HashStructure
  import HashBuckets
  import HashExpand
  import HashSort
  import HashCheck
  import SortSpec

  /** An addition finds its bucket full and expansion is not inhibited. */
  predicate Triggers(count: nat, expandMult: nat, noexpand: nat) {
    count >= (expandMult + 1) * BKT_CAPACITY_THRESH && noexpand != 1
  }

  /** After an expansion a chain is within the ideal length, or its multiplier says how many times over it is. */
  lemma {:induction false} MultiplierBounds(count: nat, ideal: nat)
    requires ideal > 0
    ensures var m := HashExpand.Multiplier(count, ideal);
            if count <= ideal then m == 0 else m >= 1 && m * ideal <= count < (m + 1) * ideal
  {
    DivBounds(count, ideal);
  }

  /**
   What an expansion leaves behind: each bucket's multiplier says between which
   multiples of the ideal its length lies.
   */
  lemma {:induction false} RatedBounds(t: Table, hv: map<Elem, nat>, chains: seq<seq<Elem>>, numItems: nat,
                                       oldLog2: nat)
    requires Indexed(t, hv, chains) && HashExpand.Rated(t, chains, numItems, oldLog2)
    ensures forall b | 0 <= b < t.buckets.Length ::
              var k, ideal := t.buckets[b], t.idealChainMaxlen;
              if k.count <= ideal then k.expandMult == 0
              else k.expandMult >= 1 && k.expandMult * ideal <= k.count < (k.expandMult + 1) * ideal
  {
    forall b | 0 <= b < t.buckets.Length
      ensures t.buckets[b].count == |chains[b]| && t.buckets[b].expandMult ==
                HashExpand.Multiplier(|chains[b]|, t.idealChainMaxlen)
    {
    }
    forall b | 0 <= b < t.buckets.Length {
      MultiplierBounds(|chains[b]|, t.idealChainMaxlen);
    }
  }

  /** No bucket is at its trigger, provided the last expansion found an ideal chain length below the threshold. */
  ghost predicate Settled(t: Table)
    reads t`buckets, t`idealChainMaxlen, t`noexpand, t.buckets
  {
    t.idealChainMaxlen <= 9 ==>
      forall b | 0 <= b < t.buckets.Length :: !Triggers(t.buckets[b].count, t.buckets[b].expandMult, t.noexpand)
  }

  /** The growth of a table so far. */
  datatype Growth = Growth(buckets: nat, ideal: nat, nonideal: nat, noexpand: nat, expansions: seq<bool>)

  ghost function GrowthOf(t: Table): (g: Growth)
    reads t`numBuckets, t`idealChainMaxlen, t`nonidealItems, t`noexpand, t`expansions
  {
    Growth(t.numBuckets, t.idealChainMaxlen, t.nonidealItems, t.noexpand, t.expansions)
  }

  /**
   One addition to a bucket: growth by one doubling if the bucket is full, and none
   otherwise. A second ineffective expansion in a row ends the growth.
   */
  ghost predicate Grows(g: Growth, full: bool, effective: bool, g': Growth) {
    if full then
      && g.noexpand != 1
      && g'.buckets == 2 * g.buckets
      && g'.expansions == g.expansions + [effective]
      && g'.noexpand == if !effective && g.expansions != [] && !g.expansions[|g.expansions| - 1] then 1 else 0
    else g' == g
  }

  /** The bucket that a hash value selects is at its trigger with one element more. */
  ghost predicate Full(t: Table, chains: seq<seq<Elem>>, hashv: nat)
    requires 0 < |chains| == t.buckets.Length
    reads t`buckets, t`noexpand, t.buckets
  {
    var b := hashv % |chains|;
    Triggers(|chains[b]| + 1, t.buckets[b].expandMult, t.noexpand)
  }

  /**
   An expansion leaves no bucket at its trigger, whatever the chains, exactly if
   the ideal length is below the threshold.
   */
  lemma {:induction false} QuietIffIdealSmall(ideal: nat)
    requires ideal > 0
    ensures (forall count: nat :: !Triggers(count, HashExpand.Multiplier(count, ideal), 0)) <==> ideal <= 9
  {
    if ideal <= 9 {
      forall count: nat
        ensures !Triggers(count, HashExpand.Multiplier(count, ideal), 0)
      {
        MultiplierBounds(count, ideal);
        var m := HashExpand.Multiplier(count, ideal);
        assert (m + 1) * ideal <= (m + 1) * 9;
      }
    } else {
      assert Triggers(ideal, HashExpand.Multiplier(ideal, ideal), 0);
    }
  }

  /** Growth is inhibited exactly after two ineffective expansions in a row. */
  lemma {:induction false} NoExpandAfterTwo(t: Table)
    requires Judged(t)
    ensures t.noexpand == 1 <==>
            |t.expansions| >= 2 && !t.expansions[|t.expansions| - 1] && !t.expansions[|t.expansions| - 2]
  {
    var s := t.expansions;
    if |s| >= 1 && !s[|s| - 1] {
      assert Trailing(s) == Trailing(s[..|s| - 1]) + 1;
      if |s| >= 2 {
        assert s[..|s| - 1][|s| - 2] == s[|s| - 2];
      }
    }
  }

  lemma {:induction false} GrowthJudged(t: Table)
    requires GrowthOk(t)
    ensures t.noexpand <= 1
    ensures t.noexpand == 1 <==>
            |t.expansions| >= 2 && !t.expansions[|t.expansions| - 1] && !t.expansions[|t.expansions| - 2]
  {
    NoExpandAfterTwo(t);
  }

  /** An expansion that finds an ideal length below the threshold leaves no bucket of the table at its trigger. */
  lemma {:induction false} RatedSettled(t: Table, hv: map<Elem, nat>, chains: seq<seq<Elem>>, numItems: nat,
                                        oldLog2: nat)
    requires Indexed(t, hv, chains) && HashExpand.Rated(t, chains, numItems, oldLog2)
    ensures Settled(t)
  {
    var ideal := t.idealChainMaxlen;
    QuietIffIdealSmall(ideal);
    forall b | 0 <= b < t.buckets.Length
      ensures t.buckets[b].count == |chains[b]| && t.buckets[b].expandMult == HashExpand.Multiplier(|chains[b]|, ideal)
      ensures ideal <= 9 ==> !Triggers(|chains[b]|, HashExpand.Multiplier(|chains[b]|, ideal), 0)
    {
    }
  }

  /** The expansion that a full bucket calls for. */
  method ExpandFull(t: Table, ghost hv: map<Elem, nat>, ghost chains: seq<seq<Elem>>)
    returns (ghost made: seq<seq<Elem>>)
    requires Indexed(t, hv, chains) && GrowthOk(t)
    requires t.noexpand != 1 && t.numItems > 0
    modifies t`buckets, t`numBuckets, t`log2NumBuckets, t`idealChainMaxlen, t`nonidealItems
    modifies t`ineffExpands, t`noexpand, t`expansions, hv.Keys`hhPrev, hv.Keys`hhNext
    ensures Indexed(t, hv, made) && GrowthOk(t) && Settled(t) && fresh(t.buckets)
    ensures HashExpand.MadeFrom(hv, chains, made) && HashExpand.Rated(t, made, t.numItems, old(t.log2NumBuckets))
    ensures Grows(old(GrowthOf(t)), true, HashExpand.Effective(made, t.idealChainMaxlen, t.numItems), GrowthOf(t))
  {
    hide Indexed, HashExpand.MadeFrom, HashExpand.Rated, GrowthOk, HashExpand.Effective, Settled;
    GrowthJudged(t);
    made := HashExpand.Expand(t, hv, chains);
    GrowthJudged(t);
    RatedSettled(t, hv, made, t.numItems, old(t.log2NumBuckets));
  }

  /** HASH_ADD_TO_BKT up to the test for a full bucket. */
  method PushInto(t: Table, e: Elem, b: nat, ghost hv: map<Elem, nat>, ghost chains: seq<seq<Elem>>)
    returns (full: bool)
    requires Indexed(t, hv, chains) && Settled(t)
    requires e !in hv && b < |chains| && b == e.hashv % |chains|
    modifies t.buckets, hv.Keys`hhPrev, e`hhPrev, e`hhNext
    ensures Indexed(t, hv[e := e.hashv], HashBuckets.Pushed(chains, b, e))
    ensures forall j | 0 <= j < |chains| :: t.buckets[j].expandMult == old(t.buckets[j].expandMult)
    ensures full == old(Full(t, chains, e.hashv)) && (full ==> t.noexpand != 1) && (!full ==> Settled(t))
  {
    hide Spread, Linked, Hashed;
    HashBuckets.PushFront(t, e, b, hv, chains);
    full := t.buckets[b].count >= (t.buckets[b].expandMult + 1) * BKT_CAPACITY_THRESH && t.noexpand != 1;
  }

  /** HASH_ADD_TO_BKT: a full bucket makes the table expand; otherwise nothing but the bucket changes. */
  method AddToBucket(t: Table, e: Elem, b: nat, ghost hv: map<Elem, nat>, ghost chains: seq<seq<Elem>>)
    returns (ghost chains': seq<seq<Elem>>)
    requires Indexed(t, hv, chains) && GrowthOk(t) && Settled(t)
    requires e !in hv && b < |chains| && b == e.hashv % |chains| && t.numItems > 0
    modifies t`buckets, t`numBuckets, t`log2NumBuckets, t`idealChainMaxlen, t`nonidealItems
    modifies t`ineffExpands, t`noexpand, t`expansions
    modifies t.buckets, hv.Keys`hhPrev, hv.Keys`hhNext, e`hhPrev, e`hhNext
    ensures Indexed(t, hv[e := e.hashv], chains') && GrowthOk(t) && Settled(t)
    ensures Grows(old(GrowthOf(t)), old(Full(t, chains, e.hashv)),
                  HashExpand.Effective(chains', t.idealChainMaxlen, t.numItems), GrowthOf(t))
    ensures if old(Full(t, chains, e.hashv))
            then fresh(t.buckets)
                 && HashExpand.MadeFrom(hv[e := e.hashv], HashBuckets.Pushed(chains, b, e), chains')
                 && HashExpand.Rated(t, chains', t.numItems, old(t.log2NumBuckets))
            else t.buckets == old(t.buckets) && chains' == HashBuckets.Pushed(chains, b, e)
                 && forall j | 0 <= j < |chains| :: t.buckets[j].expandMult == old(t.buckets[j].expandMult)
  {
    hide Spread, Linked, Hashed, HashExpand.MadeFrom, HashExpand.Rated, GrowthOk, HashExpand.Effective, Settled, Full;
    var full := PushInto(t, e, b, hv, chains);
    chains' := HashBuckets.Pushed(chains, b, e);
    if full {
      chains' := ExpandFull(t, hv[e := e.hashv], chains');
    }
  }

  /** The application-order list: head, tail and count agree with the elements. */
  ghost predicate Ordered(head: Elem?, t: Table, items: seq<Elem>)
    reads t`tail, t`numItems, items`prev, items`next, items`tbl
  {
    && items != []
    && Distinct(items)
    && AppList(items)
    && head == items[0]
    && t.tail == items[|items| - 1]
    && t.numItems == |items|
    && forall i | 0 <= i < |items| :: items[i].tbl == t
  }

  /** Hash values are those of the keys. */
  ghost predicate Keyed(hv: map<Elem, nat>, hash: string -> nat)
    reads hv.Keys`key
  {
    forall e | e in hv :: hv[e] == hash(e.key)
  }

  /** HASH_ADD_KEYPTR, the list half, when the table exists. */
  method AppendToList(head: Elem, t: Table, add: Elem, ghost items: seq<Elem>)
    requires Ordered(head, t, items) && add !in items && add.next == null
    modifies t`tail, t`numItems, items`next, add`prev, add`tbl
    ensures Ordered(head, t, items + [add])
  {
    DistinctPush(add, items);
    DistinctAt(items);
    t.tail.next := add;
    add.prev := t.tail;
    t.tail := add;
    t.numItems := t.numItems + 1;
    add.tbl := t;
    ghost var items' := items + [add];
    forall i | 0 <= i < |items'|
      ensures items'[i].prev == At(items', i - 1) && items'[i].next == At(items', i + 1)
    {
      if i < |items| {
        assert old(items[i].next) == At(items, i + 1) && items[i].prev == At(items, i - 1);
      }
    }
  }

  /** The neighbours of an element in the list, and the elements they are not. */
  lemma {:induction false} Neighbours(items: seq<Elem>, k: int)
    requires AppList(items) && Distinct(items) && 0 <= k < |items|
    ensures items[k].prev == At(items, k - 1) && items[k].next == At(items, k + 1)
    ensures k > 0 ==> forall i | 0 <= i < |items| && i != k - 1 :: items[i] != items[k - 1]
    ensures k + 1 < |items| ==> forall i | 0 <= i < |items| && i != k + 1 :: items[i] != items[k + 1]
  {
    DistinctAt(items);
  }

  /** The list closes over the element at position k. */
  lemma {:induction false} ClosedOver(items: seq<Elem>, k: int)
    requires 0 <= k < |items|
    requires forall i {:trigger items[i].prev} | 0 <= i < |items| && i != k ::
               items[i].prev == At(items, if i == k + 1 then k - 1 else i - 1)
    requires forall i {:trigger items[i].next} | 0 <= i < |items| && i != k ::
               items[i].next == At(items, if i == k - 1 then k + 1 else i + 1)
    ensures AppList(Without(items, k))
  {
    var r := Without(items, k);
    forall i | 0 <= i < |r|
      ensures r[i].prev == At(r, i - 1) && r[i].next == At(r, i + 1)
    {
      var j := if i < k then i else i + 1;
      assert r[i] == items[j];
      assert items[j].prev == At(items, if j == k + 1 then k - 1 else j - 1);
      assert items[j].next == At(items, if j == k - 1 then k + 1 else j + 1);
    }
  }

  /** The changes HASH_DELETE makes to the links of the list. */
  method Unlink(head: Elem, del: Elem, ghost items: seq<Elem>, ghost k: nat) returns (head': Elem?)
    requires AppList(items) && Distinct(items) && k < |items| && items[k] == del && head == items[0]
    modifies items`next, items`prev
    ensures AppList(Without(items, k)) && head' == At(Without(items, k), 0)
  {
    hide Distinct, Without;
    Neighbours(items, k);
    FirstLeft(items, k);
    head' := Bypass(head, del, items, k);
    ClosedOver(items, k);
  }

  lemma {:induction false} FirstLeft(items: seq<Elem>, k: nat)
    requires k < |items|
    ensures At(Without(items, k), 0) == if k > 0 then items[0] else At(items, 1)
  {
  }

  method Bypass(head: Elem, del: Elem, ghost items: seq<Elem>, ghost k: int) returns (head': Elem?)
    requires 0 <= k < |items| && items[k] == del && head == items[0]
    requires del.prev == At(items, k - 1) && del.next == At(items, k + 1)
    requires k > 0 ==> forall i | 0 <= i < |items| && i != k - 1 :: items[i] != items[k - 1]
    requires k + 1 < |items| ==> forall i | 0 <= i < |items| && i != k + 1 :: items[i] != items[k + 1]
    modifies items`next, items`prev
    ensures forall i {:trigger items[i].prev} | 0 <= i < |items| && i != k ::
              items[i].prev == if i == k + 1 then At(items, k - 1) else old(items[i].prev)
    ensures forall i {:trigger items[i].next} | 0 <= i < |items| && i != k ::
              items[i].next == if i == k - 1 then At(items, k + 1) else old(items[i].next)
    ensures head' == if k > 0 then items[0] else At(items, 1)
  {
    if del.prev != null {
      del.prev.next := del.next;
      head' := head;
    } else {
      head' := del.next;
    }
    if del.next != null {
      del.next.prev := del.prev;
    }
  }

  lemma RemovedDistinct(items: seq<Elem>, k: nat)
    requires Distinct(items) && k < |items|
    ensures Distinct(Without(items, k))
  {
    DistinctWithout(items, k);
  }

  lemma RemovedMembers(items: seq<Elem>, k: nat)
    requires Distinct(items) && k < |items|
    ensures Members(Without(items, k)) == Members(items) - {items[k]}
  {
    DistinctAt(items);
    var r := Without(items, k);
    forall x | x in Members(items) - {items[k]}
      ensures x in Members(r)
    {
      var i :| 0 <= i < |items| && items[i] == x;
      assert x == r[if i < k then i else i - 1];
    }
    forall i | 0 <= i < |r|
      ensures r[i] in Members(items) - {items[k]}
    {
      assert r[i] == items[if i < k then i else i + 1];
    }
  }

  /** What the tail becomes: the predecessor of the deleted element if that was the tail. */
  lemma TailAfter(head: Elem, t: Table, items: seq<Elem>, k: nat)
    requires Ordered(head, t, items) && |items| > 1 && k < |items|
    ensures var r := Without(items, k);
            && |r| == |items| - 1
            && (if items[k] == t.tail then items[k].prev else t.tail) == r[|r| - 1]
            && At(r, 0) == r[0]
            && forall i | 0 <= i < |r| :: r[i].tbl == t
  {
    DistinctAt(items);
    assert items[k].prev == At(items, k - 1);
  }

  /** HASH_DELETE, the list half, when other elements remain. */
  method UnlinkFromList(head: Elem, t: Table, del: Elem, ghost items: seq<Elem>, ghost k: nat, ghost r: seq<Elem>)
    returns (head': Elem?)
    requires Ordered(head, t, items) && |items| > 1
    requires k < |items| && items[k] == del && r == Without(items, k)
    modifies t`tail, t`numItems, items`next, items`prev
    ensures head' != null && Ordered(head', t, r)
  {
    TailAfter(head, t, items, k);
    RemovedDistinct(items, k);
    hide AppList, Distinct, Without;
    t.tail := if del == t.tail then del.prev else t.tail;
    head' := Unlink(head, del, items, k);
    t.numItems := t.numItems - 1;
  }

  /** HASH_ADD_KEYPTR when there is no table yet. */
  method StartTable(add: Elem) returns (t: Table)
    requires add.next == null
    modifies add`prev, add`tbl
    ensures fresh(t) && fresh(t.buckets) && Ordered(add, t, [add])
    ensures Indexed(t, map[], HashExpand.Empties(t.numBuckets)) && GrowthOk(t) && Settled(t)
    ensures GrowthOf(t) == Growth(INITIAL_NUM_BUCKETS, 0, 0, 0, []) && add.prev == null
  {
    add.prev := null;
    t := new Table(add);
    add.tbl := t;
    t.numItems := t.numItems + 1;
    HashExpand.EmptyChains(t.numBuckets, 1);
    assert Pow2(5) == 32;
  }

  /** The hash values are given for the elements of the list and no others. */
  ghost predicate Valued(items: seq<Elem>, hv: map<Elem, nat>) {
    |hv| == |items| && forall i | 0 <= i < |items| :: items[i] in hv
  }

  /**
   Everything HASH_FSCK checks and more: the list and the chains are linked both
   ways, the counts agree, the tail is the last element, each element sits in the
   bucket of its key, and no bucket is overdue for an expansion.
   */
  ghost predicate Intact(head: Elem, t: Table, hash: string -> nat, items: seq<Elem>, hv: map<Elem, nat>,
                         chains: seq<seq<Elem>>)
    reads t, t.buckets, items`prev, items`next, items`tbl
    reads hv.Keys`key, hv.Keys`hashv, hv.Keys`hhPrev, hv.Keys`hhNext
  {
    && Valued(items, hv)
    && Ordered(head, t, items)
    && Indexed(t, hv, chains)
    && GrowthOk(t)
    && Settled(t)
    && Keyed(hv, hash)
  }

  /** The last part of HASH_ADD_KEYPTR: the element enters the bucket of its key. */
  method EnterBucket(t: Table, add: Elem, hashv: nat, ghost hv: map<Elem, nat>, ghost chains: seq<seq<Elem>>)
    returns (ghost chains': seq<seq<Elem>>)
    requires Indexed(t, hv, chains) && GrowthOk(t) && Settled(t)
    requires add !in hv && t.numItems > 0
    modifies t`buckets, t`numBuckets, t`log2NumBuckets, t`idealChainMaxlen, t`nonidealItems
    modifies t`ineffExpands, t`noexpand, t`expansions
    modifies t.buckets, hv.Keys`hhPrev, hv.Keys`hhNext, add`hashv, add`hhPrev, add`hhNext
    ensures Indexed(t, hv[add := hashv], chains') && GrowthOk(t) && Settled(t)
    ensures t.buckets == old(t.buckets) || fresh(t.buckets)
    ensures Grows(old(GrowthOf(t)), old(Full(t, chains, hashv)),
                  HashExpand.Effective(chains', t.idealChainMaxlen, t.numItems), GrowthOf(t))
  {
    hide GrowthOk, Spread, Hashed, Linked, Settled, Full, Grows, HashExpand.MadeFrom, HashExpand.Rated,
        HashExpand.Effective;
    add.hashv := hashv;
    var b := ToBucket(add.hashv, t.numBuckets, t.log2NumBuckets);
    chains' := AddToBucket(t, add, b, hv, chains);
  }

  /** The first part of HASH_ADD_KEYPTR: the element enters the list. */
  method LinkNext(head: Elem, t: Table, add: Elem, key: string, hash: string -> nat, ghost items: seq<Elem>,
                  ghost hv: map<Elem, nat>)
    requires Ordered(head, t, items) && Valued(items, hv) && Keyed(hv, hash) && add !in hv
    modifies t`tail, t`numItems, add`next, add`prev, add`tbl, add`key, hv.Keys`next
    ensures Ordered(head, t, items + [add]) && Valued(items + [add], hv[add := hash(key)])
    ensures Keyed(hv[add := hash(key)], hash) && add.key == key && t.numItems == |items| + 1
  {
    add.next := null;
    add.key := key;
    assert Keyed(hv[add := hash(key)], hash);
    hide Keyed;
    AppendToList(head, t, add, items);
  }

  /** HASH_ADD_KEYPTR into an existing table. */
  method AddNext(head: Elem, t: Table, add: Elem, key: string, hash: string -> nat, ghost items: seq<Elem>,
                 ghost hv: map<Elem, nat>, ghost chains: seq<seq<Elem>>)
    returns (ghost chains': seq<seq<Elem>>)
    requires Intact(head, t, hash, items, hv, chains) && add !in hv && 0 < |chains| == t.buckets.Length
    modifies t, t.buckets, add, hv.Keys`next, hv.Keys`hhPrev, hv.Keys`hhNext
    ensures Intact(head, t, hash, items + [add], hv[add := hash(key)], chains')
    ensures add.key == key && add.connected == old(add.connected)
    ensures t.buckets == old(t.buckets) || fresh(t.buckets)
    ensures Grows(old(GrowthOf(t)), old(Full(t, chains, hash(key))),
                  HashExpand.Effective(chains', t.idealChainMaxlen, |items| + 1), GrowthOf(t))
  {
    hide Indexed, GrowthOk, Keyed, Ordered, Valued, Settled, Grows, Full, HashExpand.Effective;
    LinkNext(head, t, add, key, hash, items, hv);
    chains' := EnterBucket(t, add, hash(key), hv, chains);
  }

  lemma OnlyFacts(e: Elem, hash: string -> nat)
    ensures Keyed(map[e := hash(e.key)], hash) && Valued([e], map[e := hash(e.key)])
  {
  }

  /** HASH_ADD_KEYPTR when the table is empty. */
  method AddFirst(add: Elem, key: string, hash: string -> nat)
    returns (t: Table, ghost hv: map<Elem, nat>, ghost chains: seq<seq<Elem>>)
    modifies add
    ensures Intact(add, t, hash, [add], hv, chains)
    ensures add.key == key && add.connected == old(add.connected)
    ensures hv == map[add := hash(key)] && fresh(t) && fresh(t.buckets)
    ensures GrowthOf(t) == Growth(INITIAL_NUM_BUCKETS, 0, 0, 0, [])
  {
    hide Indexed, GrowthOk, Keyed, Ordered, Valued, Settled;
    add.next := null;
    add.key := key;
    t := StartTable(add);
    hv := map[add := hash(key)];
    OnlyFacts(add, hash);
    assert map[][add := hash(key)] == hv;
    chains := EnterBucket(t, add, hash(key), map[], HashExpand.Empties(t.numBuckets));
  }

  lemma ValuedShrink(items: seq<Elem>, hv: map<Elem, nat>, k: nat)
    requires Valued(items, hv) && Distinct(items) && k < |items|
    ensures Valued(Without(items, k), hv - {items[k]})
  {
    DistinctAt(items);
    assert (hv - {items[k]}).Keys == hv.Keys - {items[k]};
  }

  /** HASH_DELETE, the bucket half. */
  method LeaveBucket(t: Table, del: Elem, ghost hv: map<Elem, nat>, ghost chains: seq<seq<Elem>>)
    returns (ghost chains': seq<seq<Elem>>)
    requires Indexed(t, hv, chains) && Settled(t) && del in hv
    modifies t.buckets, hv.Keys`hhPrev, hv.Keys`hhNext
    ensures Indexed(t, hv - {del}, chains') && Settled(t)
  {
    SpreadIsComplete(hv, chains, del);
    assert del.hashv == hv[del];
    hide Spread, Linked, Hashed;
    var b := ToBucket(del.hashv, t.numBuckets, t.log2NumBuckets);
    ghost var i :| 0 <= i < |chains[b]| && chains[b][i] == del;
    HashBuckets.DeleteInBucket(t, del, b, i, hv, chains);
    chains' := chains[b := Without(chains[b], i)];
  }

  lemma ShrinkFacts(head: Elem, t: Table, hash: string -> nat, items: seq<Elem>, hv: map<Elem, nat>, k: nat)
    requires Ordered(head, t, items) && Valued(items, hv) && Keyed(hv, hash) && k < |items|
    ensures Valued(Without(items, k), hv - {items[k]}) && Keyed(hv - {items[k]}, hash)
    ensures forall i | 0 <= i < |items| :: items[i] in hv
  {
    ValuedShrink(items, hv, k);
  }

  /** HASH_DELETE when other elements remain. */
  method DeleteFrom(head: Elem, t: Table, del: Elem, ghost hash: string -> nat, ghost items: seq<Elem>, ghost k: nat,
                    ghost hv: map<Elem, nat>, ghost chains: seq<seq<Elem>>)
    returns (head': Elem?, ghost chains': seq<seq<Elem>>)
    requires Intact(head, t, hash, items, hv, chains)
    requires |items| > 1 && k < |items| && items[k] == del
    modifies t`tail, t`numItems, t.buckets, hv.Keys`next, hv.Keys`prev, hv.Keys`hhPrev, hv.Keys`hhNext
    ensures head' != null && Intact(head', t, hash, Without(items, k), hv - {del}, chains')
  {
    hide Indexed, GrowthOk, Settled, Keyed, Ordered, Valued, Without;
    ShrinkFacts(head, t, hash, items, hv, k);
    head' := UnlinkFromList(head, t, del, items, k, Without(items, k));
    chains' := LeaveBucket(t, del, hv, chains);
  }

  lemma ValuedOnly(items: seq<Elem>, hv: map<Elem, nat>, e: Elem)
    requires Valued(items, hv) && Distinct(items) && e !in items
    ensures e !in hv
  {
    MembersSize(items);
    SubsetOfSameSize(Members(items), hv.Keys);
  }

  /** HASH_FIND in an existing table. */
  method FindIn(head: Elem, key: string, hash: string -> nat, ghost t: Table, ghost items: seq<Elem>,
                ghost hv: map<Elem, nat>, ghost chains: seq<seq<Elem>>)
    returns (out: Elem?)
    requires Intact(head, t, hash, items, hv, chains)
    ensures out != null ==> out in items && out.key == key
    ensures out == null ==> forall e | e in items :: e.key != key
  {
    assert head == items[0] && head.tbl == t;
    var bkt := ToBucket(hash(key), head.tbl.numBuckets, head.tbl.log2NumBuckets);
    assert Chain(t.buckets[bkt].head, chains[bkt]);
    out := HashBuckets.FindInBucket(head.tbl.buckets[bkt].head, key, chains[bkt]);
    if out == null {
      forall e | e in items
        ensures e.key != key
      {
        SpreadIsComplete(hv, chains, e);
      }
    } else if out !in items {
      ValuedOnly(items, hv, out);
    }
  }

  /** The test by which HASH_DELETE recognizes the last element of a table. */
  lemma OnlyElement(head: Elem, t: Table, hash: string -> nat, items: seq<Elem>, hv: map<Elem, nat>,
                    chains: seq<seq<Elem>>, k: nat)
    requires Intact(head, t, hash, items, hv, chains) && k < |items|
    ensures head.tbl == t
    ensures items[k].prev == null && items[k].next == null <==> |items| == 1
    ensures |items| == 1 ==> Without(items, k) == []
  {
    assert items[k].prev == At(items, k - 1) && items[k].next == At(items, k + 1);
    assert items[0].tbl == t;
  }

  /** A permutation of the elements has the hash values and the table of the elements. */
  lemma Permuted(items: seq<Elem>, out: seq<Elem>, hv: map<Elem, nat>, t: Table)
    requires multiset(out) == multiset(items) && |out| == |items|
    ensures Valued(items, hv) ==> Valued(out, hv)
    ensures (forall i | 0 <= i < |items| :: items[i].tbl == t) ==> forall i | 0 <= i < |out| :: out[i].tbl == t
  {
    forall i | 0 <= i < |out|
      ensures exists j :: 0 <= j < |items| && items[j] == out[i]
    {
      assert out[i] in multiset(out);
    }
  }

  /** HASH_SRT on the list of a table. */
  method SortOrder(cmp: (Elem, Elem) -> int, head: Elem, t: Table, ghost items: seq<Elem>, ghost hv: map<Elem, nat>)
    returns (head': Elem)
    requires Ordered(head, t, items) && Valued(items, hv)
    modifies items`next, items`prev, t`tail
    ensures Ordered(head', t, SortSpec.Sort(cmp, items, 1)) && Valued(SortSpec.Sort(cmp, items, 1), hv)
  {
    ghost var out;
    SortSpec.SortPermutes(cmp, items, 1);
    Permuted(items, SortSpec.Sort(cmp, items, 1), hv, t);
    hide AppList, Distinct, SortSpec.Sort;
    head', out := HashSort.SortList(cmp, head, t, items);
  }

  /** HASH_SRT on a table: everything but the order is as before. */
  method SortTable(cmp: (Elem, Elem) -> int, head: Elem, t: Table, ghost hash: string -> nat, ghost items: seq<Elem>,
                   ghost hv: map<Elem, nat>, ghost chains: seq<seq<Elem>>)
    returns (head': Elem)
    requires Intact(head, t, hash, items, hv, chains)
    modifies items`next, items`prev, t`tail
    ensures Intact(head', t, hash, SortSpec.Sort(cmp, items, 1), hv, chains)
  {
    hide Indexed, GrowthOk, Settled, Keyed, Ordered, Valued, SortSpec.Sort;
    head' := SortOrder(cmp, head, t, items, hv);
  }

  /** The table is found through the head, and an element outside the list is not in the table. */
  lemma NewElement(head: Elem, t: Table, hash: string -> nat, items: seq<Elem>, hv: map<Elem, nat>,
                   chains: seq<seq<Elem>>, e: Elem)
    requires Intact(head, t, hash, items, hv, chains)
    ensures head.tbl == t && (e !in items ==> e !in hv) && 0 < |chains| == t.buckets.Length
  {
    assert head == items[0] && items[0].tbl == t;
    if e !in items {
      ValuedOnly(items, hv, e);
    }
  }

  lemma NothingToSort(cmp: (Elem, Elem) -> int)
    ensures SortSpec.Sort(cmp, [], 1) == []
  {
  }

  /** What is known of a table: its header, its elements in application order, their hash values and the chains. */
  datatype View = View(table: Table?, items: seq<Elem>, hv: map<Elem, nat>, chains: seq<seq<Elem>>)

  class Hash {
    const hash: string -> nat
    var head: Elem?
    ghost var view: View

    ghost predicate Valid()
      reads this, view.table, if view.table == null then {} else {view.table.buckets}
      reads view.items`prev, view.items`next, view.items`tbl
      reads view.hv.Keys`key, view.hv.Keys`hashv, view.hv.Keys`hhPrev, view.hv.Keys`hhNext
    {
      if head == null then view == View(null, [], map[], [])
      else view.table != null && Intact(head, view.table, hash, view.items, view.hv, view.chains)
    }

    constructor (hash: string -> nat)
      ensures Valid() && view == View(null, [], map[], []) && this.hash == hash
    {
      this.hash := hash;
      head := null;
      view := View(null, [], map[], []);
    }

    /** HASH_FIND */
    method Find(key: string) returns (out: Elem?)
      requires Valid()
      ensures out != null ==> out in view.items && out.key == key
      ensures out == null ==> forall e | e in view.items :: e.key != key
    {
      out := null;
      if head != null {
        out := FindIn(head, key, hash, view.table, view.items, view.hv, view.chains);
      }
    }

    /** HASH_ADD_KEYPTR */
    method Add(add: Elem, key: string)
      requires Valid() && add !in view.items
      modifies this, add, view.table, if view.table == null then {} else {view.table.buckets}
      modifies view.hv.Keys`next, view.hv.Keys`hhPrev, view.hv.Keys`hhNext
      ensures Valid()
      ensures view.items == old(view.items) + [add] && add.key == key && add.connected == old(add.connected)
      ensures view.table != null && view.hv.Keys == old(view.hv.Keys) + {add}
      ensures if old(view.table) == null then fresh(view.table) && fresh(view.table.buckets)
              else view.table == old(view.table) &&
                   (view.table.buckets == old(view.table.buckets) || fresh(view.table.buckets))
      ensures if old(view.table) == null then GrowthOf(view.table) == Growth(INITIAL_NUM_BUCKETS, 0, 0, 0, [])
              else Grows(old(GrowthOf(view.table)), old(Full(view.table, view.chains, hash(key))),
                         HashExpand.Effective(view.chains, view.table.idealChainMaxlen, |view.items|),
                         GrowthOf(view.table))
    {
      hide Intact, Grows, Full, HashExpand.Effective;
      if head != null {
        NewElement(head, view.table, hash, view.items, view.hv, view.chains, add);
      }
      if head == null {
        var t;
        ghost var hv, c;
        t, hv, c := AddFirst(add, key, hash);
        head := add;
        view := View(t, [add], hv, c);
      } else {
        ghost var c := AddNext(head, head.tbl, add, key, hash, view.items, view.hv, view.chains);
        view := View(view.table, view.items + [add], view.hv[add := hash(key)], c);
      }
    }

    /** HASH_DELETE; k is where the element stands in application order. */
    method Delete(del: Elem, ghost k: nat)
      requires Valid() && k < |view.items| && view.items[k] == del
      modifies this, view.table, if view.table == null then {} else {view.table.buckets}
      modifies view.hv.Keys`next, view.hv.Keys`prev, view.hv.Keys`hhPrev, view.hv.Keys`hhNext
      ensures Valid()
      ensures view.items == Without(old(view.items), k)
      ensures if |old(view.items)| == 1 then view.table == null
              else view.table == old(view.table) != null && view.table.buckets == old(view.table.buckets)
                   && GrowthOf(view.table) == old(GrowthOf(view.table))
      ensures view.hv.Keys <= old(view.hv.Keys)
    {
      hide Intact, Without;
      OnlyElement(head, view.table, hash, view.items, view.hv, view.chains, k);
      if del.prev == null && del.next == null {
        head := null;
        view := View(null, [], map[], []);
      } else {
        var head';
        ghost var c;
        head', c := DeleteFrom(head, head.tbl, del, hash, view.items, k, view.hv, view.chains);
        head := head';
        view := View(view.table, Without(view.items, k), view.hv - {del}, c);
      }
    }

    /** HASH_SRT; SortSpec.StableSort says what the new order is. */
    method Sort(cmp: (Elem, Elem) -> int)
      requires Valid()
      modifies this, view.items`next, view.items`prev, (if view.table == null then {} else {view.table})`tail
      ensures Valid()
      ensures view == old(view).(items := SortSpec.Sort(cmp, old(view.items), 1))
    {
      hide Intact, SortSpec.Sort;
      if head == null {
        NothingToSort(cmp);
      } else {
        NewElement(head, view.table, hash, view.items, view.hv, view.chains, head);
        head := SortTable(cmp, head, head.tbl, hash, view.items, view.hv, view.chains);
        view := view.(items := SortSpec.Sort(cmp, view.items, 1));
      }
    }

    /** HASH_FSCK: the integrity checker accepts the table. */
    method Fsck() returns (ok: bool)
      requires Valid()
      ensures ok
    {
      ok := true;
      if head != null {
        hide Intact, HashCheck.Sound;
        SoundTable(head, view.table, hash, view.items, view.hv, view.chains);
        ok := HashCheck.Fsck(head, head.tbl, view.hv.Keys);
        assert HashCheck.Sound(head, head.tbl, view.hv.Keys, view.items, view.chains);
      }
    }
  }

  /** An intact table is sound. */
  lemma {:induction false} SoundTable(head: Elem, t: Table, hash: string -> nat, items: seq<Elem>, hv: map<Elem, nat>,
                                      chains: seq<seq<Elem>>)
    requires Intact(head, t, hash, items, hv, chains)
    ensures HashCheck.Sound(head, t, hv.Keys, items, chains)
    ensures HashCheck.Closed(HashCheck.ChainLinks(hv.Keys)) && HashCheck.Closed(HashCheck.ListLinks(hv.Keys))
    ensures head in hv && head.tbl == t && t.numBuckets == t.buckets.Length
    ensures forall b | 0 <= b < t.numBuckets :: t.buckets[b].head == null || t.buckets[b].head in hv
  {
    hide HashCheck.Sound, HashCheck.Closed, HashCheck.ChainLinks, HashCheck.ListLinks;
    hide Indexed, Settled, GrowthOk, Keyed;
    SoundList(head, t, items, hv);
    SoundChains(t, hv, chains);
    SoundParts(head, t, hv.Keys, items, chains);
  }

  lemma {:induction false} SoundParts(head: Elem, t: Table, u: set<Elem>, items: seq<Elem>, chains: seq<seq<Elem>>)
    requires HashCheck.Threaded(HashCheck.ListLinks(u), head, items) && |items| == t.numItems
    requires HashCheck.BucketsSound(t, u, chains)
    ensures HashCheck.Sound(head, t, u, items, chains)
  {
  }

  lemma {:induction false} SoundList(head: Elem, t: Table, items: seq<Elem>, hv: map<Elem, nat>)
    requires Valued(items, hv) && Ordered(head, t, items)
    ensures HashCheck.Threaded(HashCheck.ListLinks(hv.Keys), head, items)
    ensures HashCheck.Closed(HashCheck.ListLinks(hv.Keys))
  {
    MembersSize(items);
    SubsetOfSameSize(Members(items), hv.Keys);
    forall e | e in hv
      ensures e.next == null || e.next in hv
    {
      var i :| 0 <= i < |items| && items[i] == e;
      assert items[i].next == At(items, i + 1);
    }
  }

  lemma {:induction false} SoundChains(t: Table, hv: map<Elem, nat>, chains: seq<seq<Elem>>)
    requires Indexed(t, hv, chains) && t.numItems == |hv|
    ensures HashCheck.BucketsSound(t, hv.Keys, chains)
    ensures HashCheck.Closed(HashCheck.ChainLinks(hv.Keys)) && t.numBuckets == t.buckets.Length
    ensures forall b | 0 <= b < t.numBuckets :: t.buckets[b].head == null || t.buckets[b].head in hv
  {
    forall b | 0 <= b < |chains|
      ensures Chain(t.buckets[b].head, chains[b]) && t.buckets[b].count == |chains[b]|
    {
    }
    forall e | e in hv
      ensures e.hhNext == null || e.hhNext in hv
    {
      SpreadIsComplete(hv, chains, e);
      var c := chains[hv[e] % |chains|];
      var i :| 0 <= i < |c| && c[i] == e;
      assert c[i].hhNext == At(c, i + 1);
    }
  }
}
