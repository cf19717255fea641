/**
 Bucket chains: search, insertion at the front, unlinking, and the doubling of
 the bucket array.
 */
module HashBuckets {
  import opened Lists
  import opened HashStructure

  /** HASH_FIND_IN_BKT: keys are compared by length and bytes. */
  method FindInBucket(first: Elem?, key: string, ghost c: seq<Elem>) returns (out: Elem?)
    requires Chain(first, c)
    ensures out != null ==> out in c && out.key == key
    ensures out == null ==> forall e | e in c :: e.key != key
  {
    out := first;
    ghost var i := 0;
    while out != null
      invariant 0 <= i <= |c|
      invariant out == At(c, i)
      invariant forall j | 0 <= j < i :: c[j].key != key
      decreases |c| - i
    {
      if out.key == key { break; }
      out := out.hhNext;
      i := i + 1;
    }
  }

  ghost function Pushed(chains: seq<seq<Elem>>, b: nat, e: Elem): (r: seq<seq<Elem>>)
    requires b < |chains|
  {
    chains[b := [e] + chains[b]]
  }

  lemma PushedSpread(hv: map<Elem, nat>, chains: seq<seq<Elem>>, b: nat, e: Elem, h: nat)
    requires Spread(hv, chains) && e !in hv && b < |chains| && b == h % |chains|
    ensures Spread(hv[e := h], Pushed(chains, b, e))
  {
    DistinctPush(e, chains[b]);
    TotalUpdate(chains, b, [e] + chains[b]);
    assert (hv[e := h]).Keys == hv.Keys + {e};
  }

  /** The links set by pushing e in front of the chain c. */
  method LinkFront(e: Elem, head: Elem?, ghost c: seq<Elem>)
    requires Chain(head, c) && e !in c
    modifies e`hhPrev, e`hhNext, c`hhPrev
    ensures Chain(e, [e] + c)
  {
    e.hhNext := head;
    e.hhPrev := null;
    if head != null {
      head.hhPrev := e;
    }
    ghost var c' := [e] + c;
    forall i | 0 <= i < |c'|
      ensures c'[i].hhPrev == At(c', i - 1) && c'[i].hhNext == At(c', i + 1)
    {
      if i > 0 {
        assert c'[i] == c[i - 1] && old(c[i - 1].hhPrev) == At(c, i - 2) && c[i - 1].hhNext == At(c, i);
      }
    }
  }

  /** Relinking the front of one chain leaves the others linked. */
  method LinkInBucket(buckets: array<Bucket>, e: Elem, b: nat, ghost hv: map<Elem, nat>, ghost chains: seq<seq<Elem>>)
    requires Spread(hv, chains) && Linked(hv, buckets, chains)
    requires e !in hv && b < |chains|
    modifies e`hhPrev, e`hhNext, hv.Keys`hhPrev
    ensures Chain(e, [e] + chains[b])
    ensures forall j | 0 <= j < |chains| && j != b :: Chain(buckets[j].head, chains[j])
  {
    forall j | 0 <= j < |chains| && j != b
      ensures forall i | 0 <= i < |chains[j]| :: chains[j][i] !in chains[b]
    {
    }
    assert forall j | 0 <= j < |chains| :: Chain(buckets[j].head, chains[j]);
    LinkFront(e, buckets[b].head, chains[b]);
  }

  /** The insertion half of HASH_ADD_TO_BKT. */
  method PushFront(t: Table, e: Elem, b: nat, ghost hv: map<Elem, nat>, ghost chains: seq<seq<Elem>>)
    requires Indexed(t, hv, chains)
    requires e !in hv && b < |chains| && b == e.hashv % |chains|
    modifies t.buckets, hv.Keys`hhPrev, e`hhPrev, e`hhNext
    ensures Indexed(t, hv[e := e.hashv], Pushed(chains, b, e))
    ensures t.buckets[b].count == |chains[b]| + 1 && t.buckets[b].expandMult == old(t.buckets[b].expandMult)
    ensures forall j | 0 <= j < |chains| && j != b :: t.buckets[j] == old(t.buckets[j])
  {
    PushedSpread(hv, chains, b, e, e.hashv);
    LinkInBucket(t.buckets, e, b, hv, chains);
    t.buckets[b] := t.buckets[b].(count := t.buckets[b].count + 1, head := e);
    assert Linked(hv[e := e.hashv], t.buckets, Pushed(chains, b, e));
  }

  lemma RemovedSpread(hv: map<Elem, nat>, chains: seq<seq<Elem>>, b: nat, k: nat)
    requires Spread(hv, chains) && b < |chains| && k < |chains[b]|
    ensures Spread(hv - {chains[b][k]}, chains[b := Without(chains[b], k)])
  {
    DistinctAt(chains[b]);
    DistinctWithout(chains[b], k);
    TotalUpdate(chains, b, Without(chains[b], k));
    assert (hv - {chains[b][k]}).Keys == hv.Keys - {chains[b][k]};
  }

  /** The link changes of HASH_DEL_IN_BKT. */
  method UnlinkFromChain(e: Elem, head: Elem?, ghost c: seq<Elem>, ghost k: nat) returns (head': Elem?)
    requires Chain(head, c) && Distinct(c) && k < |c| && c[k] == e
    modifies c`hhPrev, c`hhNext
    ensures Chain(head', Without(c, k))
  {
    DistinctAt(c);
    head' := if head == e then e.hhNext else head;
    if e.hhPrev != null {
      e.hhPrev.hhNext := e.hhNext;
    }
    if e.hhNext != null {
      e.hhNext.hhPrev := e.hhPrev;
    }
    ghost var c' := Without(c, k);
    forall i | 0 <= i < |c'|
      ensures c'[i].hhPrev == At(c', i - 1) && c'[i].hhNext == At(c', i + 1)
    {
      assert c'[i] == c[if i < k then i else i + 1];
    }
  }

  method UnlinkInBucket(buckets: array<Bucket>, e: Elem, b: nat, ghost k: nat,
                        ghost hv: map<Elem, nat>, ghost chains: seq<seq<Elem>>)
    returns (head': Elem?)
    requires Spread(hv, chains) && Linked(hv, buckets, chains)
    requires b < |chains| && k < |chains[b]| && chains[b][k] == e
    modifies hv.Keys`hhPrev, hv.Keys`hhNext
    ensures Chain(head', Without(chains[b], k))
    ensures forall j | 0 <= j < |chains| && j != b :: Chain(buckets[j].head, chains[j])
  {
    forall j | 0 <= j < |chains| && j != b
      ensures forall i | 0 <= i < |chains[j]| :: chains[j][i] !in chains[b]
    {
    }
    assert forall j | 0 <= j < |chains| :: Chain(buckets[j].head, chains[j]);
    head' := UnlinkFromChain(e, buckets[b].head, chains[b], k);
  }

  method RemoveFromBucket(buckets: array<Bucket>, e: Elem, b: nat, ghost k: nat,
                          ghost hv: map<Elem, nat>, ghost chains: seq<seq<Elem>>,
                          ghost hv': map<Elem, nat>, ghost chains': seq<seq<Elem>>)
    requires Spread(hv, chains) && Linked(hv, buckets, chains)
    requires b < |chains| && k < |chains[b]| && chains[b][k] == e
    requires Spread(hv', chains') && chains' == chains[b := Without(chains[b], k)]
    modifies buckets, hv.Keys`hhPrev, hv.Keys`hhNext
    ensures Linked(hv', buckets, chains')
    ensures buckets[b].count + 1 == old(buckets[b].count) && buckets[b].expandMult == old(buckets[b].expandMult)
    ensures forall j | 0 <= j < |chains| && j != b :: buckets[j] == old(buckets[j])
  {
    assert forall j | 0 <= j < |chains| :: buckets[j].count == |chains[j]|;
    var head' := UnlinkInBucket(buckets, e, b, k, hv, chains);
    buckets[b] := buckets[b].(count := buckets[b].count - 1, head := head');
  }

  /** HASH_DEL_IN_BKT */
  method DeleteInBucket(t: Table, e: Elem, b: nat, ghost k: nat, ghost hv: map<Elem, nat>, ghost chains: seq<seq<Elem>>)
    requires Indexed(t, hv, chains)
    requires b < |chains| && k < |chains[b]| && chains[b][k] == e
    modifies t.buckets, hv.Keys`hhPrev, hv.Keys`hhNext
    ensures Indexed(t, hv - {e}, chains[b := Without(chains[b], k)])
    ensures t.buckets[b].count + 1 == old(t.buckets[b].count) && t.buckets[b].expandMult == old(t.buckets[b].expandMult)
    ensures forall j | 0 <= j < |chains| && j != b :: t.buckets[j] == old(t.buckets[j])
  {
    RemovedSpread(hv, chains, b, k);
    RemoveFromBucket(t.buckets, e, b, k, hv, chains, hv - {e}, chains[b := Without(chains[b], k)]);
  }
}
