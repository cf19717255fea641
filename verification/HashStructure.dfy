/**
 The data structures of uthash.h: elements that embed a hash handle, the table
 header with its array of buckets, and what it means for the two interlocking
 doubly linked structures to be intact.

 An element embeds its handle, so the C conversions between element and handle
 addresses (ELMT_FROM_HH) are the identity here.
 */
module HashStructure {
  import opened Bits
  import opened Lists

  const INITIAL_NUM_BUCKETS: nat := 32
  const INITIAL_NUM_BUCKETS_LOG2: nat := 5
  const BKT_CAPACITY_THRESH: nat := 10

  class Elem {
    // the handle
    var tbl: Table?
    var prev: Elem?
    var next: Elem?
    var hhPrev: Elem?
    var hhNext: Elem?
    var key: string
    var hashv: nat
    // the rest of the enclosing structure
    var connected: bool

    /** malloc and memset */
    constructor ()
      ensures tbl == null && prev == next == hhPrev == hhNext == null && key == "" && hashv == 0 && !connected
    {
      tbl, prev, next, hhPrev, hhNext := null, null, null, null, null;
      key, hashv, connected := "", 0, false;
    }
  }

  datatype Bucket = Bucket(head: Elem?, count: nat, expandMult: nat)

  class Table {
    var buckets: array<Bucket>
    var numBuckets: nat
    var log2NumBuckets: nat
    var numItems: nat
    var tail: Elem?
    var idealChainMaxlen: nat
    var nonidealItems: nat
    var ineffExpands: nat
    var noexpand: nat
    /** For each expansion so far, oldest first, whether it was effective. */
    ghost var expansions: seq<bool>

    /** HASH_MAKE_TABLE */
    constructor (first: Elem)
      ensures buckets.Length == numBuckets == 32
      ensures log2NumBuckets == 5
      ensures numItems == 0 && tail == first
      ensures idealChainMaxlen == nonidealItems == ineffExpands == noexpand == 0
      ensures forall b | 0 <= b < buckets.Length :: buckets[b] == Bucket(null, 0, 0)
      ensures fresh(buckets) && expansions == []
    {
      buckets := new Bucket[INITIAL_NUM_BUCKETS](_ => Bucket(null, 0, 0));
      numBuckets := INITIAL_NUM_BUCKETS;
      log2NumBuckets := INITIAL_NUM_BUCKETS_LOG2;
      numItems := 0;
      tail := first;
      idealChainMaxlen, nonidealItems, ineffExpands, noexpand := 0, 0, 0, 0;
      expansions := [];
    }
  }

  /** The element at position i, or null off either end. */
  ghost function At(s: seq<Elem>, i: int): (e: Elem?) {
    if 0 <= i < |s| then s[i] else null
  }

  lemma DistinctPush(e: Elem, c: seq<Elem>)
    requires Distinct(c) && e !in c
    ensures Distinct([e] + c) && Distinct(c + [e])
  {
    DistinctAt(c);
  }

  lemma DistinctSlice(c: seq<Elem>, a: nat, b: nat)
    requires Distinct(c) && a <= b <= |c|
    ensures Distinct(c[a..b])
  {
    DistinctAt(c);
  }

  lemma DistinctWithout(c: seq<Elem>, k: nat)
    requires Distinct(c) && k < |c|
    ensures Distinct(Without(c, k))
  {
    DistinctAt(c);
  }

  /** s, in this order, is linked through next and prev. */
  ghost predicate AppList(s: seq<Elem>)
    reads s`prev, s`next
  {
    && (forall i {:trigger s[i].prev} | 0 <= i < |s| :: s[i].prev == At(s, i - 1))
    && (forall i {:trigger s[i].next} | 0 <= i < |s| :: s[i].next == At(s, i + 1))
  }

  /** c, in this order, is linked through hhNext and hhPrev, starting at head. */
  ghost predicate Chain(head: Elem?, c: seq<Elem>)
    reads c`hhPrev, c`hhNext
  {
    && head == At(c, 0)
    && (forall i {:trigger c[i].hhPrev} | 0 <= i < |c| :: c[i].hhPrev == At(c, i - 1))
    && (forall i {:trigger c[i].hhNext} | 0 <= i < |c| :: c[i].hhNext == At(c, i + 1))
  }

  /** The number of elements in all chains together. */
  ghost function Total(chains: seq<seq<Elem>>): (n: nat) {
    if chains == [] then 0 else Total(chains[..|chains| - 1]) + |chains[|chains| - 1]|
  }

  /**
   The elements of a table with their hash values, and how they are spread over
   the chains: a chain holds, once each, elements whose hash value selects it,
   and the chains together hold as many elements as the table (the two counts
   HASH_FSCK compares). SpreadIsComplete shows that no element is missing.
   */
  ghost predicate Spread(hv: map<Elem, nat>, chains: seq<seq<Elem>>) {
    && |chains| > 0
    && (forall b | 0 <= b < |chains| :: Distinct(chains[b]))
    && (forall b | 0 <= b < |chains| :: forall i | 0 <= i < |chains[b]| ::
          chains[b][i] in hv && hv[chains[b][i]] % |chains| == b)
    && Total(chains) == |hv|
  }

  ghost predicate Hashed(hv: map<Elem, nat>)
    reads hv.Keys`hashv
  {
    forall e | e in hv :: e.hashv == hv[e]
  }

  /** Each bucket heads its chain and counts it. */
  ghost predicate Linked(hv: map<Elem, nat>, buckets: array<Bucket>, chains: seq<seq<Elem>>)
    reads buckets, hv.Keys`hhPrev, hv.Keys`hhNext
  {
    && buckets.Length == |chains|
    && forall b | 0 <= b < |chains| ::
      && (forall i | 0 <= i < |chains[b]| :: chains[b][i] in hv)
      && Chain(buckets[b].head, chains[b])
      && buckets[b].count == |chains[b]|
  }

  /** The bucket side of the table: it indexes exactly the given elements. */
  ghost predicate Indexed(t: Table, hv: map<Elem, nat>, chains: seq<seq<Elem>>)
    reads t`buckets, t`numBuckets, t`log2NumBuckets, t.buckets
    reads hv.Keys`hashv, hv.Keys`hhPrev, hv.Keys`hhNext
  {
    && Spread(hv, chains)
    && t.numBuckets == t.buckets.Length == |chains| == Pow2(t.log2NumBuckets)
    && Hashed(hv)
    && Linked(hv, t.buckets, chains)
  }

  /** The number of trailing ineffective expansions. */
  ghost function Trailing(expansions: seq<bool>): (n: nat) {
    if expansions == [] || expansions[|expansions| - 1] then 0
    else Trailing(expansions[..|expansions| - 1]) + 1
  }

  /** The verdict on growing further follows from the expansions so far. */
  ghost predicate Judged(t: Table)
    reads t`ineffExpands, t`noexpand, t`expansions
  {
    && t.ineffExpands == Trailing(t.expansions) <= 2
    && t.noexpand == (if t.ineffExpands > 1 then 1 else 0)
    && forall i | 0 <= i < |t.expansions| - 2 :: t.expansions[i] || t.expansions[i + 1]
  }

  /** The counters that decide whether the table may still grow. */
  ghost predicate GrowthOk(t: Table)
    reads t`log2NumBuckets, t`ineffExpands, t`noexpand, t`expansions
  {
    t.log2NumBuckets == INITIAL_NUM_BUCKETS_LOG2 + |t.expansions| && Judged(t)
  }

  /** HASH_TO_BKT */
  function ToBucket(hashv: nat, numBuckets: nat, ghost log2: nat): (b: nat)
    requires numBuckets == Pow2(log2)
    ensures b == hashv % numBuckets
  {
    AndMask(hashv, log2);
    And(hashv, numBuckets - 1)
  }

  lemma {:induction false} TotalUpdate(chains: seq<seq<Elem>>, b: nat, c: seq<Elem>)
    requires b < |chains|
    ensures Total(chains[b := c]) == Total(chains) - |chains[b]| + |c|
  {
    var m := |chains| - 1;
    var chains' := chains[b := c];
    if b < m {
      TotalUpdate(chains[..m], b, c);
      assert chains'[..m] == chains[..m][b := c];
    } else {
      assert chains'[..m] == chains[..m];
    }
  }

  ghost function Members(c: seq<Elem>): (s: set<Elem>) {
    set i | 0 <= i < |c| :: c[i]
  }

  lemma {:induction false} MembersSize(c: seq<Elem>)
    requires Distinct(c)
    ensures |Members(c)| == |c|
  {
    if c != [] {
      var m := |c| - 1;
      DistinctAt(c);
      DistinctSlice(c, 0, m);
      MembersSize(c[..m]);
      assert Members(c) == Members(c[..m]) + {c[m]};
    }
  }

  ghost function Union(chains: seq<seq<Elem>>): (s: set<Elem>) {
    if chains == [] then {} else Union(chains[..|chains| - 1]) + Members(chains[|chains| - 1])
  }

  /** What is in the union is in one of the chains. */
  lemma {:induction false} InUnion(chains: seq<seq<Elem>>, e: Elem) returns (b: nat)
    requires e in Union(chains)
    ensures b < |chains| && e in chains[b]
  {
    var m := |chains| - 1;
    if e in Members(chains[m]) {
      b := m;
    } else {
      b := InUnion(chains[..m], e);
    }
  }

  lemma {:induction false} UnionSize(chains: seq<seq<Elem>>)
    requires forall b | 0 <= b < |chains| :: Distinct(chains[b])
    requires forall a, b | 0 <= a < b < |chains| :: Members(chains[a]) !! Members(chains[b])
    ensures |Union(chains)| == Total(chains)
  {
    hide Members, Distinct;
    if chains != [] {
      var m := |chains| - 1;
      UnionSize(chains[..m]);
      MembersSize(chains[m]);
      UnionApart(chains, m);
    }
  }

  lemma {:induction false} UnionApart(chains: seq<seq<Elem>>, m: nat)
    requires m < |chains|
    requires forall a, b | 0 <= a < b < |chains| :: Members(chains[a]) !! Members(chains[b])
    ensures Union(chains[..m]) !! Members(chains[m])
  {
    hide Union;
    forall e | e in Union(chains[..m])
      ensures e !in Members(chains[m])
    {
      var b := InUnion(chains[..m], e);
      assert chains[..m][b] == chains[b] && e in Members(chains[b]);
    }
  }

  lemma SubsetOfSameSize<T>(a: set<T>, b: set<T>)
    requires a <= b && |a| == |b|
    ensures a == b
  {
    assert |b - a| == 0;
  }

  lemma {:induction false} SpreadApart(hv: map<Elem, nat>, chains: seq<seq<Elem>>)
    requires Spread(hv, chains)
    ensures forall a, b | 0 <= a < b < |chains| :: Members(chains[a]) !! Members(chains[b])
  {
  }

  /** Every element is in the chain its hash value selects. */
  lemma {:induction false} SpreadIsComplete(hv: map<Elem, nat>, chains: seq<seq<Elem>>, e: Elem)
    requires Spread(hv, chains) && e in hv
    ensures e in chains[hv[e] % |chains|]
  {
    SpreadApart(hv, chains);
    UnionSize(chains);
    forall x | x in Union(chains)
      ensures x in hv
    {
      var b := InUnion(chains, x);
    }
    SubsetOfSameSize(Union(chains), hv.Keys);
    var b := InUnion(chains, e);
  }
}
