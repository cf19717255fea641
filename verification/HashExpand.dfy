/** HASH_EXPAND_BUCKETS: doubling the bucket array and rethreading every chain. */
module HashExpand {
  import opened Bits
  import opened Lists
  import opened HashStructure
  import HashBuckets

  /**
   The new chain j made from an old chain c: the elements whose hash value now
   selects j, in reverse order, since each one is pushed in front.
   */
  ghost function Redistributed(c: seq<Elem>, hv: map<Elem, nat>, n: nat, j: nat): (r: seq<Elem>)
    requires n > 0 && forall i | 0 <= i < |c| :: c[i] in hv
  {
    if c == [] then []
    else
      var m := |c| - 1;
      (if hv[c[m]] % n == j then [c[m]] else []) + Redistributed(c[..m], hv, n, j)
  }

  lemma {:induction false} RedistributedMembers(c: seq<Elem>, hv: map<Elem, nat>, n: nat, j: nat)
    requires n > 0 && forall i | 0 <= i < |c| :: c[i] in hv
    ensures forall x :: x in Redistributed(c, hv, n, j) <==> x in c && hv[x] % n == j
  {
    if c != [] {
      var m := |c| - 1;
      RedistributedMembers(c[..m], hv, n, j);
      assert c == c[..m] + [c[m]];
    }
  }

  lemma {:induction false} RedistributedDistinct(c: seq<Elem>, hv: map<Elem, nat>, n: nat, j: nat)
    requires n > 0 && forall i | 0 <= i < |c| :: c[i] in hv
    requires Distinct(c)
    ensures Distinct(Redistributed(c, hv, n, j))
  {
    if c != [] {
      var m := |c| - 1;
      DistinctAt(c);
      DistinctSlice(c, 0, m);
      RedistributedDistinct(c[..m], hv, n, j);
      RedistributedMembers(c[..m], hv, n, j);
      var r := Redistributed(c[..m], hv, n, j);
      assert c[m] !in r && [] + r == r;
      DistinctPush(c[m], r);
    }
  }

  function Times(count: nat, ideal: nat): (m: nat)
    requires ideal > 0
  {
    count / ideal
  }

  /** How many times over the ideal length a chain of the given length is: the new expand_mult. */
  function Multiplier(count: nat, ideal: nat): (m: nat)
    requires ideal > 0
  {
    if count > ideal then Times(count, ideal) else 0
  }

  function Over(count: nat, ideal: nat): (n: nat) {
    if count > ideal then count - ideal else 0
  }

  /** The items beyond the ideal length of their chain. */
  ghost function Nonideal(chains: seq<seq<Elem>>, ideal: nat): (n: nat) {
    if chains == [] then 0
    else Nonideal(chains[..|chains| - 1], ideal) + Over(|chains[|chains| - 1]|, ideal)
  }

  lemma {:induction false} NonidealUpdate(chains: seq<seq<Elem>>, ideal: nat, b: nat, c: seq<Elem>)
    requires b < |chains|
    ensures Nonideal(chains[b := c], ideal) == Nonideal(chains, ideal) - Over(|chains[b]|, ideal) + Over(|c|, ideal)
  {
    var m := |chains| - 1;
    var chains' := chains[b := c];
    if b < m {
      NonidealUpdate(chains[..m], ideal, b, c);
      assert chains'[..m] == chains[..m][b := c];
    } else {
      assert chains'[..m] == chains[..m];
    }
  }

  /** What is known of the element sets while chains are being rethreaded. */
  ghost predicate Moving(hv: map<Elem, nat>, rest: seq<seq<Elem>>, made: seq<seq<Elem>>) {
    && |rest| > 0 && |made| == 2 * |rest|
    && (forall b | 0 <= b < |rest| :: Distinct(rest[b]))
    && (forall j | 0 <= j < |made| :: Distinct(made[j]))
    && (forall b | 0 <= b < |rest| :: forall i | 0 <= i < |rest[b]| ::
          rest[b][i] in hv && hv[rest[b][i]] % |rest| == b && (forall j | 0 <= j < |made| :: rest[b][i] !in made[j]))
    && (forall j | 0 <= j < |made| :: forall i | 0 <= i < |made[j]| ::
          made[j][i] in hv && hv[made[j][i]] % |made| == j)
  }

  lemma MovingStep(hv: map<Elem, nat>, rest: seq<seq<Elem>>, made: seq<seq<Elem>>, b: nat, j: nat)
    requires Moving(hv, rest, made) && b < |rest| && rest[b] != []
    requires j == hv[rest[b][0]] % |made|
    ensures Moving(hv, rest[b := rest[b][1..]], HashBuckets.Pushed(made, j, rest[b][0]))
  {
    DistinctAt(rest[b]);
    DistinctSlice(rest[b], 1, |rest[b]|);
    DistinctPush(rest[b][0], made[j]);
  }

  /** The new buckets head, count and rate the chains made so far. */
  ghost predicate Threaded(hv: map<Elem, nat>, buckets: array<Bucket>, made: seq<seq<Elem>>, ideal: nat)
    requires ideal > 0
    reads buckets, hv.Keys`hhPrev, hv.Keys`hhNext
  {
    && buckets.Length == |made|
    && forall j | 0 <= j < |made| ::
      && (forall i | 0 <= i < |made[j]| :: made[j][i] in hv)
      && Chain(buckets[j].head, made[j])
      && buckets[j].count == |made[j]|
      && buckets[j].expandMult == Multiplier(|made[j]|, ideal)
  }

  /** The old chains still to be walked keep their forward links. */
  ghost predicate Pending(hv: map<Elem, nat>, rest: seq<seq<Elem>>)
    reads hv.Keys`hhNext
  {
    forall b | 0 <= b < |rest| :: forall i | 0 <= i < |rest[b]| ::
      rest[b][i] in hv && rest[b][i].hhNext == At(rest[b], i + 1)
  }

  method Rethread(buckets: array<Bucket>, e: Elem, j: nat, ghost hv: map<Elem, nat>, ghost made: seq<seq<Elem>>,
                  ghost ideal: nat)
    requires ideal > 0 && j < |made| && Threaded(hv, buckets, made, ideal)
    requires forall k | 0 <= k < |made| :: e !in made[k]
    requires forall k | 0 <= k < |made| && k != j :: forall i | 0 <= i < |made[k]| :: made[k][i] !in made[j]
    modifies e`hhPrev, e`hhNext, hv.Keys`hhPrev
    ensures Chain(e, [e] + made[j])
    ensures forall k | 0 <= k < |made| && k != j :: Chain(buckets[k].head, made[k])
  {
    assert forall k | 0 <= k < |made| :: Chain(buckets[k].head, made[k]);
    HashBuckets.LinkFront(e, buckets[j].head, made[j]);
  }

  method RethreadBucket(buckets: array<Bucket>, e: Elem, j: nat, count: nat, mult: nat, ghost hv: map<Elem, nat>,
                        ghost made: seq<seq<Elem>>, ghost ideal: nat)
    requires ideal > 0 && j < |made| && Threaded(hv, buckets, made, ideal) && e in hv
    requires forall k | 0 <= k < |made| :: e !in made[k]
    requires forall k | 0 <= k < |made| && k != j :: forall i | 0 <= i < |made[k]| :: made[k][i] !in made[j]
    requires count == |made[j]| + 1 && mult == Multiplier(count, ideal)
    modifies buckets, e`hhNext, hv.Keys`hhPrev
    ensures Threaded(hv, buckets, HashBuckets.Pushed(made, j, e), ideal)
  {
    assert forall k | 0 <= k < |made| :: buckets[k].count == |made[k]|
             && buckets[k].expandMult == Multiplier(|made[k]|, ideal);
    Rethread(buckets, e, j, hv, made, ideal);
    buckets[j] := Bucket(e, count, mult);
  }

  /** The body of the inner loop: e leaves its old chain and enters new chain j. */
  method MoveElem(t: Table, buckets: array<Bucket>, e: Elem, j: nat, ghost hv: map<Elem, nat>,
                  ghost rest: seq<seq<Elem>>, ghost made: seq<seq<Elem>>, ghost b: nat)
    requires t.idealChainMaxlen > 0
    requires Moving(hv, rest, made) && b < |rest| && rest[b] != [] && rest[b][0] == e
    requires j == hv[e] % |made|
    requires Threaded(hv, buckets, made, t.idealChainMaxlen) && Pending(hv, rest)
    modifies t`nonidealItems, buckets, hv.Keys`hhPrev, e`hhNext
    ensures Threaded(hv, buckets, HashBuckets.Pushed(made, j, e), t.idealChainMaxlen)
    ensures Pending(hv, rest[b := rest[b][1..]])
    ensures t.nonidealItems == old(t.nonidealItems) + (if |made[j]| + 1 > t.idealChainMaxlen then 1 else 0)
  {
    DistinctAt(rest[b]);
    var count := buckets[j].count + 1;
    var mult := buckets[j].expandMult;
    if count > t.idealChainMaxlen {
      t.nonidealItems := t.nonidealItems + 1;
      mult := Times(count, t.idealChainMaxlen);
    }
    RethreadBucket(buckets, e, j, count, mult, hv, made, t.idealChainMaxlen);
  }

  /** The new chains are made from the walked parts of the old ones. */
  ghost predicate MadeFrom(hv: map<Elem, nat>, done: seq<seq<Elem>>, made: seq<seq<Elem>>) {
    && |done| > 0 && |made| == 2 * |done|
    && (forall b | 0 <= b < |done| :: forall i | 0 <= i < |done[b]| :: done[b][i] in hv)
    && (forall j | 0 <= j < |made| :: made[j] == Redistributed(done[j % |done|], hv, |made|, j))
  }

  lemma MadeStep(hv: map<Elem, nat>, done: seq<seq<Elem>>, made: seq<seq<Elem>>, b: nat, j: nat, e: Elem)
    requires MadeFrom(hv, done, made) && b < |done| && e in hv
    requires j == hv[e] % |made| && b == hv[e] % |done|
    ensures MadeFrom(hv, done[b := done[b] + [e]], HashBuckets.Pushed(made, j, e))
  {
    var n := |made|;
    var done', made' := done[b := done[b] + [e]], HashBuckets.Pushed(made, j, e);
    ModOfDoubled(hv[e], |done|);
    forall k | 0 <= k < n
      ensures made'[k] == Redistributed(done'[k % |done'|], hv, n, k)
    {
      var b' := k % |done|;
      assert made[k] == Redistributed(done[b'], hv, n, k);
      if b' == b {
        assert [] + made[k] == made[k];
      }
    }
  }

  /** Each old chain is its walked part followed by the rest. */
  ghost predicate Halves(chains: seq<seq<Elem>>, done: seq<seq<Elem>>, rest: seq<seq<Elem>>) {
    && |chains| == |done| == |rest|
    && forall b | 0 <= b < |chains| :: chains[b] == done[b] + rest[b]
  }

  /** The progress of an expansion. */
  ghost predicate Expanding(hv: map<Elem, nat>, chains: seq<seq<Elem>>, done: seq<seq<Elem>>, rest: seq<seq<Elem>>,
                            made: seq<seq<Elem>>)
  {
    && Halves(chains, done, rest)
    && Moving(hv, rest, made)
    && MadeFrom(hv, done, made)
    && Total(made) + Total(rest) == |hv|
  }

  lemma ExpandingStep(hv: map<Elem, nat>, chains: seq<seq<Elem>>, done: seq<seq<Elem>>, rest: seq<seq<Elem>>,
                      made: seq<seq<Elem>>, b: nat, j: nat)
    requires Expanding(hv, chains, done, rest, made) && b < |rest| && rest[b] != []
    requires j == hv[rest[b][0]] % |made|
    ensures Expanding(hv, chains, done[b := done[b] + [rest[b][0]]], rest[b := rest[b][1..]],
                      HashBuckets.Pushed(made, j, rest[b][0]))
  {
    MovingStep(hv, rest, made, b, j);
    MadeStep(hv, done, made, b, j, rest[b][0]);
    TotalUpdate(rest, b, rest[b][1..]);
    TotalUpdate(made, j, [rest[b][0]] + made[j]);
  }

  /** The heap and the counters agree with the progress made. */
  ghost predicate InProgress(t: Table, buckets: array<Bucket>, hv: map<Elem, nat>, chains: seq<seq<Elem>>,
                             done: seq<seq<Elem>>, rest: seq<seq<Elem>>, made: seq<seq<Elem>>)
    reads t`idealChainMaxlen, t`nonidealItems, buckets, hv.Keys`hhPrev, hv.Keys`hhNext
  {
    && t.idealChainMaxlen > 0
    && Expanding(hv, chains, done, rest, made)
    && Threaded(hv, buckets, made, t.idealChainMaxlen)
    && Pending(hv, rest)
    && t.nonidealItems == Nonideal(made, t.idealChainMaxlen)
  }

  lemma {:induction false} ExpandingSizes(hv: map<Elem, nat>, chains: seq<seq<Elem>>, done: seq<seq<Elem>>,
                                          rest: seq<seq<Elem>>, made: seq<seq<Elem>>)
    requires Expanding(hv, chains, done, rest, made)
    ensures |made| == 2 * |rest| > 0 && |done| == |rest|
  {
  }

  method MoveFirst(t: Table, buckets: array<Bucket>, e: Elem, j: nat, ghost b: nat, ghost hv: map<Elem, nat>,
                   ghost chains: seq<seq<Elem>>, ghost done: seq<seq<Elem>>, ghost rest: seq<seq<Elem>>,
                   ghost made: seq<seq<Elem>>)
    returns (ghost done': seq<seq<Elem>>, ghost rest': seq<seq<Elem>>, ghost made': seq<seq<Elem>>)
    requires InProgress(t, buckets, hv, chains, done, rest, made)
    requires b < |rest| && rest[b] != [] && rest[b][0] == e && j == hv[e] % |made|
    modifies t`nonidealItems, buckets, hv.Keys`hhPrev, e`hhNext
    ensures InProgress(t, buckets, hv, chains, done', rest', made')
    ensures rest' == rest[b := rest[b][1..]] && made' == HashBuckets.Pushed(made, j, e)
  {
    hide Halves, Moving, MadeFrom, Threaded, Pending, Nonideal, Total;
    ExpandingSizes(hv, chains, done, rest, made);
    done', rest', made' := done[b := done[b] + [e]], rest[b := rest[b][1..]], HashBuckets.Pushed(made, j, e);
    ExpandingStep(hv, chains, done, rest, made, b, j);
    NonidealUpdate(made, t.idealChainMaxlen, j, [e] + made[j]);
    MoveElem(t, buckets, e, j, hv, rest, made, b);
  }

  /** The inner loop: walk old chain b from its first element, moving every element. */
  method DrainChain(t: Table, buckets: array<Bucket>, first: Elem?, log2: nat, ghost b: nat, ghost hv: map<Elem, nat>,
                    ghost chains: seq<seq<Elem>>, ghost done0: seq<seq<Elem>>, ghost rest0: seq<seq<Elem>>,
                    ghost made0: seq<seq<Elem>>)
    returns (ghost done: seq<seq<Elem>>, ghost rest: seq<seq<Elem>>, ghost made: seq<seq<Elem>>)
    requires InProgress(t, buckets, hv, chains, done0, rest0, made0)
    requires b < |rest0| && first == At(rest0[b], 0) && buckets.Length == Pow2(log2)
    requires Hashed(hv)
    modifies t`nonidealItems, buckets, hv.Keys`hhPrev, hv.Keys`hhNext
    ensures InProgress(t, buckets, hv, chains, done, rest, made)
    ensures rest == rest0[b := []]
  {
    hide Halves, MadeFrom, Nonideal;
    done, rest, made := done0, rest0, made0;
    var thh := first;
    while thh != null
      invariant InProgress(t, buckets, hv, chains, done, rest, made)
      invariant |rest| == |rest0| && rest == rest0[b := rest[b]]
      invariant thh == At(rest[b], 0)
      invariant |made| == buckets.Length
      decreases |rest[b]|
    {
      var e: Elem := thh;
      var next := e.hhNext;
      assert next == At(rest[b], 1);
      var j := ToBucket(e.hashv, buckets.Length, log2);
      done, rest, made := MoveFirst(t, buckets, e, j, b, hv, chains, done, rest, made);
      thh := next;
    }
  }

  /** The chains of n empty buckets. */
  ghost function Empties(n: nat): (chains: seq<seq<Elem>>) {
    seq(n, _ => [])
  }

  lemma ExpandingStart(hv: map<Elem, nat>, chains: seq<seq<Elem>>)
    requires Spread(hv, chains)
    ensures Expanding(hv, chains, Empties(|chains|), chains, Empties(2 * |chains|))
  {
    EmptyChains(2 * |chains|, 1);
  }

  lemma {:induction false} EmptyChains(n: nat, ideal: nat)
    ensures Total(Empties(n)) == Nonideal(Empties(n), ideal) == 0
  {
    if n > 0 {
      EmptyChains(n - 1, ideal);
      assert Empties(n)[..n - 1] == Empties(n - 1);
    }
  }

  lemma {:induction false} NoneLeft(rest: seq<seq<Elem>>)
    requires forall b | 0 <= b < |rest| :: rest[b] == []
    ensures Total(rest) == 0
  {
    if rest != [] {
      NoneLeft(rest[..|rest| - 1]);
    }
  }

  lemma AllWalked(chains: seq<seq<Elem>>, done: seq<seq<Elem>>, rest: seq<seq<Elem>>)
    requires Halves(chains, done, rest)
    requires forall b | 0 <= b < |rest| :: rest[b] == []
    ensures done == chains
  {
    forall b | 0 <= b < |chains|
      ensures done[b] == chains[b]
    {
      assert chains[b] == done[b] + rest[b];
    }
  }

  lemma ExpandingEnd(hv: map<Elem, nat>, chains: seq<seq<Elem>>, done: seq<seq<Elem>>, rest: seq<seq<Elem>>,
                     made: seq<seq<Elem>>)
    requires Expanding(hv, chains, done, rest, made)
    requires forall b | 0 <= b < |rest| :: rest[b] == []
    ensures MadeFrom(hv, chains, made) && Spread(hv, made)
  {
    AllWalked(chains, done, rest);
    NoneLeft(rest);
  }

  lemma ThreadedStart(hv: map<Elem, nat>, buckets: array<Bucket>, n: nat, ideal: nat)
    requires ideal > 0 && buckets.Length == n
    requires forall j | 0 <= j < n :: buckets[j] == Bucket(null, 0, 0)
    ensures Threaded(hv, buckets, Empties(n), ideal)
  {
  }

  lemma LinkedEnd(hv: map<Elem, nat>, buckets: array<Bucket>, made: seq<seq<Elem>>, ideal: nat)
    requires ideal > 0 && Threaded(hv, buckets, made, ideal)
    ensures Linked(hv, buckets, made)
  {
  }

  lemma InProgressStart(t: Table, buckets: array<Bucket>, hv: map<Elem, nat>, chains: seq<seq<Elem>>)
    requires t.idealChainMaxlen > 0 && t.nonidealItems == 0
    requires Spread(hv, chains) && Linked(hv, t.buckets, chains)
    requires buckets.Length == 2 * |chains|
    requires forall j | 0 <= j < buckets.Length :: buckets[j] == Bucket(null, 0, 0)
    ensures InProgress(t, buckets, hv, chains, Empties(|chains|), chains, Empties(2 * |chains|))
    ensures t.buckets.Length == |chains| && forall b | 0 <= b < |chains| :: t.buckets[b].head == At(chains[b], 0)
  {
    ExpandingStart(hv, chains);
    EmptyChains(2 * |chains|, t.idealChainMaxlen);
    ThreadedStart(hv, buckets, 2 * |chains|, t.idealChainMaxlen);
    hide Expanding, Threaded, Pending;
  }

  /** The outer loop: drain every old chain into the new buckets. */
  method DrainAll(t: Table, buckets: array<Bucket>, log2: nat, ghost hv: map<Elem, nat>, ghost chains: seq<seq<Elem>>)
    returns (ghost made: seq<seq<Elem>>)
    requires t.idealChainMaxlen > 0 && t.nonidealItems == 0
    requires t.numBuckets == |chains| && Spread(hv, chains) && Linked(hv, t.buckets, chains) && Hashed(hv)
    requires buckets != t.buckets && buckets.Length == 2 * |chains| == Pow2(log2)
    requires forall j | 0 <= j < buckets.Length :: buckets[j] == Bucket(null, 0, 0)
    modifies t`nonidealItems, buckets, hv.Keys`hhPrev, hv.Keys`hhNext
    ensures MadeFrom(hv, chains, made) && Spread(hv, made)
    ensures Threaded(hv, buckets, made, t.idealChainMaxlen)
    ensures t.nonidealItems == Nonideal(made, t.idealChainMaxlen)
  {
    hide Linked, Spread, Hashed, Expanding, Threaded, Pending, Nonideal, MadeFrom, Pow2;
    ghost var done, rest := Empties(|chains|), chains;
    made := Empties(2 * |chains|);
    InProgressStart(t, buckets, hv, chains);
    for i := 0 to t.numBuckets
      invariant InProgress(t, buckets, hv, chains, done, rest, made)
      invariant |rest| == |chains|
      invariant forall b | 0 <= b < i :: rest[b] == []
      invariant forall b | i <= b < |chains| :: rest[b] == chains[b]
    {
      done, rest, made := DrainChain(t, buckets, t.buckets[i].head, log2, i, hv, chains, done, rest, made);
    }
    ExpandingEnd(hv, chains, done, rest, made);
  }

  /** ceil(items / buckets), the way the source computes it from a shift and a mask. */
  function IdealChainMaxlen(numItems: nat, numBuckets: nat, log2: nat): (ideal: nat)
    requires numBuckets == Pow2(log2)
  {
    Shr(numItems, log2 + 1) + (if And(numItems, numBuckets * 2 - 1) != 0 then 1 else 0)
  }

  /** The shift formula is the ceiling of the quotient by the doubled bucket count. */
  lemma IdealIsCeiling(numItems: nat, numBuckets: nat, log2: nat)
    requires numBuckets == Pow2(log2)
    ensures var n := 2 * numBuckets; var ideal := IdealChainMaxlen(numItems, numBuckets, log2);
            numItems <= n * ideal && (numItems > 0 ==> n * (ideal - 1) < numItems && ideal >= 1)
  {
    AndMask(numItems, log2 + 1);
    Ceiling(numItems, Pow2(log2 + 1));
  }

  lemma Ceiling(a: nat, n: nat)
    requires n > 0
    ensures var c := a / n + (if a % n != 0 then 1 else 0);
            a <= n * c && (a > 0 ==> n * (c - 1) < a && c >= 1)
  {
    DivBounds(a, n);
  }

  /** The chain-length statistics an expansion leaves behind. */
  ghost predicate Rated(t: Table, chains: seq<seq<Elem>>, numItems: nat, oldLog2: nat)
    reads t`idealChainMaxlen, t`nonidealItems, t`buckets, t.buckets
  {
    && t.idealChainMaxlen == IdealChainMaxlen(numItems, Pow2(oldLog2), oldLog2) > 0
    && t.nonidealItems == Nonideal(chains, t.idealChainMaxlen)
    && t.buckets.Length == |chains|
    && forall j | 0 <= j < |chains| :: t.buckets[j].expandMult == Multiplier(|chains[j]|, t.idealChainMaxlen)
  }

  /** More than half of the items sit beyond the ideal length of their chain. */
  predicate Ineffective(nonideal: nat, numItems: nat) {
    nonideal > Shr(numItems, 1)
  }

  lemma {:induction false} GrowthStep(expansions: seq<bool>, effective: bool)
    requires Trailing(expansions) <= 1
    requires forall i | 0 <= i < |expansions| - 2 :: expansions[i] || expansions[i + 1]
    ensures Trailing(expansions + [effective]) == if effective then 0 else Trailing(expansions) + 1
    ensures forall i | 0 <= i < |expansions| - 1 :: (expansions + [effective])[i] || (expansions + [effective])[i + 1]
  {
    var all := expansions + [effective];
    assert all[..|all| - 1] == expansions;
    if |expansions| >= 2 {
      assert expansions[..|expansions| - 1][|expansions| - 2] == expansions[|expansions| - 2];
    }
    forall i | 0 <= i < |expansions| - 1
      ensures all[i] || all[i + 1]
    {
      assert all[i] == expansions[i] && all[i + 1] == expansions[i + 1];
    }
  }

  /** The new bucket array takes the place of the old one. */
  method DoubleBuckets(t: Table, ghost hv: map<Elem, nat>, ghost chains: seq<seq<Elem>>)
    returns (ghost made: seq<seq<Elem>>)
    requires Indexed(t, hv, chains) && t.numItems > 0
    modifies t`buckets, t`numBuckets, t`log2NumBuckets, t`idealChainMaxlen, t`nonidealItems
    modifies hv.Keys`hhPrev, hv.Keys`hhNext
    ensures Indexed(t, hv, made) && fresh(t.buckets)
    ensures MadeFrom(hv, chains, made)
    ensures Rated(t, made, t.numItems, old(t.log2NumBuckets))
    ensures t.numBuckets == 2 * old(t.numBuckets) && t.log2NumBuckets == old(t.log2NumBuckets) + 1
  {
    hide Spread, Linked, Hashed, Chain, Nonideal, Redistributed, And, Shr, Multiplier;
    var buckets := new Bucket[2 * t.numBuckets](_ => Bucket(null, 0, 0));
    IdealIsCeiling(t.numItems, t.numBuckets, t.log2NumBuckets);
    t.idealChainMaxlen := IdealChainMaxlen(t.numItems, t.numBuckets, t.log2NumBuckets);
    t.nonidealItems := 0;
    made := DrainAll(t, buckets, t.log2NumBuckets + 1, hv, chains);
    LinkedEnd(hv, buckets, made, t.idealChainMaxlen);
    hide MadeFrom;
    t.numBuckets := t.numBuckets * 2;
    t.log2NumBuckets := t.log2NumBuckets + 1;
    t.buckets := buckets;
  }

  /** Growth is inhibited after two ineffective expansions in a row. */
  method JudgeExpansion(t: Table)
    requires Judged(t) && t.noexpand != 1
    modifies t`ineffExpands, t`noexpand, t`expansions
    ensures Judged(t)
    ensures t.expansions == old(t.expansions) + [!Ineffective(t.nonidealItems, t.numItems)]
  {
    var ineffective := Ineffective(t.nonidealItems, t.numItems);
    GrowthStep(t.expansions, !ineffective);
    t.expansions := t.expansions + [!ineffective];
    t.ineffExpands := if ineffective then t.ineffExpands + 1 else 0;
    if t.ineffExpands > 1 {
      t.noexpand := 1;
    }
  }

  /** HASH_EXPAND_BUCKETS */
  method Expand(t: Table, ghost hv: map<Elem, nat>, ghost chains: seq<seq<Elem>>)
    returns (ghost made: seq<seq<Elem>>)
    requires Indexed(t, hv, chains) && GrowthOk(t)
    requires t.noexpand != 1 && t.numItems > 0
    modifies t`buckets, t`numBuckets, t`log2NumBuckets, t`idealChainMaxlen, t`nonidealItems
    modifies t`ineffExpands, t`noexpand, t`expansions, hv.Keys`hhPrev, hv.Keys`hhNext
    ensures Indexed(t, hv, made) && GrowthOk(t) && fresh(t.buckets)
    ensures MadeFrom(hv, chains, made)
    ensures Rated(t, made, t.numItems, old(t.log2NumBuckets))
    ensures t.numBuckets == 2 * old(t.numBuckets)
    ensures t.expansions == old(t.expansions) + [Effective(made, t.idealChainMaxlen, t.numItems)]
  {
    hide Spread, Linked, Hashed, MadeFrom, Rated, Ineffective, Effective;
    made := DoubleBuckets(t, hv, chains);
    RatedEffective(t, made, t.numItems, old(t.log2NumBuckets));
    JudgeExpansion(t);
  }

  /** Twice the items beyond the ideal length of their chain are at most all items. */
  ghost predicate Effective(chains: seq<seq<Elem>>, ideal: nat, numItems: nat) {
    2 * Nonideal(chains, ideal) <= numItems
  }

  /** The test on the counter is the test on the chains. */
  lemma {:induction false} RatedEffective(t: Table, chains: seq<seq<Elem>>, numItems: nat, oldLog2: nat)
    requires Rated(t, chains, numItems, oldLog2)
    ensures Ineffective(t.nonidealItems, numItems) <==> !Effective(chains, t.idealChainMaxlen, numItems)
  {
    assert Pow2(1) == 2;
    DivBounds(numItems, 2);
  }

  /** Ten colliding items beyond an ideal length of 1 make an expansion ineffective. */
  lemma {:induction false} TenCollide()
    ensures Ineffective(9, 10)
  {
    assert Pow2(1) == 2;
  }

  /**
   An expansion loses and duplicates nothing: each new chain holds, once each,
   exactly the elements of the table whose hash value selects it.
   */
  lemma {:induction false} ExpansionConserves(hv: map<Elem, nat>, chains: seq<seq<Elem>>, made: seq<seq<Elem>>)
    requires Spread(hv, chains) && MadeFrom(hv, chains, made)
    ensures forall j | 0 <= j < |made| :: Distinct(made[j])
    ensures forall j, x | 0 <= j < |made| :: x in made[j] <==> x in hv && hv[x] % |made| == j
  {
    forall j | 0 <= j < |made|
      ensures Distinct(made[j]) && forall x :: x in made[j] <==> x in hv && hv[x] % |made| == j
    {
      ChainConserved(hv, chains, made, j);
    }
  }

  lemma {:induction false} ChainConserved(hv: map<Elem, nat>, chains: seq<seq<Elem>>, made: seq<seq<Elem>>, j: nat)
    requires Spread(hv, chains) && MadeFrom(hv, chains, made) && j < |made|
    ensures Distinct(made[j]) && forall x :: x in made[j] <==> x in hv && hv[x] % |made| == j
  {
    hide Distinct, Total;
    var b := j % |chains|;
    RedistributedMembers(chains[b], hv, |made|, j);
    RedistributedDistinct(chains[b], hv, |made|, j);
    forall x | x in hv && hv[x] % |made| == j
      ensures x in chains[b]
    {
      ModOfDoubled(hv[x], |chains|);
      SpreadIsComplete(hv, chains, x);
    }
  }
}
