/**
 The integrity checker of uthash.h, on tables that may be broken: the elements
 point anywhere within a set, and the checker finds out whether they form the
 lists and chains that the counts promise.
 */
module HashCheck {
  import opened Lists
  import opened HashStructure

  /** Links from element to element, forwards and backwards, that stay among the same elements. */
  datatype Links = Links(next: map<Elem, Elem?>, prev: map<Elem, Elem?>)

  ghost predicate Closed(l: Links) {
    l.next.Keys == l.prev.Keys && forall e | e in l.next :: l.next[e] == null || l.next[e] in l.next
  }

  /** c, in this order, is linked both ways, from first to a null end. */
  ghost predicate Threaded(l: Links, first: Elem?, c: seq<Elem>) {
    && first == At(c, 0)
    && forall i {:trigger c[i]} | 0 <= i < |c| ::
      c[i] in l.next && c[i] in l.prev && l.prev[c[i]] == At(c, i - 1) && l.next[c[i]] == At(c, i + 1)
  }

  /** A walk from first that has passed c, and found its back links right, stands at e. */
  ghost predicate Walked(l: Links, first: Elem?, c: seq<Elem>, e: Elem?) {
    && Distinct(c)
    && (e == null || e in l.next)
    && first == At(c + (if e == null then [] else [e]), 0)
    && forall i {:trigger c[i]} | 0 <= i < |c| ::
      c[i] in l.next && c[i] in l.prev && l.prev[c[i]] == At(c, i - 1)
      && l.next[c[i]] == if i + 1 < |c| then c[i + 1] else e
  }

  /** The next step meets an element for the first time. */
  lemma {:induction false} WalkOn(l: Links, first: Elem?, c: seq<Elem>, e: Elem)
    requires Closed(l) && Walked(l, first, c, e) && l.prev[e] == At(c, |c| - 1)
    ensures Walked(l, first, c + [e], l.next[e])
    ensures |c| < |l.next.Keys|
  {
    DistinctAt(c);
    forall i | 0 <= i < |c|
      ensures c[i] != e
    {
      if i > 0 {
        assert c[i - 1] != c[|c| - 1];
      }
    }
    DistinctPush(e, c);
    MembersSize(c + [e]);
    Within(Members(c + [e]), l.next.Keys);
  }

  lemma {:induction false} Within(a: set<Elem>, b: set<Elem>)
    requires a <= b
    ensures |a| <= |b|
  {
    assert b == a + (b - a);
  }

  /** Whatever is threaded from the same first element passes what has been walked. */
  lemma {:induction false} WalkPasses(l: Links, first: Elem?, c: seq<Elem>, e: Elem?, d: seq<Elem>, k: nat)
    requires Walked(l, first, c, e) && Threaded(l, first, d) && k <= |c|
    ensures k <= |d| && At(d, k) == if k < |c| then c[k] else e
    decreases k
  {
    if k > 0 {
      WalkPasses(l, first, c, e, d, k - 1);
      assert d[k - 1] == c[k - 1];
    }
  }

  lemma {:induction false} WalkIsPrefix(l: Links, first: Elem?, c: seq<Elem>, e: Elem?, d: seq<Elem>)
    requires Walked(l, first, c, e) && Threaded(l, first, d)
    ensures e == At(d, |c|) && (c == [] || (|c| <= |d| && c[|c| - 1] == d[|c| - 1]))
  {
    hide Walked, Threaded;
    WalkPasses(l, first, c, e, d, |c|);
    if c != [] {
      WalkPasses(l, first, c, e, d, |c| - 1);
    }
  }

  lemma {:induction false} ThreadsAgree(l: Links, first: Elem?, c: seq<Elem>, d: seq<Elem>, k: nat)
    requires Threaded(l, first, c) && Threaded(l, first, d) && k <= |c|
    ensures k <= |d| && At(c, k) == At(d, k)
    decreases k
  {
    if k > 0 {
      ThreadsAgree(l, first, c, d, k - 1);
      assert d[k - 1] == c[k - 1];
    }
  }

  /** There is at most one list from an element on. */
  lemma {:induction false} ThreadedOnce(l: Links, first: Elem?, c: seq<Elem>, d: seq<Elem>)
    requires Threaded(l, first, c) && Threaded(l, first, d)
    ensures c == d
  {
    hide Threaded;
    ThreadsAgree(l, first, c, d, |c|);
    forall k | 0 <= k < |c|
      ensures c[k] == d[k]
    {
      ThreadsAgree(l, first, c, d, k);
    }
  }

  ghost function ChainLinks(u: set<Elem>): (l: Links)
    reads u`hhNext, u`hhPrev
  {
    Links(map e | e in u :: e.hhNext, map e | e in u :: e.hhPrev)
  }

  ghost function ListLinks(u: set<Elem>): (l: Links)
    reads u`next, u`prev
  {
    Links(map e | e in u :: e.next, map e | e in u :: e.prev)
  }

  /** A walk that has passed c stands at an element with a wrong back link. */
  ghost predicate Broken(l: Links, first: Elem?, c: seq<Elem>, e: Elem?) {
    e != null && e in l.prev && Walked(l, first, c, e) && l.prev[e] != At(c, |c| - 1)
  }

  lemma {:induction false} BrokenThreadsNothing(l: Links, first: Elem?, c: seq<Elem>, e: Elem?, d: seq<Elem>)
    requires Broken(l, first, c, e)
    ensures !Threaded(l, first, d)
  {
    if Threaded(l, first, d) {
      WalkIsPrefix(l, first, c, e, d);
    }
  }

  /** A chain, its back links and its length; the walk ends even where the links form a ring. */
  method FsckChain(first: Elem?, ghost u: set<Elem>)
    returns (ok: bool, count: nat, ghost c: seq<Elem>, ghost e: Elem?)
    requires Closed(ChainLinks(u)) && (first == null || first in u)
    ensures if ok then count == |c| && Threaded(ChainLinks(u), first, c) else Broken(ChainLinks(u), first, c, e)
  {
    ghost var l := ChainLinks(u);
    ok, count, c := true, 0, [];
    var thh, prev: Elem? := first, null;
    while thh != null
      invariant ok && count == |c| && Walked(l, first, c, thh) && prev == At(c, count - 1)
      decreases |l.next.Keys| - count
    {
      if prev != thh.hhPrev {
        return false, count, c, thh;
      }
      WalkOn(l, first, c, thh);
      count, c := count + 1, c + [thh];
      prev := thh;
      thh := thh.hhNext;
    }
    e := null;
  }

  /** The list in application order, likewise. */
  method FsckList(head: Elem, numItems: nat, ghost u: set<Elem>) returns (ok: bool, ghost c: seq<Elem>)
    requires Closed(ListLinks(u)) && head in u
    ensures ok ==> Threaded(ListLinks(u), head, c) && |c| == numItems
    ensures !ok ==> forall d :: Threaded(ListLinks(u), head, d) ==> |d| != numItems
  {
    ghost var l := ListLinks(u);
    c := [];
    var count := 0;
    var thh: Elem?, prev: Elem? := head, null;
    while thh != null
      invariant count == |c| && Walked(l, head, c, thh) && prev == At(c, count - 1)
      decreases |l.next.Keys| - count
    {
      count := count + 1;
      if prev != thh.prev {
        forall d {
          BrokenThreadsNothing(l, head, c, thh, d);
        }
        return false, c;
      }
      WalkOn(l, head, c, thh);
      c := c + [thh];
      prev := thh;
      thh := thh.next;
    }
    assert Threaded(l, head, c);
    forall d | Threaded(l, head, d)
      ensures d == c
    {
      ThreadedOnce(l, head, c, d);
    }
    ok := count == numItems;
  }

  /** A bucket heads a chain and counts it. */
  ghost predicate Counts(l: Links, k: Bucket, c: seq<Elem>) {
    Threaded(l, k.head, c) && k.count == |c|
  }

  ghost predicate Counted(l: Links, buckets: seq<Bucket>, chains: seq<seq<Elem>>) {
    && |chains| <= |buckets|
    && forall b | 0 <= b < |chains| :: Counts(l, buckets[b], chains[b])
  }

  lemma {:induction false} CountedOnce(l: Links, buckets: seq<Bucket>, c: seq<seq<Elem>>, d: seq<seq<Elem>>)
    requires Counted(l, buckets, c) && Counted(l, buckets, d) && |c| == |d|
    ensures c == d
  {
    hide Threaded;
    forall b | 0 <= b < |c|
      ensures c[b] == d[b]
    {
      ThreadedOnce(l, buckets[b].head, c[b], d[b]);
    }
  }

  lemma {:induction false} WrongBucket(l: Links, buckets: seq<Bucket>, b: nat, linked: bool, c: seq<Elem>, e: Elem?,
                                       d: seq<seq<Elem>>)
    requires b < |buckets| && b < |d|
    requires if linked then Threaded(l, buckets[b].head, c) && buckets[b].count != |c|
             else Broken(l, buckets[b].head, c, e)
    ensures !Counted(l, buckets, d)
  {
    hide Threaded, Broken;
    if Counted(l, buckets, d) {
      assert Counts(l, buckets[b], d[b]);
      if linked {
        ThreadedOnce(l, buckets[b].head, c, d[b]);
      } else {
        BrokenThreadsNothing(l, buckets[b].head, c, e, d[b]);
      }
    }
  }

  ghost predicate BucketsSound(t: Table, u: set<Elem>, chains: seq<seq<Elem>>)
    reads t, t.buckets, u
  {
    |chains| == t.numBuckets && Counted(ChainLinks(u), t.buckets[..], chains) && Total(chains) == t.numItems
  }

  /** The buckets: back links and count of each, and their sum. */
  method FsckBuckets(t: Table, ghost u: set<Elem>) returns (ok: bool, ghost chains: seq<seq<Elem>>)
    requires Closed(ChainLinks(u)) && t.numBuckets <= t.buckets.Length
    requires forall b | 0 <= b < t.numBuckets :: t.buckets[b].head == null || t.buckets[b].head in u
    ensures ok ==> BucketsSound(t, u, chains)
    ensures !ok ==> forall d :: !BucketsSound(t, u, d)
  {
    hide Threaded, Closed;
    ghost var l := ChainLinks(u);
    chains := [];
    var count := 0;
    for b := 0 to t.numBuckets
      invariant |chains| == b && count == Total(chains) && Counted(l, t.buckets[..], chains)
    {
      var linked, n, c, e := FsckChain(t.buckets[b].head, u);
      if !linked || t.buckets[b].count != n {
        forall d | BucketsSound(t, u, d)
          ensures false
        {
          WrongBucket(l, t.buckets[..], b, linked, c, e, d);
        }
        return false, chains;
      }
      count := count + n;
      chains := chains + [c];
      assert chains[..b] + [c] == chains;
    }
    forall d | BucketsSound(t, u, d)
      ensures d == chains
    {
      CountedOnce(l, t.buckets[..], d, chains);
    }
    ok := count == t.numItems;
  }

  /** What HASH_FSCK accepts: a list and chains that are linked both ways, with the counts of the table. */
  ghost predicate Sound(head: Elem, t: Table, u: set<Elem>, items: seq<Elem>, chains: seq<seq<Elem>>)
    reads t, t.buckets, u
  {
    && Threaded(ListLinks(u), head, items) && |items| == t.numItems
    && BucketsSound(t, u, chains)
  }

  /** HASH_FSCK, on any elements and any counts. */
  method Fsck(head: Elem, t: Table, ghost u: set<Elem>) returns (ok: bool)
    requires Closed(ChainLinks(u)) && Closed(ListLinks(u)) && head in u && t.numBuckets <= t.buckets.Length
    requires forall b | 0 <= b < t.numBuckets :: t.buckets[b].head == null || t.buckets[b].head in u
    ensures ok <==> exists items, chains :: Sound(head, t, u, items, chains)
  {
    hide Threaded, BucketsSound;
    ghost var items: seq<Elem>, chains: seq<seq<Elem>> := [], [];
    ok, chains := FsckBuckets(t, u);
    if ok {
      ok, items := FsckList(head, t.numItems, u);
    }
    assert ok ==> Sound(head, t, u, items, chains);
  }
}
