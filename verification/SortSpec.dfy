/**
 Bottom-up mergesort on sequences: what HASH_SRT computes, and why the result is
 a stable sorted permutation whenever the comparison is a total preorder.
 */
module SortSpec {
  import opened Lists

  function Min(a: nat, b: nat): (m: nat) {
    if a <= b then a else b
  }

  /** Merge two runs; on a tie the element of the first run goes first. */
  ghost function Merge<T>(cmp: (T, T) -> int, p: seq<T>, q: seq<T>): (r: seq<T>)
    ensures |r| == |p| + |q|
  {
    if p == [] then q
    else if q == [] then p
    else if cmp(p[0], q[0]) <= 0 then [p[0]] + Merge(cmp, p[1..], q)
    else [q[0]] + Merge(cmp, p, q[1..])
  }

  /** One pass: merge neighbouring runs of length k. */
  ghost function Pass<T>(cmp: (T, T) -> int, s: seq<T>, k: nat): (r: seq<T>)
    requires k > 0
    ensures |r| == |s|
  {
    if s == [] then []
    else
      var m, e := Min(k, |s|), Min(2 * k, |s|);
      Merge(cmp, s[..m], s[m..e]) + Pass(cmp, s[e..], k)
  }

  /** Passes with doubling run length, until one pass needs a single merge. */
  ghost function Sort<T>(cmp: (T, T) -> int, s: seq<T>, k: nat): (r: seq<T>)
    requires k > 0
    ensures |r| == |s|
    decreases if |s| > k then |s| - k else 0
  {
    var s' := Pass(cmp, s, k);
    if |s| <= 2 * k then s' else Sort(cmp, s', 2 * k)
  }

  // What the result means

  ghost predicate TotalPreorder<T>(cmp: (T, T) -> int, u: set<T>) {
    && (forall a, b | a in u && b in u :: cmp(a, b) <= 0 || cmp(b, a) <= 0)
    && (forall a, b, c {:trigger cmp(a, b), cmp(b, c)} | a in u && b in u && c in u ::
          cmp(a, b) <= 0 && cmp(b, c) <= 0 ==> cmp(a, c) <= 0)
  }

  ghost predicate Sorted<T>(cmp: (T, T) -> int, s: seq<T>) {
    forall i, j | 0 <= i < j < |s| :: cmp(s[i], s[j]) <= 0
  }

  /** Every aligned run of length k is sorted. */
  ghost predicate Runs<T>(cmp: (T, T) -> int, s: seq<T>, k: nat)
    requires k > 0
  {
    if |s| <= k then Sorted(cmp, s) else Sorted(cmp, s[..k]) && Runs(cmp, s[k..], k)
  }

  /** The elements of s that compare equal to x, in the order of s. */
  ghost function Class<T>(cmp: (T, T) -> int, s: seq<T>, x: T): (r: seq<T>) {
    if s == [] then []
    else (if cmp(s[0], x) <= 0 && cmp(x, s[0]) <= 0 then [s[0]] else []) + Class(cmp, s[1..], x)
  }

  lemma {:induction false} MergePermutes<T>(cmp: (T, T) -> int, p: seq<T>, q: seq<T>)
    ensures multiset(Merge(cmp, p, q)) == multiset(p) + multiset(q)
  {
    if p != [] && q != [] {
      assert p == [p[0]] + p[1..] && q == [q[0]] + q[1..];
      if cmp(p[0], q[0]) <= 0 {
        MergePermutes(cmp, p[1..], q);
      } else {
        MergePermutes(cmp, p, q[1..]);
      }
    }
  }

  lemma {:induction false} PassPermutes<T>(cmp: (T, T) -> int, s: seq<T>, k: nat)
    requires k > 0
    ensures multiset(Pass(cmp, s, k)) == multiset(s)
  {
    if s != [] {
      var m, e := Min(k, |s|), Min(2 * k, |s|);
      MergePermutes(cmp, s[..m], s[m..e]);
      PassPermutes(cmp, s[e..], k);
      Split(s, m, e);
    }
  }

  lemma {:induction false} Split<T>(s: seq<T>, m: nat, e: nat)
    requires m <= e <= |s|
    ensures s == s[..m] + s[m..e] + s[e..]
    ensures multiset(s) == multiset(s[..m]) + multiset(s[m..e]) + multiset(s[e..])
  {
    assert s == s[..m] + s[m..e] + s[e..];
  }

  lemma {:induction false} SortPermutes<T>(cmp: (T, T) -> int, s: seq<T>, k: nat)
    requires k > 0
    ensures multiset(Sort(cmp, s, k)) == multiset(s)
    decreases if |s| > k then |s| - k else 0
  {
    PassPermutes(cmp, s, k);
    if |s| > 2 * k {
      SortPermutes(cmp, Pass(cmp, s, k), 2 * k);
    }
  }

  lemma {:induction false} WithinPermuted<T>(s: seq<T>, t: seq<T>, u: set<T>)
    requires Within(s, u) && multiset(s) == multiset(t)
    ensures Within(t, u)
  {
    forall i | 0 <= i < |t|
      ensures t[i] in u
    {
      assert t[i] in multiset(t);
      assert t[i] in s;
    }
  }

  lemma {:induction false} MergeSorts<T>(cmp: (T, T) -> int, p: seq<T>, q: seq<T>, u: set<T>)
    requires TotalPreorder(cmp, u) && Within(p, u) && Within(q, u)
    requires Sorted(cmp, p) && Sorted(cmp, q)
    ensures Sorted(cmp, Merge(cmp, p, q)) && Within(Merge(cmp, p, q), u)
  {
    hide TotalPreorder;
    if p != [] && q != [] {
      var x, rest;
      if cmp(p[0], q[0]) <= 0 {
        MergeSorts(cmp, p[1..], q, u);
        MergePermutes(cmp, p[1..], q);
        x, rest := p[0], Merge(cmp, p[1..], q);
        Below(cmp, x, p[1..], q, rest, u);
      } else {
        MergeSorts(cmp, p, q[1..], u);
        MergePermutes(cmp, p, q[1..]);
        x, rest := q[0], Merge(cmp, p, q[1..]);
        Total(cmp, p[0], x, u);
        Below(cmp, x, p, q[1..], rest, u);
      }
    }
  }

  lemma {:induction false} Total<T>(cmp: (T, T) -> int, a: T, b: T, u: set<T>)
    requires TotalPreorder(cmp, u) && a in u && b in u
    ensures cmp(a, b) <= 0 || cmp(b, a) <= 0
  {
  }

  /** An element not after any element of p and q is not after any element of their merge. */
  lemma {:induction false} Below<T>(cmp: (T, T) -> int, x: T, p: seq<T>, q: seq<T>, r: seq<T>, u: set<T>)
    requires TotalPreorder(cmp, u) && Within(p, u) && Within(q, u) && x in u
    requires multiset(r) == multiset(p) + multiset(q)
    requires p == [] || (cmp(x, p[0]) <= 0 && Sorted(cmp, p))
    requires q == [] || (cmp(x, q[0]) <= 0 && Sorted(cmp, q))
    ensures forall i | 0 <= i < |r| :: cmp(x, r[i]) <= 0 && r[i] in u
  {
    forall i | 0 <= i < |r|
      ensures cmp(x, r[i]) <= 0 && r[i] in u
    {
      assert r[i] in multiset(r);
      if r[i] in multiset(p) {
        var j :| 0 <= j < |p| && p[j] == r[i];
        assert p[0] in u;
      } else {
        var j :| 0 <= j < |q| && q[j] == r[i];
        assert q[0] in u;
      }
    }
  }

  lemma {:induction false} PassSorts<T>(cmp: (T, T) -> int, s: seq<T>, k: nat, u: set<T>)
    requires k > 0 && TotalPreorder(cmp, u) && Within(s, u) && Runs(cmp, s, k)
    ensures Runs(cmp, Pass(cmp, s, k), 2 * k)
  {
    if s != [] {
      var m, e := Min(k, |s|), Min(2 * k, |s|);
      var merged, rest := Merge(cmp, s[..m], s[m..e]), Pass(cmp, s[e..], k);
      if |s| > k {
        assert s[k..][..e - k] == s[m..e];
        if |s| > 2 * k {
          assert s[k..][k..] == s[e..];
        }
      }
      MergeSorts(cmp, s[..m], s[m..e], u);
      if e < |s| {
        PassSorts(cmp, s[e..], k, u);
        assert (merged + rest)[..2 * k] == merged && (merged + rest)[2 * k..] == rest;
      } else {
        assert rest == [] && merged + rest == merged;
      }
    }
  }

  lemma {:induction false} SortSorts<T>(cmp: (T, T) -> int, s: seq<T>, k: nat, u: set<T>)
    requires k > 0 && TotalPreorder(cmp, u) && Within(s, u) && Runs(cmp, s, k)
    ensures Sorted(cmp, Sort(cmp, s, k))
    decreases if |s| > k then |s| - k else 0
  {
    PassSorts(cmp, s, k, u);
    if |s| > 2 * k {
      PassPermutes(cmp, s, k);
      WithinPermuted(s, Pass(cmp, s, k), u);
      SortSorts(cmp, Pass(cmp, s, k), 2 * k, u);
    }
  }

  lemma {:induction false} SingleRuns<T>(cmp: (T, T) -> int, s: seq<T>)
    ensures Runs(cmp, s, 1)
  {
    if |s| > 1 {
      SingleRuns(cmp, s[1..]);
    }
  }

  lemma {:induction false} ClassStep<T>(cmp: (T, T) -> int, s: seq<T>, x: T)
    ensures Class(cmp, s, x) ==
            if s == [] then []
            else (if cmp(s[0], x) <= 0 && cmp(x, s[0]) <= 0 then [s[0]] else []) + Class(cmp, s[1..], x)
  {
  }

  lemma {:induction false} ClassOfConcat<T>(cmp: (T, T) -> int, p: seq<T>, q: seq<T>, x: T)
    ensures Class(cmp, p + q, x) == Class(cmp, p, x) + Class(cmp, q, x)
  {
    hide Class;
    ClassStep(cmp, p, x);
    if p == [] {
      assert p + q == q && [] + Class(cmp, q, x) == Class(cmp, q, x);
    } else {
      ClassOfConcat(cmp, p[1..], q, x);
      assert (p + q)[0] == p[0] && (p + q)[1..] == p[1..] + q;
      ClassStep(cmp, p + q, x);
      var first := if cmp(p[0], x) <= 0 && cmp(x, p[0]) <= 0 then [p[0]] else [];
      assert first + (Class(cmp, p[1..], x) + Class(cmp, q, x)) == (first + Class(cmp, p[1..], x)) + Class(cmp, q, x);
    }
  }

  /** If y precedes p[0] strictly and is equal to x, then p, sorted, holds nothing equal to x. */
  lemma {:induction false} NoneAfter<T>(cmp: (T, T) -> int, p: seq<T>, y: T, x: T, u: set<T>)
    requires TotalPreorder(cmp, u) && Within(p, u) && y in u && x in u
    requires cmp(y, x) <= 0 && cmp(x, y) <= 0
    requires forall i | 0 <= i < |p| :: cmp(p[i], y) > 0
    ensures Class(cmp, p, x) == []
  {
    if p != [] {
      NoneAfter(cmp, p[1..], y, x, u);
      assert p[0] in u;
    }
  }

  lemma {:induction false} AllAfter<T>(cmp: (T, T) -> int, p: seq<T>, y: T, u: set<T>)
    requires TotalPreorder(cmp, u) && Within(p, u) && y in u
    requires p != [] && Sorted(cmp, p) && cmp(p[0], y) > 0
    ensures forall i | 0 <= i < |p| :: cmp(p[i], y) > 0
  {
    forall i | 0 <= i < |p|
      ensures cmp(p[i], y) > 0
    {
      assert p[0] in u && p[i] in u;
      assert i > 0 ==> cmp(p[0], p[i]) <= 0;
    }
  }

  lemma {:induction false} MergeStable<T>(cmp: (T, T) -> int, p: seq<T>, q: seq<T>, x: T, u: set<T>)
    requires TotalPreorder(cmp, u) && Within(p, u) && Within(q, u) && x in u
    requires Sorted(cmp, p) && Sorted(cmp, q)
    ensures Class(cmp, Merge(cmp, p, q), x) == Class(cmp, p, x) + Class(cmp, q, x)
  {
    hide TotalPreorder;
    if p != [] && q != [] {
      if cmp(p[0], q[0]) <= 0 {
        MergeStable(cmp, p[1..], q, x, u);
      } else {
        MergeStable(cmp, p, q[1..], x, u);
        if cmp(q[0], x) <= 0 && cmp(x, q[0]) <= 0 {
          AllAfter(cmp, p, q[0], u);
          NoneAfter(cmp, p, q[0], x, u);
        }
      }
    }
  }

  lemma {:induction false} PassStable<T>(cmp: (T, T) -> int, s: seq<T>, k: nat, x: T, u: set<T>)
    requires k > 0 && TotalPreorder(cmp, u) && Within(s, u) && x in u && Runs(cmp, s, k)
    ensures Class(cmp, Pass(cmp, s, k), x) == Class(cmp, s, x)
  {
    hide Runs, TotalPreorder, Pass, Merge, Class, Sorted, Within;
    if s == [] {
    } else {
      var m, e := Min(k, |s|), Min(2 * k, |s|);
      var a, b, c := s[..m], s[m..e], s[e..];
      RunsApart(cmp, s, k);
      PassParts(cmp, s, k);
      WithinParts(s, m, e, u);
      MergeStable(cmp, a, b, x, u);
      PassStable(cmp, c, k, x, u);
      ClassOfConcat(cmp, Merge(cmp, a, b), Pass(cmp, c, k), x);
      ClassOfConcat(cmp, a, b, x);
      ClassOfConcat(cmp, a + b, c, x);
    }
  }

  lemma {:induction false} PassParts<T>(cmp: (T, T) -> int, s: seq<T>, k: nat)
    requires k > 0 && s != []
    ensures var m, e := Min(k, |s|), Min(2 * k, |s|);
            s == s[..m] + s[m..e] + s[e..] && Pass(cmp, s, k) == Merge(cmp, s[..m], s[m..e]) + Pass(cmp, s[e..], k)
  {
  }

  lemma {:induction false} WithinParts<T>(s: seq<T>, m: nat, e: nat, u: set<T>)
    requires Within(s, u) && m <= e <= |s|
    ensures Within(s[..m], u) && Within(s[m..e], u) && Within(s[e..], u)
  {
  }

  lemma {:induction false} RunsApart<T>(cmp: (T, T) -> int, s: seq<T>, k: nat)
    requires k > 0 && Runs(cmp, s, k)
    ensures var m, e := Min(k, |s|), Min(2 * k, |s|);
            Sorted(cmp, s[..m]) && Sorted(cmp, s[m..e]) && Runs(cmp, s[e..], k)
  {
    if |s| <= k {
      assert s[..|s|] == s;
    } else if |s| <= 2 * k {
      assert s[k..|s|] == s[k..];
    } else {
      assert s[k..][..k] == s[k..2 * k] && s[k..][k..] == s[2 * k..];
    }
  }

  lemma {:induction false} SortStable<T>(cmp: (T, T) -> int, s: seq<T>, k: nat, x: T, u: set<T>)
    requires k > 0 && TotalPreorder(cmp, u) && Within(s, u) && x in u && Runs(cmp, s, k)
    ensures Class(cmp, Sort(cmp, s, k), x) == Class(cmp, s, x)
    decreases if |s| > k then |s| - k else 0
  {
    PassStable(cmp, s, k, x, u);
    if |s| > 2 * k {
      PassSorts(cmp, s, k, u);
      PassPermutes(cmp, s, k);
      WithinPermuted(s, Pass(cmp, s, k), u);
      SortStable(cmp, Pass(cmp, s, k), 2 * k, x, u);
    }
  }

  /**
   The sort of HASH_SRT, which starts with runs of one element: for a total
   preorder the result is sorted, has the same elements, and keeps elements that
   compare equal in their order.
   */
  lemma {:induction false} StableSort<T>(cmp: (T, T) -> int, s: seq<T>, u: set<T>)
    requires TotalPreorder(cmp, u) && Within(s, u)
    ensures Sorted(cmp, Sort(cmp, s, 1))
    ensures multiset(Sort(cmp, s, 1)) == multiset(s)
    ensures forall x | x in u :: Class(cmp, Sort(cmp, s, 1), x) == Class(cmp, s, x)
  {
    SingleRuns(cmp, s);
    SortSorts(cmp, s, 1, u);
    SortPermutes(cmp, s, 1);
    forall x | x in u
      ensures Class(cmp, Sort(cmp, s, 1), x) == Class(cmp, s, x)
    {
      SortStable(cmp, s, 1, x, u);
    }
  }
}
