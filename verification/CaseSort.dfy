/** The merge sort of cJSONUtils_SortList on sequences: it sorts by name, ignoring case. */
module CaseSort {
  import opened CaseOrder
  import opened CText

  /** The test for a list that needs no sorting. */
  predicate Increasing<T>(key: T -> string, s: seq<T>) {
    forall i | 0 <= i < |s| - 1 :: Strcasecmp(key(s[i]), key(s[i + 1])) < 0
  }

  function Merge<T>(key: T -> string, p: seq<T>, q: seq<T>): (r: seq<T>)
    ensures |r| == |p| + |q|
  {
    if p == [] then q
    else if q == [] then p
    else if Strcasecmp(key(p[0]), key(q[0])) < 0 then [p[0]] + Merge(key, p[1..], q)
    else [q[0]] + Merge(key, p, q[1..])
  }

  function SortList<T>(key: T -> string, s: seq<T>): (r: seq<T>)
    ensures |r| == |s|
    decreases |s|
  {
    if |s| <= 1 || Increasing(key, s) then s
    else
      var m := (|s| + 1) / 2;
      Merge(key, SortList(key, s[..m]), SortList(key, s[m..]))
  }

  predicate Sorted<T>(key: T -> string, s: seq<T>) {
    forall i, j | 0 <= i < j < |s| :: Strcasecmp(key(s[i]), key(s[j])) <= 0
  }

  predicate Keyed<T>(key: T -> string, s: seq<T>) {
    forall i | 0 <= i < |s| :: CString(key(s[i]))
  }

  lemma {:induction false} MergePermutes<T>(key: T -> string, p: seq<T>, q: seq<T>)
    ensures multiset(Merge(key, p, q)) == multiset(p) + multiset(q)
  {
    if p != [] && q != [] {
      assert p == [p[0]] + p[1..] && q == [q[0]] + q[1..];
      if Strcasecmp(key(p[0]), key(q[0])) < 0 {
        MergePermutes(key, p[1..], q);
      } else {
        MergePermutes(key, p, q[1..]);
      }
    }
  }

  lemma {:induction false} SortPermutes<T>(key: T -> string, s: seq<T>)
    ensures multiset(SortList(key, s)) == multiset(s)
    decreases |s|
  {
    if |s| > 1 && !Increasing(key, s) {
      HalvesPermute(key, s, (|s| + 1) / 2);
    }
  }

  lemma {:induction false} HalvesPermute<T>(key: T -> string, s: seq<T>, m: nat)
    requires 0 < m < |s|
    ensures multiset(Merge(key, SortList(key, s[..m]), SortList(key, s[m..]))) == multiset(s)
    decreases |s|, 0
  {
    hide Merge, SortList;
    SortPermutes(key, s[..m]);
    SortPermutes(key, s[m..]);
    MergePermutes(key, SortList(key, s[..m]), SortList(key, s[m..]));
    assert s == s[..m] + s[m..];
  }

  lemma {:induction false} MemberOf<T>(s: seq<T>, t: seq<T>, i: nat)
    requires multiset(s) == multiset(t) && i < |s|
    ensures exists j :: 0 <= j < |t| && t[j] == s[i]
  {
    assert s[i] in multiset(t);
  }

  lemma {:induction false} KeyedPermuted<T>(key: T -> string, s: seq<T>, t: seq<T>)
    requires Keyed(key, s) && multiset(s) == multiset(t)
    ensures Keyed(key, t)
  {
    forall i | 0 <= i < |t|
      ensures CString(key(t[i]))
    {
      MemberOf(t, s, i);
    }
  }

  lemma {:induction false} IncreasingSorts<T>(key: T -> string, s: seq<T>)
    requires Increasing(key, s)
    ensures Sorted(key, s)
  {
    forall i, j | 0 <= i < j < |s|
      ensures Strcasecmp(key(s[i]), key(s[j])) <= 0
    {
      IncreasingAt(key, s, i, j);
    }
  }

  lemma {:induction false} IncreasingAt<T>(key: T -> string, s: seq<T>, i: nat, j: nat)
    requires Increasing(key, s) && i < j < |s|
    ensures Strcasecmp(key(s[i]), key(s[j])) < 0
    decreases j - i
  {
    if i + 1 < j {
      IncreasingAt(key, s, i + 1, j);
      CaseOrderTransitive(key(s[i]), key(s[i + 1]), key(s[j]));
    }
  }

  lemma {:induction false} BelowAll<T>(key: T -> string, x: T, s: seq<T>)
    requires Sorted(key, s) && s != [] && Strcasecmp(key(x), key(s[0])) <= 0
    ensures forall i | 0 <= i < |s| :: Strcasecmp(key(x), key(s[i])) <= 0
  {
    forall i | 0 <= i < |s|
      ensures Strcasecmp(key(x), key(s[i])) <= 0
    {
      if i > 0 {
        CaseOrderTransitive(key(x), key(s[0]), key(s[i]));
      }
    }
  }

  lemma {:induction false} MergeSorts<T>(key: T -> string, p: seq<T>, q: seq<T>)
    requires Sorted(key, p) && Sorted(key, q) && Keyed(key, p) && Keyed(key, q)
    ensures Sorted(key, Merge(key, p, q))
  {
    if p != [] && q != [] {
      CaseOrderTotal(key(p[0]), key(q[0]));
      if Strcasecmp(key(p[0]), key(q[0])) < 0 {
        MergeSorts(key, p[1..], q);
        MergedAbove(key, p[0], p, q, p[1..], q);
      } else {
        MergeSorts(key, p, q[1..]);
        MergedAbove(key, q[0], q, p, p, q[1..]);
      }
    }
  }

  /** x, the first of one list and not above the first of the other, stays below what is left. */
  lemma {:induction false} MergedAbove<T>(key: T -> string, x: T, own: seq<T>, other: seq<T>, p: seq<T>, q: seq<T>)
    requires Sorted(key, own) && Sorted(key, other) && own != [] && other != [] && Keyed(key, own)
    requires x == own[0] && Strcasecmp(key(x), key(other[0])) <= 0
    requires (p == own[1..] && q == other) || (p == other && q == own[1..])
    requires Sorted(key, Merge(key, p, q))
    ensures Sorted(key, [x] + Merge(key, p, q))
  {
    BelowAll(key, x, other);
    MergePermutes(key, p, q);
    var r := Merge(key, p, q);
    forall j | 0 <= j < |r|
      ensures Strcasecmp(key(x), key(r[j])) <= 0
    {
      assert multiset(p) + multiset(q) == multiset(p + q);
      MemberOf(r, p + q, j);
    }
  }

  /** SortList sorts, and keeps the elements. */
  lemma {:induction false} SortSorts<T>(key: T -> string, s: seq<T>)
    requires Keyed(key, s)
    ensures Sorted(key, SortList(key, s)) && multiset(SortList(key, s)) == multiset(s)
    decreases |s|
  {
    SortPermutes(key, s);
    if |s| > 1 {
      if Increasing(key, s) {
        IncreasingSorts(key, s);
      } else {
        var m := (|s| + 1) / 2;
        SortSorts(key, s[..m]);
        SortSorts(key, s[m..]);
        KeyedPermuted(key, s[..m], SortList(key, s[..m]));
        KeyedPermuted(key, s[m..], SortList(key, s[m..]));
        MergeSorts(key, SortList(key, s[..m]), SortList(key, s[m..]));
      }
    }
  }

  /** The first name is below all others. */
  predicate First<T>(key: T -> string, s: seq<T>) {
    forall i | 0 < i < |s| :: Strcasecmp(key(s[0]), key(s[i])) < 0
  }

  lemma {:induction false} MergeHead<T>(key: T -> string, p: seq<T>, q: seq<T>)
    requires p != [] && q != []
    ensures |Merge(key, p, q)| > 0
    ensures Merge(key, p, q)[0] == if Strcasecmp(key(p[0]), key(q[0])) < 0 then p[0] else q[0]
  {
  }

  /** x is below the first of a sorted list exactly if it is below all of the list that was sorted. */
  lemma {:induction false} BelowSorted<T>(key: T -> string, x: T, s: seq<T>, q: seq<T>)
    requires s != [] && multiset(q) == multiset(s) && Sorted(key, q)
    ensures |q| == |s|
    ensures Strcasecmp(key(x), key(q[0])) < 0 <==> forall i | 0 <= i < |s| :: Strcasecmp(key(x), key(s[i])) < 0
    ensures q[0] in s
  {
    assert |multiset(q)| == |q| && |multiset(s)| == |s|;
    MemberOf(q, s, 0);
    if Strcasecmp(key(x), key(q[0])) < 0 {
      forall i | 0 <= i < |s|
        ensures Strcasecmp(key(x), key(s[i])) < 0
      {
        MemberOf(s, q, i);
        var j :| 0 <= j < |q| && q[j] == s[i];
        if j > 0 {
          CaseOrderTransitive(key(x), key(q[0]), key(q[j]));
        }
      }
    }
  }

  /** The first element stays first exactly if its name is below all others; among equal names a later one wins. */
  lemma {:induction false} SortKeepsFirst<T>(key: T -> string, s: seq<T>)
    requires Keyed(key, s) && s != [] && forall i | 0 < i < |s| :: s[i] != s[0]
    ensures SortList(key, s)[0] == s[0] <==> First(key, s)
    decreases |s|
  {
    if |s| > 1 {
      if Increasing(key, s) {
        forall i | 0 < i < |s|
          ensures Strcasecmp(key(s[0]), key(s[i])) < 0
        {
          IncreasingAt(key, s, 0, i);
        }
      } else {
        FirstOfHalves(key, s, (|s| + 1) / 2);
      }
    }
  }

  lemma {:induction false} FirstOfHalves<T>(key: T -> string, s: seq<T>, m: nat)
    requires Keyed(key, s) && 0 < m < |s| && forall i | 0 < i < |s| :: s[i] != s[0]
    ensures Merge(key, SortList(key, s[..m]), SortList(key, s[m..]))[0] == s[0] <==> First(key, s)
    decreases |s|, 0
  {
    hide Merge, SortList;
    var p, q := SortList(key, s[..m]), SortList(key, s[m..]);
    SortKeepsFirst(key, s[..m]);
    SortSorts(key, s[m..]);
    BelowSorted(key, s[0], s[m..], q);
    MergeHead(key, p, q);
    assert First(key, s) <==> First(key, s[..m]) && forall i | 0 <= i < |s| - m ::
             Strcasecmp(key(s[0]), key(s[m..][i])) < 0 by {
      assert forall i | m <= i < |s| :: s[i] == s[m..][i - m];
    }
  }
}
