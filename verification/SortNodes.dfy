/** cJSONUtils_SortList on the nodes themselves: it relinks them in place. */
module SortNodes {
  import opened CaseOrder
  import opened CaseSort
  import opened Lists
  import opened ChildList

  /** The names of nodes as a function, so that the specification does not depend on the links. */
  ghost function NameIn(names: map<Node, string>): (key: Node -> string) {
    n => if n in names then names[n] else ""
  }

  ghost predicate Named(s: seq<Node>, names: map<Node, string>)
    reads s`name
  {
    forall i | 0 <= i < |s| :: s[i] in names && s[i].name == names[s[i]]
  }

  /** The loop that tests for a sorted list. */
  method TestSorted(list: Node, ghost s: seq<Node>, ghost names: map<Node, string>) returns (sorted: bool)
    requires Chained(list, s) && Named(s, names) && s != []
    ensures sorted <==> Increasing(NameIn(names), s)
  {
    var ptr: Node := list;
    ghost var i: int := 0;
    while ptr.next != null && Strcasecmp(ptr.name, ptr.next.name) < 0
      invariant 0 <= i < |s| && ptr == s[i]
      invariant forall k | 0 <= k < i :: Strcasecmp(NameIn(names)(s[k]), NameIn(names)(s[k + 1])) < 0
      decreases |s| - i
    {
      ptr, i := ptr.next, i + 1;
    }
    sorted := ptr.next == null;
    assert !sorted ==> !(Strcasecmp(NameIn(names)(s[i]), NameIn(names)(s[i + 1])) < 0);
  }

  /** Walks two pointers, one at double speed, to find the middle. */
  method FindMiddle(list: Node, ghost s: seq<Node>) returns (second: Node?)
    requires Chained(list, s) && |s| > 1
    ensures second == At(s, (|s| + 1) / 2)
  {
    second := list;
    var ptr: Node? := list;
    ghost var i := 0;
    while ptr != null
      invariant 0 <= i <= (|s| + 1) / 2 && second == At(s, i) && ptr == At(s, 2 * i)
      decreases |s| - i
    {
      assert second.next == At(s, i + 1);
      second := second.next;
      ptr := ptr.next;
      if ptr != null { ptr := ptr.next; }
      i := i + 1;
    }
  }

  /** Cuts the list before second. */
  method Split(second: Node, ghost s: seq<Node>, ghost m: nat)
    requires 1 <= m < |s| && second == s[m] && Distinct(s) && Chained(s[0], s)
    modifies s`next
    ensures Chained(s[0], s[..m]) && Chained(second, s[m..])
  {
    DistinctAt(s);
    if second.prev != null {
      second.prev.next := null;
    }
  }

  /** The merged nodes, still without a terminating link. */
  ghost predicate Open(out: seq<Node>)
    reads out`next, out`prev
  {
    && (forall i {:trigger out[i].next} | 0 <= i < |out| - 1 :: out[i].next == At(out, i + 1))
    && (forall i {:trigger out[i].prev} | 1 <= i < |out| :: out[i].prev == At(out, i - 1))
  }

  /** s from position i up to e is linked as a list of its own. */
  ghost predicate Rest(s: seq<Node>, i: nat, e: nat)
    requires e <= |s|
    reads s`next, s`prev
  {
    && (forall k {:trigger s[k].next} | i <= k < e :: s[k].next == if k + 1 < e then s[k + 1] else null)
    && (forall k {:trigger s[k].prev} | i + 1 <= k < e :: s[k].prev == s[k - 1])
  }

  /** The merge of s[..m] and s[m..] has taken the first i of one and the nodes up to j of the other. */
  ghost predicate Merging(key: Node -> string, s: seq<Node>, pos: map<Node, nat>, out: seq<Node>, i: nat, m: nat,
                          j: nat,
                          goal: seq<Node>)
    reads s`next, s`prev, out`next, out`prev
  {
    && i <= m <= j <= |s| && |out| == i + (j - m)
    && Open(out) && Rest(s, i, m) && Rest(s, j, |s|)
    && (forall k | 0 <= k < |out| :: out[k] in pos && (pos[out[k]] < i || m <= pos[out[k]] < j))
    && (forall k, l | 0 <= k < l < |out| :: out[k] != out[l])
    && out + Merge(key, s[i..m], s[j..]) == goal
  }

  /** Appends the node x to the merged list. */
  method Take(x: Node, list: Node?, ptr: Node?, ghost out: seq<Node>) returns (list': Node)
    requires Open(out) && x !in out && (forall k, l | 0 <= k < l < |out| :: out[k] != out[l])
    requires list == At(out, 0) && ptr == At(out, |out| - 1)
    modifies x`prev, (if ptr == null then {} else {ptr})`next
    ensures Open(out + [x]) && list' == At(out + [x], 0)
    ensures list == null ==> x.prev == old(x.prev)
  {
    ghost var out' := out + [x];
    if list == null {
      list' := x;
    } else {
      ptr.next := x;
      x.prev := ptr;
      list' := list;
    }
    forall k | 0 <= k < |out'|
      ensures k < |out'| - 1 ==> out'[k].next == At(out', k + 1)
      ensures 1 <= k ==> out'[k].prev == At(out', k - 1)
    {
      assert k < |out| - 1 ==> old(out[k].next) == At(out, k + 1);
      assert 1 <= k < |out| ==> old(out[k].prev) == At(out, k - 1);
    }
  }

  lemma {:induction false} MergeTakes(key: Node -> string, s: seq<Node>, i: nat, m: nat, j: nat, out: seq<Node>)
    requires i < m <= j < |s|
    ensures if Strcasecmp(key(s[i]), key(s[j])) < 0
            then out + Merge(key, s[i..m], s[j..]) == (out + [s[i]]) + Merge(key, s[i + 1..m], s[j..])
            else out + Merge(key, s[i..m], s[j..]) == (out + [s[j]]) + Merge(key, s[i..m], s[j + 1..])
  {
    assert s[i..m][1..] == s[i + 1..m] && s[j..][1..] == s[j + 1..];
    if Strcasecmp(key(s[i]), key(s[j])) < 0 {
      assert out + ([s[i]] + Merge(key, s[i + 1..m], s[j..])) == (out + [s[i]]) + Merge(key, s[i + 1..m], s[j..]);
    } else {
      assert out + ([s[j]] + Merge(key, s[i..m], s[j + 1..])) == (out + [s[j]]) + Merge(key, s[i..m], s[j + 1..]);
    }
  }

  /** The branch of the merge loop that takes from the first list. */
  method TakeFirst(x: Node, list: Node?, ptr: Node?, ghost key: Node -> string, ghost s: seq<Node>,
                   ghost pos: map<Node, nat>,
                   ghost out: seq<Node>, ghost i: nat, ghost m: nat, ghost j: nat, ghost goal: seq<Node>)
    returns (list': Node, next: Node?)
    requires Positions(s, pos) && Merging(key, s, pos, out, i, m, j, goal)
    requires i < m && j < |s| && x == s[i] && Strcasecmp(key(s[i]), key(s[j])) < 0
    requires list == At(out, 0) && ptr == At(out, |out| - 1)
    modifies x`prev, (if ptr == null then {} else {ptr})`next
    ensures Merging(key, s, pos, out + [x], i + 1, m, j, goal)
    ensures if list == null then x.prev == old(x.prev) else list.prev == old(list.prev)
    ensures list' == At(out + [x], 0) && next == if i + 1 < m then s[i + 1] else null
  {
    hide Merge, Strcasecmp;
    assert x !in out && forall k | i <= k < m || j <= k < |s| :: s[k] != ptr;
    MergeTakes(key, s, i, m, j, out);
    list' := Take(x, list, ptr, out);
    next := x.next;
  }

  /** The branch of the merge loop that takes from the second list. */
  method TakeSecond(x: Node, list: Node?, ptr: Node?, ghost key: Node -> string, ghost s: seq<Node>,
                    ghost pos: map<Node, nat>,
                    ghost out: seq<Node>, ghost i: nat, ghost m: nat, ghost j: nat, ghost goal: seq<Node>)
    returns (list': Node, next: Node?)
    requires Positions(s, pos) && Merging(key, s, pos, out, i, m, j, goal)
    requires i < m && j < |s| && x == s[j] && Strcasecmp(key(s[i]), key(s[j])) >= 0
    requires list == At(out, 0) && ptr == At(out, |out| - 1)
    modifies x`prev, (if ptr == null then {} else {ptr})`next
    ensures Merging(key, s, pos, out + [x], i, m, j + 1, goal)
    ensures if list == null then x.prev == old(x.prev) else list.prev == old(list.prev)
    ensures list' == At(out + [x], 0) && next == At(s, j + 1)
  {
    hide Merge, Strcasecmp;
    assert x !in out && forall k | i <= k < m || j <= k < |s| :: s[k] != ptr;
    MergeTakes(key, s, i, m, j, out);
    list' := Take(x, list, ptr, out);
    next := x.next;
  }

  lemma {:induction false} KeyIs(s: seq<Node>, names: map<Node, string>, k: nat)
    requires Named(s, names) && k < |s|
    ensures NameIn(names)(s[k]) == s[k].name
  {
  }

  /** The merge loop, up to where one of the lists is exhausted. */
  method MergeLoop(first0: Node, second0: Node, ghost s: seq<Node>, ghost m: nat, ghost pos: map<Node, nat>,
                   ghost names: map<Node, string>, ghost goal: seq<Node>, ghost all: set<Node>)
    returns (list: Node, ptr: Node, first: Node?, second: Node?, ghost out: seq<Node>, ghost i: nat, ghost j: nat)
    requires Positions(s, pos) && Named(s, names) && 0 < m < |s| && first0 == s[0] && second0 == s[m]
    requires Merging(NameIn(names), s, pos, [], 0, m, m, goal) && Within(s, all)
    modifies all`next, all`prev
    ensures Merging(NameIn(names), s, pos, out, i, m, j, goal) && (i == m) != (j == |s|) && i <= m <= j <= |s|
    ensures out != [] && Within(out, all) && list == out[0] && ptr == out[|out| - 1]
    ensures first == (if i < m then s[i] else null) && second == At(s, j)
    ensures (list == first0 || list == second0) && list.prev == old(list.prev)
  {
    hide Merging, Named, NameIn, Positions, Strcasecmp;
    first, second, out, i, j := first0, second0, [], 0, m;
    var list_: Node?, ptr_: Node? := null, null;
    while first != null && second != null
      invariant Merging(NameIn(names), s, pos, out, i, m, j, goal) && Within(out, all)
      invariant i <= m <= j <= |s| && (i < m || j < |s|) && (out == [] ==> i < m && j < |s|)
      invariant first == (if i < m then s[i] else null) && second == At(s, j)
      invariant list_ == At(out, 0) && ptr_ == At(out, |out| - 1)
      invariant if list_ == null then first == first0 && second == second0 && first.prev == old(first.prev)
                  && second.prev == old(second.prev)
                else (list_ == first0 || list_ == second0) && list_.prev == old(list_.prev)
      decreases m - i + |s| - j
    {
      KeyIs(s, names, i);
      KeyIs(s, names, j);
      if Strcasecmp(first.name, second.name) < 0 {
        var x: Node := first;
        list_, first := TakeFirst(x, list_, ptr_, NameIn(names), s, pos, out, i, m, j, goal);
        ptr_, out, i := x, out + [x], i + 1;
      } else {
        var x: Node := second;
        list_, second := TakeSecond(x, list_, ptr_, NameIn(names), s, pos, out, i, m, j, goal);
        ptr_, out, j := x, out + [x], j + 1;
      }
    }
    list, ptr := list_, ptr_;
  }

  lemma {:induction false} MergeEnds(key: Node -> string, s: seq<Node>, i: nat, m: nat, j: nat)
    requires i <= m <= j <= |s| && (i == m || j == |s|)
    ensures Merge(key, s[i..m], s[j..]) == s[i..m] + s[j..]
  {
    if i == m {
      assert s[i..m] == [] && [] + s[j..] == s[j..];
    } else {
      assert s[j..] == [] && s[i..m] + [] == s[i..m];
    }
  }

  /** The merged nodes followed by the nodes a to b - 1 of s. */
  method AppendTail(x: Node, ptr: Node, ghost s: seq<Node>, ghost a: nat, ghost b: nat, ghost out: seq<Node>)
    requires a < b <= |s| && Rest(s, a, b) && x == s[a] && out != [] && Open(out) && ptr == out[|out| - 1]
    requires forall k, l | 0 <= k < l < |out| :: out[k] != out[l]
    requires forall k, l | 0 <= k < |out| && a <= l < b :: out[k] != s[l]
    requires forall k, l | a <= k < l < b :: s[k] != s[l]
    modifies ptr`next, x`prev
    ensures Chained(out[0], out + s[a..b])
  {
    ptr.next := x;
    x.prev := ptr;
    ghost var r := out + s[a..b];
    forall k | 0 <= k < |r|
      ensures r[k].next == At(r, k + 1)
      ensures 1 <= k ==> r[k].prev == At(r, k - 1)
    {
      if k < |out| {
        assert k < |out| - 1 ==> old(out[k].next) == At(out, k + 1);
        assert 1 <= k ==> old(out[k].prev) == At(out, k - 1);
      } else {
        assert r[k] == s[a + (k - |out|)];
        assert old(s[a + (k - |out|)].next) == if a + (k - |out|) + 1 < b then s[a + (k - |out|) + 1] else null;
      }
    }
  }

  /** Merges two sorted lists, s[..m] and s[m..]. */
  method MergeLists(first0: Node, second0: Node, ghost s: seq<Node>, ghost m: nat, ghost names: map<Node, string>,
                    ghost all: set<Node>)
    returns (list: Node)
    requires Distinct(s) && Named(s, names) && 0 < m < |s| && Within(s, all)
    requires Chained(first0, s[..m]) && Chained(second0, s[m..])
    modifies all`next, all`prev
    ensures Chained(list, Merge(NameIn(names), s[..m], s[m..]))
    ensures (list == first0 || list == second0) && list.prev == old(list.prev)
  {
    hide Merging, Merge, Positions, Rest, Open, Distinct, NameIn, Chained;
    ghost var key, pos := NameIn(names), Located(s);
    ghost var goal := Merge(key, s[..m], s[m..]);
    MergingStart(key, s, pos, m, first0, second0);
    var ptr, first, second;
    ghost var out, i, j;
    list, ptr, first, second, out, i, j := MergeLoop(first0, second0, s, m, pos, names, goal, all);
    MergeEnds(key, s, i, m, j);
    TailApart(key, s, pos, out, i, m, j, goal);
    if first != null {
      AppendTail(first, ptr, s, i, m, out);
    }
    if second != null {
      AppendTail(second, ptr, s, j, |s|, out);
    }
  }

  lemma {:induction false} TailApart(key: Node -> string, s: seq<Node>, pos: map<Node, nat>, out: seq<Node>, i: nat,
                                     m: nat,
                                     j: nat, goal: seq<Node>)
    requires Positions(s, pos) && Merging(key, s, pos, out, i, m, j, goal) && (i == m) != (j == |s|)
    requires Merge(key, s[i..m], s[j..]) == s[i..m] + s[j..]
    ensures Open(out) && Rest(s, i, m) && Rest(s, j, |s|)
    ensures goal == if i < m then out + s[i..m] else out + s[j..|s|]
    ensures forall k, l | 0 <= k < l < |out| :: out[k] != out[l]
    ensures forall k, l | 0 <= k < |out| && i <= l < m :: out[k] != s[l]
    ensures forall k, l | 0 <= k < |out| && j <= l < |s| :: out[k] != s[l]
    ensures forall k, l | 0 <= k < l < |s| :: s[k] != s[l]
  {
    if i < m {
      assert s[i..m] + s[j..] == s[i..m];
    } else {
      assert s[i..m] + s[j..] == s[j..|s|];
    }
  }

  lemma {:induction false} MergingStart(key: Node -> string, s: seq<Node>, pos: map<Node, nat>, m: nat, first: Node,
                                        second: Node)
    requires Positions(s, pos) && 0 < m < |s| && Chained(first, s[..m]) && Chained(second, s[m..])
    ensures first == s[0] && second == s[m]
    ensures Merging(key, s, pos, [], 0, m, m, Merge(key, s[..m], s[m..]))
  {
    hide Chained, Merge, Rest;
    assert s[0..m] == s[..m] && [] + Merge(key, s[..m], s[m..]) == Merge(key, s[..m], s[m..]);
    FirstHalf(s, m, first);
    SecondHalf(s, m, second);
  }

  lemma {:induction false} FirstHalf(s: seq<Node>, m: nat, first: Node)
    requires 0 < m < |s| && Chained(first, s[..m])
    ensures first == s[0] && Rest(s, 0, m)
  {
    assert forall k | 0 <= k < m :: s[..m][k] == s[k];
    forall k {:trigger s[k].next} | 0 <= k < m
      ensures s[k].next == if k + 1 < m then s[k + 1] else null
      ensures 1 <= k ==> s[k].prev == s[k - 1]
    {
      assert s[..m][k] == s[k];
    }
  }

  lemma {:induction false} SecondHalf(s: seq<Node>, m: nat, second: Node)
    requires 0 < m < |s| && Chained(second, s[m..])
    ensures second == s[m] && Rest(s, m, |s|)
  {
    forall k {:trigger s[k].next} | m <= k < |s|
      ensures s[k].next == if k + 1 < |s| then s[k + 1] else null
      ensures m + 1 <= k ==> s[k].prev == s[k - 1]
    {
      assert s[m..][k - m] == s[k];
    }
  }

  lemma {:induction false} DistinctCounts(s: seq<Node>, x: Node)
    requires Distinct(s)
    ensures multiset(s)[x] <= 1
  {
    if s != [] {
      DistinctAt(s);
      var m := |s| - 1;
      assert s == s[..m] + [s[m]];
      assert Distinct(s[..m]);
      DistinctCounts(s[..m], x);
      assert s[m] !in s[..m];
    }
  }

  lemma {:induction false} DistinctPermuted(s: seq<Node>, t: seq<Node>)
    requires Distinct(s) && multiset(s) == multiset(t)
    ensures Distinct(t)
  {
    forall i, j | 0 <= i < j < |t|
      ensures Apart(t, i, j)
    {
      DistinctCounts(s, t[i]);
      assert t == t[..j] + [t[j]] + t[j + 1..];
      assert t[..j][i] == t[i];
      assert multiset(t)[t[i]] >= 1 + if t[j] == t[i] then 1 else 0;
    }
  }

  /** The two halves before sorting. */
  lemma {:induction false} HalvesApart(s: seq<Node>, m: nat, names: map<Node, string>)
    requires Distinct(s) && m <= |s| && Named(s, names)
    ensures Distinct(s[..m]) && Distinct(s[m..]) && Named(s[..m], names) && Named(s[m..], names)
    ensures forall i, j | 0 <= i < m && 0 <= j < |s| - m :: s[..m][i] != s[m..][j]
  {
    DistinctAt(s);
  }

  /** A permutation of s inherits what holds of its nodes. */
  lemma {:induction false} Inherits(s: seq<Node>, t: seq<Node>, names: map<Node, string>)
    requires Distinct(s) && Named(s, names) && multiset(s) == multiset(t)
    ensures Distinct(t) && Named(t, names) && Within(t, set x | x in s)
    ensures forall i | 0 <= i < |t| :: t[i] in s
  {
    hide Distinct;
    DistinctPermuted(s, t);
    forall i | 0 <= i < |t|
      ensures t[i] in s && t[i] in names && t[i].name == names[t[i]]
    {
      MemberOf(t, s, i);
    }
  }

  lemma {:induction false} HalvesPermute(key: Node -> string, s: seq<Node>, m: nat)
    requires m <= |s|
    ensures var p, q := SortList(key, s[..m]), SortList(key, s[m..]);
            multiset(p) == multiset(s[..m]) && multiset(q) == multiset(s[m..]) && multiset(p + q) == multiset(s)
                && (p + q)[..m] == p && (p + q)[m..] == q
  {
    hide SortList;
    SortPermutes(key, s[..m]);
    SortPermutes(key, s[m..]);
    assert s == s[..m] + s[m..];
  }

  lemma {:induction false} SortsHalves(key: Node -> string, s: seq<Node>)
    requires |s| > 1 && !Increasing(key, s)
    ensures var m := (|s| + 1) / 2; SortList(key, s) == Merge(key, SortList(key, s[..m]), SortList(key, s[m..]))
  {
  }

  /** cJSONUtils_SortList; the prev link of the new head is left as it was. */
  method SortNodes(list: Node?, ghost s: seq<Node>, ghost names: map<Node, string>) returns (sorted: Node?)
    requires Chained(list, s) && Distinct(s) && Named(s, names)
    modifies s`next, s`prev
    ensures Chained(sorted, SortList(NameIn(names), s))
    ensures sorted != null ==> sorted in s && sorted.prev == old(sorted.prev)
    decreases |s|
  {
    hide Chained, Named, Distinct, SortList, Merge, Increasing;
    Ends(list, s);
    if list == null || list.next == null {
      SortsShort(NameIn(names), s);
      return list;
    }
    var done := TestSorted(list, s, names);
    if done {
      SortsSorted(NameIn(names), s);
      return list;
    }
    SortsHalves(NameIn(names), s);
    sorted := SortHalves(list, s, names);
  }

  lemma {:induction false} Ends(list: Node?, s: seq<Node>)
    requires Chained(list, s)
    ensures list == At(s, 0) && (list != null ==> list.next == At(s, 1))
  {
  }

  lemma {:induction false} SortsShort(key: Node -> string, s: seq<Node>)
    requires |s| <= 1
    ensures SortList(key, s) == s
  {
  }

  lemma {:induction false} SortsSorted(key: Node -> string, s: seq<Node>)
    requires Increasing(key, s)
    ensures SortList(key, s) == s
  {
  }

  /** The rest of cJSONUtils_SortList, for a list that has to be split. */
  method SortHalves(list: Node, ghost s: seq<Node>, ghost names: map<Node, string>) returns (sorted: Node)
    requires |s| > 1 && Chained(list, s) && Distinct(s) && Named(s, names)
    modifies s`next, s`prev
    ensures var m := (|s| + 1) / 2;
            var p, q := SortList(NameIn(names), s[..m]), SortList(NameIn(names), s[m..]);
            Chained(sorted, Merge(NameIn(names), p, q))
    ensures sorted in s && sorted.prev == old(sorted.prev)
    decreases |s|, 1
  {
    hide Chained, Named, Distinct, SortList, Merge, Increasing, At;
    ghost var m := (|s| + 1) / 2;
    ghost var p, q := SortList(NameIn(names), s[..m]), SortList(NameIn(names), s[m..]);
    HalvesPermute(NameIn(names), s, m);
    Inherits(s, p + q, names);
    Ends(list, s);
    AtInside(s, m);
    AtInside(s, 0);
    var second := FindMiddle(list, s);
    Split(second, s, m);
    var first', second' := SortBoth(list, second, s, m, names);
    sorted := MergeLists(first', second', p + q, m, names, set x | x in s);
  }

  /** The two recursive calls. */
  method SortBoth(first: Node, second: Node, ghost s: seq<Node>, ghost m: nat, ghost names: map<Node, string>)
    returns (first': Node, second': Node)
    requires 0 < m < |s| && Chained(first, s[..m]) && Chained(second, s[m..]) && Distinct(s) && Named(s, names)
    modifies s`next, s`prev
    ensures Chained(first', SortList(NameIn(names), s[..m])) && Chained(second', SortList(NameIn(names), s[m..]))
    ensures first' in s && second' in s && first'.prev == old(first'.prev) && second'.prev == old(second'.prev)
    decreases |s|, 0
  {
    hide Chained, Named, Distinct, SortList, Increasing, At;
    ghost var p, q := SortList(NameIn(names), s[..m]), SortList(NameIn(names), s[m..]);
    HalvesApart(s, m, names);
    HalvesPermute(NameIn(names), s, m);
    Inherits(s[..m], p, names);
    Inherits(s[m..], q, names);
    var f := SortNodes(first, s[..m], names);
    Ends(f, p);
    AtInside(p, 0);
    assert Chained(second, s[m..]);
    assert forall i, j | 0 <= i < m && 0 <= j < |s| - m :: p[i] != s[m..][j];
    var g := SortNodes(second, s[m..], names);
    Ends(g, q);
    AtInside(q, 0);
    assert Chained(f, p);
    first', second' := f, g;
    assert first' in s[..m] && second' in s[m..];
  }

  lemma {:induction false} AtInside(s: seq<Node>, i: nat)
    requires i < |s|
    ensures At(s, i) == s[i]
  {
  }

  lemma {:induction false} WellFormedAgain(head: Node?, s: seq<Node>, j: nat)
    requires Chained(head, s) && Distinct(s) && HeadPrev(s, j) && (s == [] ==> j == 0)
    ensures Linked(head, s) <==> j == 0
  {
  }

  lemma {:induction false} LinkedParts(head: Node?, s: seq<Node>)
    requires Linked(head, s)
    ensures Chained(head, s) && Distinct(s) && forall i | 0 <= i < |s| :: s[i].prev == At(s, i - 1)
  {
  }

  /** prev of the new head is what it was before: its old predecessor, somewhere in the sorted list, or nothing. */
  lemma {:induction false} StaleHead(s: seq<Node>, t: seq<Node>, i: nat) returns (j: nat)
    requires Distinct(s) && Distinct(t) && multiset(s) == multiset(t) && i < |s| && t != []
    requires t[0] == s[i] && t[0].prev == At(s, i - 1)
    ensures HeadPrev(t, j) && (j == 0 <==> t[0] == s[0]) && (j > 0 ==> j < |t|)
  {
    DistinctAt(s);
    j := 0;
    if i > 0 {
      MemberOf(s, t, i - 1);
      j :| 0 <= j < |t| && t[j] == s[i - 1];
    }
  }

  /** cJSONUtils_SortObject: the members are relinked to the sorted list; prev of the new head is as before. */
  method SortObject(parent: Node, ghost s: seq<Node>, ghost names: map<Node, string>) returns (ghost j: nat)
    requires Linked(parent.child, s) && Named(s, names) && Keyed(NameIn(names), s)
    modifies parent`child, s`next, s`prev
    ensures var t := SortList(NameIn(names), s);
            Chained(parent.child, t) && Distinct(t) && multiset(t) == multiset(s) && HeadPrev(t, j)
    ensures (j == 0 <==> First(NameIn(names), s)) && (j > 0 ==> j < |s|)
    ensures Linked(parent.child, SortList(NameIn(names), s)) <==> First(NameIn(names), s)
  {
    hide Chained, Named, Distinct, SortList, Keyed, Increasing, HeadPrev, Linked, First;
    ghost var t := SortList(NameIn(names), s);
    SortPermutes(NameIn(names), s);
    LinkedParts(parent.child, s);
    DistinctPermuted(s, t);
    var sorted := SortNodes(parent.child, s, names);
    parent.child := sorted;
    j := 0;
    Ends(sorted, t);
    if s == [] {
      NothingSorted(NameIn(names), s, t);
    } else {
      KeepsFirst(NameIn(names), s);
      ghost var i :| 0 <= i < |s| && s[i] == t[0];
      j := StaleHead(s, t, i);
    }
    WellFormedAgain(sorted, t, j);
  }

  lemma {:induction false} NothingSorted(key: Node -> string, s: seq<Node>, t: seq<Node>)
    requires s == [] && multiset(t) == multiset(s)
    ensures First(key, s) && HeadPrev(t, 0) && t == []
  {
    assert |multiset(t)| == |t|;
  }

  lemma {:induction false} KeepsFirst(key: Node -> string, s: seq<Node>)
    requires Distinct(s) && Keyed(key, s) && s != []
    ensures SortList(key, s)[0] == s[0] <==> First(key, s)
  {
    DistinctAt(s);
    SortKeepsFirst(key, s);
  }

  /**
   Detaching the first member of an object that has just been sorted: the rest is left as a list if the first
   name was below all others before; otherwise what the parent holds is a ring, and no walk along it ends.
   */
  method DetachAfterSort(parent: Node, ghost s: seq<Node>, ghost names: map<Node, string>)
    returns (c: Node?, ghost j: nat)
    requires Linked(parent.child, s) && Named(s, names) && Keyed(NameIn(names), s)
    modifies parent`child, s`next, s`prev
    ensures var t := SortList(NameIn(names), s);
            && c == At(t, 0)
            && if First(NameIn(names), s) then Linked(parent.child, Without(t, 0))
               else 0 < j < |t| && Ring(parent.child, t[1..j + 1])
  {
    hide Chained, Named, Distinct, SortList, Keyed, Increasing, Linked, First, Ring, Without;
    ghost var t := SortList(NameIn(names), s);
    j := SortObject(parent, s, names);
    if s == [] { NothingSorted(NameIn(names), s, t); }
    PermutedNodes(s, t);
    c := DetachItemFromArray(parent, 0, t, j);
  }

  lemma {:induction false} PermutedNodes(s: seq<Node>, t: seq<Node>)
    requires multiset(s) == multiset(t)
    ensures |s| == |t| && (forall i | 0 <= i < |t| :: t[i] in s)
  {
    assert |multiset(s)| == |s| && |multiset(t)| == |t|;
    forall i | 0 <= i < |t|
      ensures t[i] in s
    {
      MemberOf(t, s, i);
    }
  }

  /** The smallest list that sorting makes unfit: "b" before "a". */
  method TwoMembers() returns (parent: Node, a: Node, b: Node)
    ensures a.name == "a" && b.name == "b"
    ensures Chained(parent.child, [a, b]) && HeadPrev([a, b], 1) && !Linked(parent.child, [a, b])
  {
    hide SortList, Merge, Increasing, Chained, Linked, Distinct, HeadPrev, First, Named, Keyed, Strcasecmp, NameIn;
    parent := new Node("object");
    b := new Node("b");
    a := new Node("a");
    parent.child, b.next, a.prev := b, a, b;
    TwoLinked(b, a);
    SortsTwo(NameIn(map[a := "a", b := "b"]), b, a);
    ghost var j := SortObject(parent, [b, a], map[a := "a", b := "b"]);
  }

  /** The two members before they are sorted. */
  lemma {:induction false} TwoLinked(b: Node, a: Node)
    requires a != b && a.name == "a" && b.name == "b"
    requires b.next == a && b.prev == null && a.next == null && a.prev == b
    ensures var names := map[a := "a", b := "b"];
            Linked(b, [b, a]) && Named([b, a], names) && Keyed(NameIn(names), [b, a])
    ensures var key := NameIn(map[a := "a", b := "b"]);
            Strcasecmp(key(b), key(a)) > 0
  {
  }

  lemma {:induction false} SortsTwo(key: Node -> string, x: Node, y: Node)
    requires Strcasecmp(key(x), key(y)) > 0
    ensures SortList(key, [x, y]) == [y, x] && !First(key, [x, y])
  {
    assert [x, y][..1] == [x] && [x, y][1..] == [y];
    assert SortList(key, [x]) == [x] && SortList(key, [y]) == [y];
    assert [x, y][1] == y;
    assert [y][1..] == [] && Merge(key, [x], []) == [x] && [y] + [x] == [y, x];
    assert Merge(key, [x], [y]) == [y, x];
  }
}
