/** HASH_SRT: the bottom-up mergesort that relinks the application-order list in place. */
module HashSort {
  import opened Lists
  import opened HashStructure
  import opened SortSpec

  /** out, in this order, is linked through prev, and through next except for its last element. */
  ghost predicate OutList(out: seq<Elem>)
    reads out`prev, out`next
  {
    && (forall i {:trigger out[i].prev} | 0 <= i < |out| :: out[i].prev == At(out, i - 1))
    && (forall i {:trigger out[i].next} | 0 <= i < |out| - 1 :: out[i].next == At(out, i + 1))
  }

  /** The positions a to b - 1 of s lead each to the next one. */
  ghost predicate Leads(s: seq<Elem>, a: nat, b: int)
    reads s`next
  {
    b <= |s| && forall i {:trigger s[i].next} | a <= i < b :: s[i].next == At(s, i + 1)
  }

  /** Lines that append e to the list being built. */
  method Emit(e: Elem, list: Elem?, tail: Elem?, ghost out: seq<Elem>) returns (list': Elem?)
    requires OutList(out) && Distinct(out) && e !in out
    requires list == At(out, 0) && tail == At(out, |out| - 1)
    modifies e`prev, (if tail == null then {} else {tail})`next
    ensures OutList(out + [e]) && Distinct(out + [e])
    ensures list' == At(out + [e], 0)
  {
    DistinctPush(e, out);
    DistinctAt(out);
    if tail != null {
      tail.next := e;
      list' := list;
    } else {
      list' := e;
    }
    e.prev := tail;
    ghost var out' := out + [e];
    forall i | 0 <= i < |out'|
      ensures out'[i].prev == At(out', i - 1)
      ensures i < |out'| - 1 ==> out'[i].next == At(out', i + 1)
    {
      if i < |out| {
        assert out[i].prev == At(out, i - 1);
        assert i < |out| - 1 ==> old(out[i].next) == At(out, i + 1);
      }
    }
  }

  /** Which elements of s a merge has emitted: those before i, and those from m up to j. */
  ghost predicate Emitted(s: seq<Elem>, pos: map<Elem, nat>, out: seq<Elem>, i: nat, m: nat, j: nat) {
    forall k | 0 <= k < |out| :: out[k] in pos && (pos[out[k]] < i || m <= pos[out[k]] < j)
  }

  lemma MergeTakesSecond(cmp: (Elem, Elem) -> int, s: seq<Elem>, i: nat, m: nat, j: nat, e: nat)
    requires i <= m <= j < e <= |s|
    requires i == m || cmp(s[i], s[j]) > 0
    ensures Merge(cmp, s[i..m], s[j..e]) == [s[j]] + Merge(cmp, s[i..m], s[j + 1..e])
  {
    assert s[j..e][1..] == s[j + 1..e];
    if i == m {
      assert s[j..e] == [s[j]] + s[j + 1..e];
    }
  }

  /** One step of a merge: the element at position i or j goes to the end of the output. */
  ghost predicate Merging(cmp: (Elem, Elem) -> int, s: seq<Elem>, pos: map<Elem, nat>, out: seq<Elem>,
                          i: nat, m: nat, j: nat, e: nat, goal: seq<Elem>)
    reads s`next, out`prev, out`next
  {
    && i <= m <= j <= e <= |s|
    && OutList(out) && Distinct(out) && Emitted(s, pos, out, i, m, j)
    && Leads(s, i, m - 1) && Leads(s, j, |s|)
    && out + Merge(cmp, s[i..m], s[j..e]) == goal
  }

  method EmitFirst(cmp: (Elem, Elem) -> int, x: Elem, list: Elem?, tail: Elem?, ghost s: seq<Elem>,
                   ghost pos: map<Elem, nat>,
                   ghost out: seq<Elem>, ghost i: nat, ghost m: nat, ghost j: nat, ghost e: nat, ghost goal: seq<Elem>)
    returns (list': Elem?)
    requires Positions(s, pos) && Merging(cmp, s, pos, out, i, m, j, e, goal)
    requires i < m && x == s[i] && (j == e || cmp(s[i], s[j]) <= 0)
    requires list == At(out, 0) && tail == At(out, |out| - 1)
    modifies x`prev, (if tail == null then {} else {tail})`next
    ensures Merging(cmp, s, pos, out + [x], i + 1, m, j, e, goal)
    ensures list' == At(out + [x], 0)
  {
    assert x !in out;
    assert forall k | i <= k < m || j <= k < |s| :: s[k] != tail;
    list' := Emit(x, list, tail, out);
    assert out + ([x] + Merge(cmp, s[i + 1..m], s[j..e])) == (out + [x]) + Merge(cmp, s[i + 1..m], s[j..e]);
  }

  method EmitSecond(cmp: (Elem, Elem) -> int, x: Elem, list: Elem?, tail: Elem?, ghost s: seq<Elem>,
                    ghost pos: map<Elem, nat>,
                    ghost out: seq<Elem>, ghost i: nat, ghost m: nat, ghost j: nat, ghost e: nat, ghost goal: seq<Elem>)
    returns (list': Elem?)
    requires Positions(s, pos) && Merging(cmp, s, pos, out, i, m, j, e, goal)
    requires j < e && x == s[j] && (i == m || cmp(s[i], s[j]) > 0)
    requires list == At(out, 0) && tail == At(out, |out| - 1)
    modifies x`prev, (if tail == null then {} else {tail})`next
    ensures Merging(cmp, s, pos, out + [x], i, m, j + 1, e, goal)
    ensures list' == At(out + [x], 0)
  {
    assert x !in out;
    assert forall k | i <= k < m || j <= k < |s| :: s[k] != tail;
    list' := Emit(x, list, tail, out);
    MergeTakesSecond(cmp, s, i, m, j, e);
    assert out + ([x] + Merge(cmp, s[i..m], s[j + 1..e])) == (out + [x]) + Merge(cmp, s[i..m], s[j + 1..e]);
  }

  lemma MergingAt(cmp: (Elem, Elem) -> int, s: seq<Elem>, pos: map<Elem, nat>, out: seq<Elem>,
                  i: nat, m: nat, j: nat, e: nat, goal: seq<Elem>)
    requires Merging(cmp, s, pos, out, i, m, j, e, goal)
    ensures i <= m <= j <= e <= |s|
    ensures i + 1 < m ==> s[i].next == s[i + 1]
    ensures j < |s| ==> s[j].next == At(s, j + 1)
  {
  }

  /** The variables of the merge loop agree with what has been emitted. */
  ghost predicate Stage(cmp: (Elem, Elem) -> int, s: seq<Elem>, pos: map<Elem, nat>, out: seq<Elem>, i: nat, m: nat,
                        j: nat, e: nat, goal: seq<Elem>, p: Elem?, q: Elem?, list: Elem?, tail: Elem?)
    reads s`next, out`prev, out`next
  {
    && Positions(s, pos)
    && Merging(cmp, s, pos, out, i, m, j, e, goal)
    && (i < m ==> p == s[i]) && q == At(s, j)
    && list == At(out, 0) && tail == At(out, |out| - 1)
  }

  method StepFirst(cmp: (Elem, Elem) -> int, p: Elem, ghost q: Elem?, list: Elem?, tail: Elem?, ghost s: seq<Elem>,
                   ghost pos: map<Elem, nat>, ghost out: seq<Elem>, ghost i: nat, ghost m: nat, ghost j: nat,
                   ghost e: nat, ghost goal: seq<Elem>)
    returns (p': Elem?, list': Elem?)
    requires Stage(cmp, s, pos, out, i, m, j, e, goal, p, q, list, tail)
    requires i < m && (j == e || cmp(p, s[j]) <= 0)
    modifies p`prev, (if tail == null then {} else {tail})`next
    ensures Stage(cmp, s, pos, out + [p], i + 1, m, j, e, goal, p', q, list', p)
  {
    MergingAt(cmp, s, pos, out, i, m, j, e, goal);
    hide Merging;
    p' := p.next;
    list' := EmitFirst(cmp, p, list, tail, s, pos, out, i, m, j, e, goal);
  }

  method StepSecond(cmp: (Elem, Elem) -> int, ghost p: Elem?, q: Elem, list: Elem?, tail: Elem?, ghost s: seq<Elem>,
                    ghost pos: map<Elem, nat>, ghost out: seq<Elem>, ghost i: nat, ghost m: nat, ghost j: nat,
                    ghost e: nat, ghost goal: seq<Elem>)
    returns (q': Elem?, list': Elem?)
    requires Stage(cmp, s, pos, out, i, m, j, e, goal, p, q, list, tail)
    requires j < e && (i == m || cmp(s[i], q) > 0)
    modifies q`prev, (if tail == null then {} else {tail})`next
    ensures Stage(cmp, s, pos, out + [q], i, m, j + 1, e, goal, p, q', list', q)
    ensures j + 1 <= e && q' == At(s, j + 1)
  {
    MergingAt(cmp, s, pos, out, i, m, j, e, goal);
    hide Merging;
    q' := q.next;
    list' := EmitSecond(cmp, q, list, tail, s, pos, out, i, m, j, e, goal);
  }

  lemma StageBounds(cmp: (Elem, Elem) -> int, s: seq<Elem>, pos: map<Elem, nat>, out: seq<Elem>, i: nat, m: nat,
                    j: nat, e: nat, goal: seq<Elem>, p: Elem?, q: Elem?, list: Elem?, tail: Elem?)
    requires Stage(cmp, s, pos, out, i, m, j, e, goal, p, q, list, tail)
    ensures i <= m <= j <= e <= |s| && (i < m ==> p == s[i]) && q == At(s, j) && tail == At(out, |out| - 1)
  {
  }

  /** The merge loop proper. */
  method MergeLoop(cmp: (Elem, Elem) -> int, p0: Elem, q0: Elem?, psize0: nat, insize: nat, list0: Elem?, tail0: Elem?,
                   ghost s: seq<Elem>, ghost pos: map<Elem, nat>, ghost out0: seq<Elem>, ghost i0: nat, ghost m: nat,
                   ghost e: nat, ghost goal: seq<Elem>, ghost all: set<Elem>)
    returns (q: Elem?, list: Elem?, tail: Elem?, ghost p: Elem?, ghost out: seq<Elem>)
    requires Stage(cmp, s, pos, out0, i0, m, m, e, goal, p0, q0, list0, tail0)
    requires Within(s, all) && Within(out0, all)
    requires i0 < m && psize0 == m - i0 && e == Min(m + insize, |s|)
    modifies all`prev, all`next
    ensures Stage(cmp, s, pos, out, m, m, e, e, goal, p, q, list, tail) && Within(out, all)
  {
    hide Stage, Merging, OutList, Distinct, Emitted, Leads, Merge, Positions;
    StageBounds(cmp, s, pos, out0, i0, m, m, e, goal, p0, q0, list0, tail0);
    q, list, tail, out := q0, list0, tail0, out0;
    var p_: Elem? := p0;
    var psize, qsize := psize0, insize;
    ghost var i: nat, j: nat := i0, m;
    while psize > 0 || (qsize > 0 && q != null)
      invariant Stage(cmp, s, pos, out, i, m, j, e, goal, p_, q, list, tail) && Within(out, all)
      invariant i <= m <= j <= e && psize == m - i && qsize == m + insize - j
      invariant q == At(s, j)
      decreases psize + qsize
    {
      StageBounds(cmp, s, pos, out, i, m, j, e, goal, p_, q, list, tail);
      var second: bool;
      if psize == 0 {
        second := true;
      } else if qsize == 0 || q == null {
        second := false;
      } else if cmp(p_, q) <= 0 {
        second := false;
      } else {
        second := true;
      }
      if second {
        var x: Elem := q;
        q, list := StepSecond(cmp, p_, x, list, tail, s, pos, out, i, m, j, e, goal);
        qsize, j, tail, out := qsize - 1, j + 1, x, out + [x];
      } else {
        var x: Elem := p_;
        p_, list := StepFirst(cmp, x, q, list, tail, s, pos, out, i, m, j, e, goal);
        psize, i, tail, out := psize - 1, i + 1, x, out + [x];
      }
    }
    p := p_;
  }

  /** The merge of one pair of runs: s[i0..m], starting at p, and s[m..e], starting at q. */
  method MergeRuns(cmp: (Elem, Elem) -> int, p0: Elem, q0: Elem?, psize0: nat, insize: nat, list0: Elem?, tail0: Elem?,
                   ghost s: seq<Elem>, ghost pos: map<Elem, nat>, ghost out0: seq<Elem>, ghost i0: nat, ghost m: nat,
                   ghost e: nat, ghost all: set<Elem>)
    returns (q: Elem?, list: Elem?, tail: Elem?, ghost out: seq<Elem>)
    requires Positions(s, pos) && Within(s, all) && Within(out0, all)
    requires i0 < m <= e <= |s| && psize0 == m - i0 && e == Min(m + insize, |s|)
    requires p0 == s[i0] && q0 == At(s, m)
    requires list0 == At(out0, 0) && tail0 == At(out0, |out0| - 1)
    requires OutList(out0) && Distinct(out0) && Emitted(s, pos, out0, i0, i0, i0)
    requires Leads(s, i0, |s|)
    modifies all`prev, all`next
    ensures out == out0 + Merge(cmp, s[i0..m], s[m..e])
    ensures OutList(out) && Distinct(out) && Emitted(s, pos, out, e, e, e) && Within(out, all)
    ensures Leads(s, e, |s|) && q == At(s, e)
    ensures list == At(out, 0) && tail == At(out, |out| - 1)
  {
    ghost var goal := out0 + Merge(cmp, s[i0..m], s[m..e]);
    hide Stage, OutList, Distinct, Emitted, Leads, Merge, Positions, Within;
    ghost var p;
    q, list, tail, p, out := MergeLoop(cmp, p0, q0, psize0, insize, list0, tail0, s, pos, out0, i0, m, e, goal, all);
  }

  /** Walks insize elements from p, or to the end, to find where the second run starts. */
  method StepOver(p: Elem, insize: nat, ghost s: seq<Elem>, ghost i: nat) returns (q: Elem?, psize: nat)
    requires insize > 0 && i < |s| && p == s[i] && Leads(s, i, |s|)
    ensures psize == Min(i + insize, |s|) - i && psize > 0 && q == At(s, i + psize)
  {
    q, psize := p, 0;
    for k := 0 to insize
      invariant psize == k && i + k < |s| && q == s[i + k]
    {
      psize := psize + 1;
      assert q.next == At(s, i + k + 1);
      q := q.next;
      if q == null { break; }
    }
  }

  lemma PassUnfold(cmp: (Elem, Elem) -> int, s: seq<Elem>, i: nat, m: nat, e: nat, k: nat, out: seq<Elem>,
                   goal: seq<Elem>)
    requires k > 0 && i < |s| && m == Min(i + k, |s|) && e == Min(m + k, |s|)
    requires out + Pass(cmp, s[i..], k) == goal
    ensures (out + Merge(cmp, s[i..m], s[m..e])) + Pass(cmp, s[e..], k) == goal
  {
    hide Merge;
    var t := s[i..];
    RunsOf(s, i, m, e);
    var merged, rest := Merge(cmp, s[i..m], s[m..e]), Pass(cmp, s[e..], k);
    assert Pass(cmp, t, k) == merged + rest;
    assert out + (merged + rest) == (out + merged) + rest;
  }

  lemma {:induction false} RunsOf(s: seq<Elem>, i: nat, m: nat, e: nat)
    requires i <= m <= e <= |s|
    ensures s[i..][..m - i] == s[i..m] && s[i..][m - i..e - i] == s[m..e] && s[i..][e - i..] == s[e..]
  {
  }

  /** How many merges a pass has needed when it has reached position i. */
  ghost predicate Counted(nmerges: nat, i: nat, insize: nat, len: nat) {
    && (nmerges == 0 ==> i == 0)
    && (nmerges == 1 ==> i == Min(2 * insize, len))
    && (nmerges > 1 ==> i > 2 * insize)
  }

  /** A pass over s has dealt with the elements before position i. */
  ghost predicate Passing(cmp: (Elem, Elem) -> int, insize: nat, s: seq<Elem>, pos: map<Elem, nat>, out: seq<Elem>,
                          i: nat, p: Elem?, list: Elem?, tail: Elem?)
    reads s`next, out`prev, out`next
  {
    && insize > 0 && i <= |s| && p == At(s, i) && Leads(s, i, |s|)
    && out + Pass(cmp, s[i..], insize) == Pass(cmp, s, insize)
    && OutList(out) && Distinct(out) && Emitted(s, pos, out, i, i, i)
    && list == At(out, 0) && tail == At(out, |out| - 1)
  }

  method MergeNext(cmp: (Elem, Elem) -> int, p: Elem, insize: nat, list0: Elem?, tail0: Elem?, ghost s: seq<Elem>,
                   ghost pos: map<Elem, nat>, ghost out0: seq<Elem>, ghost i: nat, ghost all: set<Elem>)
    returns (q: Elem?, list: Elem?, tail: Elem?, ghost out: seq<Elem>, ghost e: nat)
    requires Positions(s, pos) && Within(s, all) && Within(out0, all)
    requires Passing(cmp, insize, s, pos, out0, i, p, list0, tail0)
    modifies all`prev, all`next
    ensures Passing(cmp, insize, s, pos, out, e, q, list, tail) && Within(out, all)
    ensures i < e == Min(i + 2 * insize, |s|)
  {
    hide Merge, Positions, Distinct, OutList, Emitted, Pass;
    var psize;
    q, psize := StepOver(p, insize, s, i);
    ghost var m := i + psize;
    e := Min(m + insize, |s|);
    PassUnfold(cmp, s, i, m, e, insize, out0, Pass(cmp, s, insize));
    q, list, tail, out := MergeRuns(cmp, p, q, psize, insize, list0, tail0, s, pos, out0, i, m, e, all);
  }

  /** The loop of one pass over the list. */
  method PassLoop(cmp: (Elem, Elem) -> int, first: Elem, insize: nat, ghost s: seq<Elem>, ghost pos: map<Elem, nat>,
                  ghost all: set<Elem>)
    returns (list: Elem?, tail: Elem?, nmerges: nat, ghost out: seq<Elem>)
    requires insize > 0 && s != [] && first == s[0] && Leads(s, 0, |s|)
    requires Positions(s, pos) && Within(s, all)
    modifies all`prev, all`next
    ensures Passing(cmp, insize, s, pos, out, |s|, null, list, tail) && Within(out, all)
    ensures Counted(nmerges, |s|, insize, |s|)
  {
    var p: Elem? := first;
    list, tail, nmerges, out := null, null, 0, [];
    ghost var i: nat := 0;
    hide Passing, Positions, Leads, Within;
    while p != null
      invariant Passing(cmp, insize, s, pos, out, i, p, list, tail) && Within(out, all)
      invariant Counted(nmerges, i, insize, |s|) && i <= |s| && p == At(s, i)
      decreases |s| - i
    {
      nmerges := nmerges + 1;
      p, list, tail, out, i := MergeNext(cmp, p, insize, list, tail, s, pos, out, i, all);
    }
  }

  /** One pass, which ends by terminating the list. */
  method OnePass(cmp: (Elem, Elem) -> int, first: Elem, insize: nat, ghost s: seq<Elem>, ghost pos: map<Elem, nat>,
                 ghost all: set<Elem>)
    returns (list: Elem, tail: Elem, nmerges: nat, ghost out: seq<Elem>)
    requires insize > 0 && s != [] && first == s[0] && AppList(s)
    requires Positions(s, pos) && Within(s, all)
    modifies all`prev, all`next
    ensures out == Pass(cmp, s, insize) && AppList(out) && Distinct(out) && Within(out, all)
    ensures list == out[0] && tail == out[|out| - 1]
    ensures nmerges <= 1 <==> |s| <= 2 * insize
  {
    assert Leads(s, 0, |s|);
    hide Pass, Positions, Emitted;
    var list_, tail_;
    list_, tail_, nmerges, out := PassLoop(cmp, first, insize, s, pos, all);
    DistinctAt(out);
    if tail_ != null {
      tail_.next := null;
    }
    list, tail := list_, tail_;
  }

  lemma {:induction false} SortUnfold(cmp: (Elem, Elem) -> int, s: seq<Elem>, k: nat)
    requires k > 0
    ensures |Pass(cmp, s, k)| == |s|
    ensures Sort(cmp, s, k) == if |s| <= 2 * k then Pass(cmp, s, k) else Sort(cmp, Pass(cmp, s, k), 2 * k)
  {
  }

  /** The sorting loop: passes with a doubling run length until one pass needs at most one merge. */
  method SortList(cmp: (Elem, Elem) -> int, head: Elem, t: Table, ghost items: seq<Elem>)
    returns (head': Elem, ghost out: seq<Elem>)
    requires items != [] && head == items[0] && AppList(items) && Distinct(items)
    modifies items`prev, items`next, t`tail
    ensures out == Sort(cmp, items, 1) && AppList(out) && Distinct(out)
    ensures head' == out[0] && t.tail == out[|out| - 1]
  {
    hide AppList, Distinct, Pass, Sort, Positions;
    ghost var all := set i | 0 <= i < |items| :: items[i];
    head', out := head, items;
    var insize, looping, list: Elem := 1, true, head;
    while looping
      invariant insize > 0 && Within(out, all) && |out| == |items| && list == out[0]
      invariant AppList(out) && Distinct(out)
      invariant if looping then Sort(cmp, out, insize) == Sort(cmp, items, 1)
                else out == Sort(cmp, items, 1) && head' == list && t.tail == out[|out| - 1]
      decreases looping, |items| - insize
    {
      ghost var pos := Located(out);
      SortUnfold(cmp, out, insize);
      var tail, nmerges;
      list, tail, nmerges, out := OnePass(cmp, list, insize, out, pos, all);
      if nmerges <= 1 {
        looping := false;
        t.tail := tail;
        head' := list;
      }
      insize := insize * 2;
    }
  }
}
