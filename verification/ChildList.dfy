/** The child lists of cJSON nodes, edited in place through next, prev and child. */
module ChildList {
  import opened Lists

  class Node {
    var next: Node?
    var prev: Node?
    var child: Node?
    var name: string

    constructor (name: string)
      ensures next == prev == child == null && this.name == name
    {
      next, prev, child := null, null, null;
      this.name := name;
    }
  }

  /** The node at position i, or null off either end. */
  ghost function At(s: seq<Node>, i: int): (n: Node?) {
    if 0 <= i < |s| then s[i] else null
  }

  /** A well-formed list: s, in this order, is linked both ways, and prev of the head is null. */
  ghost predicate Linked(head: Node?, s: seq<Node>)
    reads s`next, s`prev
  {
    && Distinct(s)
    && head == At(s, 0)
    && (forall i {:trigger s[i].next} | 0 <= i < |s| :: s[i].next == At(s, i + 1))
    && (forall i {:trigger s[i].prev} | 0 <= i < |s| :: s[i].prev == At(s, i - 1))
  }

  /** Linked but for prev of the head, which is not looked at. */
  ghost predicate Chained(head: Node?, s: seq<Node>)
    reads s`next, s`prev
  {
    && head == At(s, 0)
    && (forall i {:trigger s[i].next} | 0 <= i < |s| :: s[i].next == At(s, i + 1))
    && (forall i {:trigger s[i].prev} | 1 <= i < |s| :: s[i].prev == At(s, i - 1))
  }

  /** A list without an end: r, in this order, and from its last node back to the first. */
  ghost predicate Ring(head: Node?, r: seq<Node>)
    reads r`next
  {
    && r != []
    && head == r[0]
    && forall k {:trigger r[k].next} | 0 <= k < |r| :: r[k].next == if k + 1 < |r| then r[k + 1] else r[0]
  }

  /** The walk along the children to an index, which stops early at the end of the list. */
  method Walk(head: Node?, which: int, ghost s: seq<Node>) returns (c: Node?)
    requires Chained(head, s)
    ensures c == At(s, Position(which))
  {
    c := head;
    var left := which;
    ghost var i := 0;
    while c != null && left > 0
      invariant 0 <= i <= |s| && c == At(s, i) && left == which - i
      invariant left < 0 ==> i == 0
      decreases |s| - i
    {
      c := c.next;
      left, i := left - 1, i + 1;
    }
  }

  /** cJSON_AddItemToArray */
  method AddItemToArray(parent: Node, item: Node, ghost s: seq<Node>)
    requires Linked(parent.child, s) && item !in s && item.next == null && (s == [] ==> item.prev == null)
    modifies parent`child, s`next, item`prev
    ensures Linked(parent.child, s + [item])
  {
    var c := parent.child;
    ghost var s' := s + [item];
    DistinctAt(s);
    if c == null {
      parent.child := item;
    } else {
      ghost var i := 0;
      while c.next != null
        invariant 0 <= i < |s| && c == s[i]
        decreases |s| - i
      {
        c, i := c.next, i + 1;
      }
      c.next := item;
      item.prev := c;
      forall k | 0 <= k < |s'|
        ensures s'[k].next == At(s', k + 1) && s'[k].prev == At(s', k - 1)
      {
        assert k < |s| ==> old(s[k].next) == At(s, k + 1);
      }
    }
  }

  /** Where the links of a list differ from those of s, and what follows for the list with item inserted. */
  lemma {:induction false} InsertedLinks(head: Node?, s: seq<Node>, which: int, item: Node)
    requires Distinct(s) && item !in s && Position(which) < |s|
    requires var i: int := Position(which);
             && (forall k {:trigger s[k].prev} | 0 <= k < |s| :: s[k].prev == if k == i then item else At(s, k - 1))
             && (forall k {:trigger s[k].next} | 0 <= k < |s| :: s[k].next == if k == i - 1 then item else At(s, k + 1))
             && item.prev == At(s, i - 1) && item.next == s[i] && head == if i == 0 then item else s[0]
    ensures Linked(head, Inserted(s, which, item))
  {
    hide Distinct, Inserted;
    InsertedAt(s, which, item);
    var r, i: int := Inserted(s, which, item), Position(which);
    forall k | 0 <= k < |r|
      ensures r[k].next == At(r, k + 1) && r[k].prev == At(r, k - 1)
    {
      if k != i {
        var j := if k < i then k else k - 1;
        assert r[k] == s[j];
        assert s[j].next == if j == i - 1 then item else At(s, j + 1);
        assert s[j].prev == if j == i then item else At(s, j - 1);
      }
    }
  }

  lemma {:induction false} RemovedLinks(head: Node?, s: seq<Node>, i: int)
    requires Distinct(s) && 0 <= i < |s|
    requires && (forall k {:trigger s[k].prev} | 1 <= k < |s| && k != i && (i > 0 || k > 1) ::
                   s[k].prev == At(s, if k == i + 1 then i - 1 else k - 1))
             && (forall k {:trigger s[k].next} | 0 <= k < |s| && k != i ::
                 s[k].next == At(s, if k == i - 1 then i + 1 else k + 1))
             && head == At(s, if i == 0 then 1 else 0)
    ensures Chained(head, Without(s, i)) && (head != null && head.prev == null ==> Linked(head, Without(s, i)))
  {
    hide Distinct, Without;
    RemovedAt(s, i);
    var r := Without(s, i);
    forall k | 0 <= k < |r|
      ensures r[k].next == At(r, k + 1) && (1 <= k ==> r[k].prev == At(r, k - 1))
    {
      var j := if k < i then k else k + 1;
      assert r[k] == s[j];
      assert s[j].next == At(s, if j == i - 1 then i + 1 else j + 1);
      assert 1 <= k ==> s[j].prev == At(s, if j == i + 1 then i - 1 else j - 1);
    }
  }

  lemma {:induction false} InsertedLast(s: seq<Node>, which: int, item: Node)
    requires Position(which) >= |s|
    ensures Inserted(s, which, item) == s + [item]
  {
  }

  lemma {:induction false} InsertedAt(s: seq<Node>, which: int, item: Node)
    requires Distinct(s) && item !in s && Position(which) < |s|
    ensures |Inserted(s, which, item)| == |s| + 1 && Distinct(Inserted(s, which, item))
    ensures Inserted(s, which, item)[Position(which)] == item
    ensures forall k | 0 <= k <= |s| && k != Position(which) ::
              Inserted(s, which, item)[k] == s[if k < Position(which) then k else k - 1]
  {
    DistinctAt(s);
  }

  /** cJSON_InsertItemInArray: an index past the end appends. */
  method InsertItemInArray(parent: Node, which: int, item: Node, ghost s: seq<Node>)
    requires Linked(parent.child, s) && item !in s
    requires Position(which) >= |s| ==> item.next == null && (s == [] ==> item.prev == null)
    modifies parent`child, s`next, s`prev, item`next, item`prev
    ensures Linked(parent.child, Inserted(s, which, item))
  {
    hide Distinct, Inserted;
    var c := Walk(parent.child, which, s);
    if c == null {
      InsertedLast(s, which, item);
      AddItemToArray(parent, item, s);
      return;
    }
    ghost var i: int := Position(which);
    DistinctAt(s);
    item.next := c;
    item.prev := c.prev;
    c.prev := item;
    if c == parent.child {
      parent.child := item;
    } else {
      assert item.prev == At(s, i - 1);
      item.prev.next := item;
    }
    assert forall k {:trigger s[k].prev} | 0 <= k < |s| && k != i :: s[k].prev == old(s[k].prev);
    assert forall k {:trigger s[k].next} | 0 <= k < |s| && k != i - 1 :: s[k].next == old(s[k].next);
    InsertedLinks(parent.child, s, which, item);
  }

  lemma {:induction false} RemovedAt(s: seq<Node>, i: nat)
    requires Distinct(s)
    ensures i >= |s| ==> Without(s, i) == s
    ensures i < |s| ==> |Without(s, i)| == |s| - 1 && Distinct(Without(s, i)) && s[i] !in Without(s, i)
    ensures i < |s| ==> forall k | 0 <= k < |s| - 1 :: Without(s, i)[k] == s[if k < i then k else k + 1]
  {
    DistinctAt(s);
  }

  /** Where prev of the head points: nowhere in a well-formed list; SortList may leave it pointing into the list. */
  ghost predicate HeadPrev(s: seq<Node>, j: nat)
    reads s`prev
  {
    s != [] ==> if j == 0 then s[0].prev == null else j < |s| && s[0].prev == s[j]
  }

  /**
   cJSON_DetachItemFromArray: the node, unlinked on both sides, or null past the
   end. If prev of the head points to s[j], detaching the head closes s[1] to s[j] to a ring.
   */
  method DetachItemFromArray(parent: Node, which: int, ghost s: seq<Node>, ghost j: nat) returns (c: Node?)
    requires Distinct(s) && Chained(parent.child, s) && HeadPrev(s, j)
    modifies parent`child, s`next, s`prev
    ensures c == At(s, Position(which))
    ensures c != null ==> c.next == null && c.prev == null && c !in Without(s, Position(which))
    ensures j == 0 ==> Linked(parent.child, Without(s, Position(which)))
    ensures Position(which) > 0 ==> Chained(parent.child, Without(s, Position(which)))
    ensures s != [] && j > 0 && Position(which) == 0 ==> Ring(parent.child, s[1..j + 1])
  {
    hide Distinct, Without;
    RemovedAt(s, Position(which));
    c := Walk(parent.child, which, s);
    if c == null { return; }
    ghost var i: int := Position(which);
    Neighbours(parent.child, s, i, j);
    Unchain(parent, c, s, i, if i > 0 then i - 1 else if j > 0 then j else -1);
    if i > 0 || j == 0 {
      RemovedLinks(parent.child, s, i);
    } else {
      RingCloses(parent.child, s, j);
    }
  }

  /** The neighbours of a node in a list, and the nodes they are not. */
  lemma {:induction false} Neighbours(head: Node?, s: seq<Node>, i: int, j: nat)
    requires Distinct(s) && Chained(head, s) && HeadPrev(s, j) && 0 <= i < |s|
    ensures s[i].prev == At(s, if i > 0 then i - 1 else if j > 0 then j else -1) && s[i].next == At(s, i + 1)
              && (s[i] == head <==> i == 0)
    ensures forall k | 0 <= k < |s| && k != i :: s[k] != s[i]
    ensures i > 0 ==> forall k | 0 <= k < |s| && k != i - 1 :: s[k] != s[i - 1]
    ensures i + 1 < |s| ==> forall k | 0 <= k < |s| && k != i + 1 :: s[k] != s[i + 1]
    ensures j < |s| ==> forall k | 0 <= k < |s| && k != j :: s[k] != s[j]
  {
    DistinctAt(s);
  }

  /** The link changes of cJSON_DetachItemFromArray; prev of the node points to position b, or to nothing. */
  method Unchain(parent: Node, c: Node, ghost s: seq<Node>, ghost i: int, ghost b: int)
    requires 0 <= i < |s| && c == s[i] && parent.child == s[0]
    requires c.prev == At(s, b) && c.next == At(s, i + 1) && (c == s[0] <==> i == 0)
    requires forall k | 0 <= k < |s| && k != i :: s[k] != s[i]
    requires 0 <= b < |s| ==> b != i && forall k | 0 <= k < |s| && k != b :: s[k] != s[b]
    requires i + 1 < |s| ==> forall k | 0 <= k < |s| && k != i + 1 :: s[k] != s[i + 1]
    modifies parent`child, s`next, s`prev
    ensures forall k {:trigger s[k].prev} | 0 <= k < |s| && k != i ::
              s[k].prev == if k == i + 1 then At(s, b) else old(s[k].prev)
    ensures forall k {:trigger s[k].next} | 0 <= k < |s| && k != i ::
              s[k].next == if k == b then At(s, i + 1) else old(s[k].next)
    ensures c.next == null && c.prev == null
    ensures parent.child == At(s, if i == 0 then 1 else 0)
  {
    if c.prev != null { c.prev.next := c.next; }
    if c.next != null { c.next.prev := c.prev; }
    if c == parent.child { parent.child := c.next; }
    c.prev, c.next := null, null;
  }

  lemma {:induction false} RingCloses(head: Node?, s: seq<Node>, j: nat)
    requires 0 < j < |s| && head == s[1]
    requires forall k {:trigger s[k].next} | 1 <= k <= j :: s[k].next == if k < j then s[k + 1] else s[1]
    ensures Ring(head, s[1..j + 1])
  {
    var r := s[1..j + 1];
    forall k | 0 <= k < |r|
      ensures r[k].next == if k + 1 < |r| then r[k + 1] else r[0]
    {
      assert r[k] == s[k + 1] && s[k + 1].next == if k + 1 < j then s[k + 2] else s[1];
    }
  }

  ghost function Replaced(s: seq<Node>, i: nat, item: Node): (r: seq<Node>) {
    if i < |s| then s[i := item] else s
  }

  /** cJSON_ReplaceItemInArray: nothing happens past the end. */
  method ReplaceItemInArray(parent: Node, which: int, item: Node, ghost s: seq<Node>)
    requires Linked(parent.child, s) && item !in s
    modifies parent`child, s`next, s`prev, item`next, item`prev
    ensures Linked(parent.child, Replaced(s, Position(which), item))
  {
    hide Distinct, Replaced;
    var c := Walk(parent.child, which, s);
    ghost var i: int := Position(which);
    if c == null {
      NotReplaced(s, i, item);
      return;
    }
    Neighbours(parent.child, s, i, 0);
    Exchange(parent, c, item, s, i);
    ReplacedLinks(parent.child, s, i, item);
  }

  /** The link changes of cJSON_ReplaceItemInArray. */
  method Exchange(parent: Node, c: Node, item: Node, ghost s: seq<Node>, ghost i: int)
    requires 0 <= i < |s| && c == s[i] && item !in s && parent.child == s[0]
    requires c.prev == At(s, i - 1) && c.next == At(s, i + 1) && (c == s[0] <==> i == 0)
    requires forall k | 0 <= k < |s| && k != i :: s[k] != s[i]
    requires i > 0 ==> forall k | 0 <= k < |s| && k != i - 1 :: s[k] != s[i - 1]
    requires i + 1 < |s| ==> forall k | 0 <= k < |s| && k != i + 1 :: s[k] != s[i + 1]
    modifies parent`child, s`next, s`prev, item`next, item`prev
    ensures forall k {:trigger s[k].prev} | 0 <= k < |s| && k != i ::
              s[k].prev == if k == i + 1 then item else old(s[k].prev)
    ensures forall k {:trigger s[k].next} | 0 <= k < |s| && k != i ::
              s[k].next == if k == i - 1 then item else old(s[k].next)
    ensures item.prev == At(s, i - 1) && item.next == At(s, i + 1)
    ensures parent.child == if i == 0 then item else s[0]
  {
    item.next := c.next;
    item.prev := c.prev;
    if item.next != null { item.next.prev := item; }
    if c == parent.child { parent.child := item; } else { item.prev.next := item; }
    c.next, c.prev := null, null;
  }

  lemma {:induction false} NotReplaced(s: seq<Node>, i: nat, item: Node)
    requires i >= |s|
    ensures Replaced(s, i, item) == s
  {
  }

  lemma {:induction false} ReplacedLinks(head: Node?, s: seq<Node>, i: int, item: Node)
    requires Distinct(s) && item !in s && 0 <= i < |s|
    requires && (forall k {:trigger s[k].prev} | 0 <= k < |s| && k != i ::
               s[k].prev == if k == i + 1 then item else At(s, k - 1))
             && (forall k {:trigger s[k].next} | 0 <= k < |s| && k != i ::
                 s[k].next == if k == i - 1 then item else At(s, k + 1))
             && item.prev == At(s, i - 1) && item.next == At(s, i + 1) && head == if i == 0 then item else s[0]
    ensures Linked(head, Replaced(s, i, item))
  {
    DistinctAt(s);
    var r := Replaced(s, i, item);
    forall k | 0 <= k < |r|
      ensures r[k].next == At(r, k + 1) && r[k].prev == At(r, k - 1)
    {
      assert r[k] == if k == i then item else s[k];
      assert k != i ==> s[k].next == if k == i - 1 then item else At(s, k + 1);
      assert k != i ==> s[k].prev == if k == i + 1 then item else At(s, k - 1);
    }
  }

  /** Detaching at the position of an insertion undoes it. */
  lemma {:induction false} DetachUndoesInsert(s: seq<Node>, which: int, item: Node)
    ensures var i := if Position(which) < |s| then Position(which) else |s|;
            At(Inserted(s, which, item), i) == item && Without(Inserted(s, which, item), i) == s
  {
    var i, r := if Position(which) < |s| then Position(which) else |s|, Inserted(s, which, item);
    assert r[..i] == s[..i] && r[i + 1..] == s[i..] && s[..i] + s[i..] == s;
  }
}
