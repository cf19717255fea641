/** Pointers into tidy trees resolve to what the canonical form holds at the same steps. */
module Resolution {
  import opened CText
  import opened CaseOrder
  import opened Numbers
  import opened Json
  import opened Pointers
  import opened Canon
  import opened Edits

  /** The pointer token of a step. */
  function Token(s: Step): (t: string) {
    if s.Index? then Decimal(s.k) else Encode(s.name)
  }

  function PathText(p: Path): (t: string) {
    if p == [] then "" else "/" + Token(p[0]) + PathText(p[1..])
  }

  predicate NamesOkPath(p: Path) {
    forall i | 0 <= i < |p| :: p[i].Key? ==> CString(p[i].name)
  }

  lemma {:induction false} PathTextConcat(p: Path, q: Path)
    ensures PathText(p + q) == PathText(p) + PathText(q)
    decreases |p|
  {
    hide PathText, Token;
    PathTextStep(p);
    if p == [] {
      assert p + q == q && "" + PathText(q) == PathText(q);
    } else {
      PathTextConcat(p[1..], q);
      assert (p + q)[0] == p[0] && (p + q)[1..] == p[1..] + q;
      PathTextStep(p + q);
      Regroup("/" + Token(p[0]), PathText(p[1..]), PathText(q));
    }
  }

  lemma {:induction false} PathTextStep(p: Path)
    ensures PathText(p) == if p == [] then "" else "/" + Token(p[0]) + PathText(p[1..])
  {
  }

  lemma {:induction false} PathTextOne(s: Step)
    ensures PathText([s]) == "/" + Token(s)
  {
    assert [s][1..] == [] && "/" + Token(s) + PathText([]) == "/" + Token(s);
  }

  predicate HasPath(c: Canon, p: Path)
    decreases |p|
  {
    p != [] ==> Has(c, p[0]) && HasPath(Get(c, p[0]), p[1..])
  }

  function GetPath(c: Canon, p: Path): (r: Canon)
    requires HasPath(c, p)
    decreases |p|
  {
    if p == [] then c else GetPath(Get(c, p[0]), p[1..])
  }

  function SetPath(c: Canon, p: Path, x: Canon): (r: Canon)
    requires HasPath(c, p)
    decreases |p|
  {
    if p == [] then x else Set(c, p[0], SetPath(Get(c, p[0]), p[1..], x))
  }

  lemma {:induction false} SetPathTwice(c: Canon, p: Path, x: Canon, y: Canon)
    requires HasPath(c, p)
    ensures HasPath(SetPath(c, p, x), p) && GetPath(SetPath(c, p, x), p) == x
    ensures SetPath(SetPath(c, p, x), p, y) == SetPath(c, p, y)
    decreases |p|
  {
    if p != [] {
      SetPathTwice(Get(c, p[0]), p[1..], x, y);
      SetSet(c, p[0], SetPath(Get(c, p[0]), p[1..], x), SetPath(Get(c, p[0]), p[1..], y));
    }
  }

  /** The tree with the child at index k exchanged. */
  function PutChild(v: Json, k: nat, n: Json): (r: Json)
    requires k < ChildCount(v)
  {
    if v.Array? then Array(v.items[k := n]) else Object(v.members[k := Member(v.members[k].name, n)])
  }

  /** The tree with the node at an address exchanged. */
  function UpdateAt(v: Json, a: Address, n: Json): (r: Json)
    requires IsNode(v, a)
    decreases |a|
  {
    if a == [] then n else PutChild(v, a[0], UpdateAt(ChildAt(v, a[0]), a[1..], n))
  }

  lemma {:induction false} CanonItemsUpdate(items: seq<Json>, k: nat, n: Json)
    requires k < |items|
    ensures CanonItems(items[k := n]) == CanonItems(items)[k := CanonOf(n)]
    decreases k
  {
    if k == 0 {
      assert items[k := n][1..] == items[1..];
    } else {
      CanonItemsUpdate(items[1..], k - 1, n);
      assert items[k := n][1..] == items[1..][k - 1 := n];
    }
  }

  lemma {:induction false} CanonMembersUpdate(members: seq<Member>, k: nat, n: Json)
    requires Unlike(members) && k < |members|
    ensures var r := members[k := Member(members[k].name, n)];
            Unlike(r) && CanonMembers(r) == CanonMembers(members)[Fold(members[k].name) := CanonOf(n)]
  {
    var r, m := members[k := Member(members[k].name, n)], CanonMembers(members)[Fold(members[k].name) := CanonOf(n)];
    assert forall i | 0 <= i < |r| :: r[i].name == members[i].name;
    forall i | 0 <= i < |r|
      ensures Fold(r[i].name) in m && m[Fold(r[i].name)] == CanonOf(r[i].value)
    {
      CanonLookup(members, i);
    }
    forall key | key in m
      ensures exists i :: 0 <= i < |r| && Fold(r[i].name) == key
    {
      CanonKeys(members, key);
      CanonLookup(members, k);
      var i :| 0 <= i < |members| && Fold(members[i].name) == key;
      assert Fold(r[i].name) == key;
    }
    CanonMembersIs(r, m);
  }

  /** Exchanging a child exchanges it in the canonical form. */
  lemma {:induction false} PutChildCanon(v: Json, k: nat, s: Step, n: Json)
    requires Tidy(v) && k < ChildCount(v)
    requires if v.Array? then s == Index(k) else s.Key? && Fold(s.name) == Fold(v.members[k].name)
    ensures Has(CanonOf(v), s) && Get(CanonOf(v), s) == CanonOf(ChildAt(v, k)) && Tidy(ChildAt(v, k))
    ensures CanonOf(PutChild(v, k, n)) == Set(CanonOf(v), s, CanonOf(n))
    ensures Tidy(n) ==> Tidy(PutChild(v, k, n))
  {
    if v.Array? {
      PutItemCanon(v.items, k, n);
    } else {
      CanonLookup(v.members, k);
      CanonMembersUpdate(v.members, k, n);
    }
  }

  lemma {:induction false} PutItemCanon(items: seq<Json>, k: nat, n: Json)
    requires Tidy(Array(items)) && k < |items|
    ensures CanonOf(items[k]) == CanonItems(items)[k]
              && CanonOf(Array(items[k := n])) == CArray(CanonItems(items)[k := CanonOf(n)])
    ensures Tidy(items[k]) && (Tidy(n) ==> Tidy(Array(items[k := n])))
  {
    CanonItemsAt(items, k);
    CanonItemsUpdate(items, k, n);
  }

  /** The child that a step leads to. */
  lemma {:induction false} ChildOf(v: Json, s: Step) returns (k: nat)
    requires Tidy(v) && Has(CanonOf(v), s)
    ensures k < ChildCount(v) && (v.Array? || v.Object?)
    ensures if v.Array? then s == Index(k)
            else s.Key? && Fold(s.name) == Fold(v.members[k].name) && FirstNamed(v.members, k)
  {
    if v.Array? {
      k := s.k;
    } else {
      CanonKeys(v.members, Fold(s.name));
      k :| 0 <= k < |v.members| && Fold(v.members[k].name) == Fold(s.name);
    }
  }

  /** One step of evaluation in a tidy tree. */
  lemma {:induction false} StepResolves(v: Json, k: nat, s: Step, t: string, i: nat)
    requires Tidy(v) && k < ChildCount(v) && (s.Key? ==> CString(s.name))
    requires if v.Array? then s == Index(k)
             else s.Key? && Fold(s.name) == Fold(v.members[k].name) && FirstNamed(v.members, k)
    requires CharAt(t, i) == '/' && Occurs(t, i + 1, Token(s))
    requires var e := i + 1 + |Token(s)|; CharAt(t, e) == '\0' || CharAt(t, e) == '/'
    ensures i + 1 + |Token(s)| <= |t|
    ensures Evaluate(v, t, i) == Prepend(k, Evaluate(ChildAt(v, k), t, i + 1 + |Token(s)|))
  {
    if v.Array? {
      ArrayStep(v, k, t, i);
    } else {
      ObjectStep(v, k, s.name, t, i);
    }
  }

  lemma {:induction false} PathStarts(t: string, i: nat, p: Path)
    requires Occurs(t, i, PathText(p)) && i + |PathText(p)| == |t|
    ensures CharAt(t, i) == '\0' || CharAt(t, i) == '/'
  {
    if p != [] {
      OccursChar(t, i, PathText(p), 0);
    }
  }

  /**
   A path that the canonical form has leads to a node with the canonical form
   found there, and exchanging that node exchanges it in the canonical form.
   */
  lemma {:induction false} Resolves(v: Json, p: Path, t: string, i: nat, n: Json) returns (a: Address)
    requires Tidy(v) && HasPath(CanonOf(v), p) && NamesOkPath(p)
    requires Occurs(t, i, PathText(p)) && i + |PathText(p)| == |t|
    ensures Evaluate(v, t, i) == Some(a) && IsNode(v, a)
    ensures CanonOf(NodeAt(v, a)) == GetPath(CanonOf(v), p) && Tidy(NodeAt(v, a))
    ensures CanonOf(UpdateAt(v, a, n)) == SetPath(CanonOf(v), p, CanonOf(n))
    ensures Tidy(n) ==> Tidy(UpdateAt(v, a, n))
    decreases |p|
  {
    if p == [] {
      a := [];
    } else {
      a := ResolvesStep(v, p, t, i, n);
    }
  }

  lemma {:induction false} ResolvesStep(v: Json, p: Path, t: string, i: nat, n: Json) returns (a: Address)
    requires p != [] && Tidy(v) && HasPath(CanonOf(v), p) && NamesOkPath(p)
    requires Occurs(t, i, PathText(p)) && i + |PathText(p)| == |t|
    ensures Evaluate(v, t, i) == Some(a) && IsNode(v, a)
    ensures CanonOf(NodeAt(v, a)) == GetPath(CanonOf(v), p) && Tidy(NodeAt(v, a))
    ensures CanonOf(UpdateAt(v, a, n)) == SetPath(CanonOf(v), p, CanonOf(n))
    ensures Tidy(n) ==> Tidy(UpdateAt(v, a, n))
    decreases |p|, 0
  {
    hide Evaluate, Occurs, Tidy, CanonOf, Token, FirstNamed, Has, Get, Set;
    var s, rest := p[0], PathText(p[1..]);
    OccursConcat(t, i, "/" + Token(s), rest);
    OccursConcat(t, i, "/", Token(s));
    OccursChar(t, i, "/", 0);
    var e := i + 1 + |Token(s)|;
    PathStarts(t, e, p[1..]);
    var k := ChildOf(v, s);
    PutChildCanon(v, k, s, n);
    StepResolves(v, k, s, t, i);
    var c := ChildAt(v, k);
    var b := Resolves(c, p[1..], t, e, n);
    a := [k] + b;
    assert a[1..] == b;
    PutChildCanon(v, k, s, UpdateAt(c, b, n));
  }
}
