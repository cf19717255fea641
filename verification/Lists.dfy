/** Sequences as lists: distinct elements, and the edits that the C sources make. */
module Lists {
  ghost predicate Apart<T>(s: seq<T>, i: nat, j: nat)
    requires i < |s| && j < |s|
  {
    s[i] != s[j]
  }

  /** No element occurs twice. */
  ghost predicate Distinct<T>(s: seq<T>) {
    forall i, j | 0 <= i < j < |s| :: Apart(s, i, j)
  }

  /** Distinct in the form proofs use; the definition itself is slow to instantiate. */
  lemma {:induction false} DistinctAt<T>(s: seq<T>)
    requires Distinct(s)
    ensures forall i, j | 0 <= i < j < |s| :: s[i] != s[j]
  {
    forall i, j | 0 <= i < j < |s|
      ensures s[i] != s[j]
    {
      assert Apart(s, i, j);
    }
  }

  /** Every element of s is in u. */
  ghost predicate Within<T>(s: seq<T>, u: set<T>) {
    forall i | 0 <= i < |s| :: s[i] in u
  }

  /** Where each element of s stands. */
  ghost predicate Positions<T>(s: seq<T>, pos: map<T, nat>) {
    forall k | 0 <= k < |s| :: s[k] in pos && pos[s[k]] == k
  }

  ghost function Located<T>(s: seq<T>): (pos: map<T, nat>)
    requires Distinct(s)
    ensures Positions(s, pos)
  {
    DistinctAt(s);
    map i: nat | 0 <= i < |s| :: s[i] := i
  }

  /** s without the element at position i; past the end nothing is removed. */
  function Without<T>(s: seq<T>, i: nat): (r: seq<T>) {
    if i < |s| then s[..i] + s[i + 1..] else s
  }

  /** Where an index argument points: the walk along a list stops at once for indices up to 0. */
  function Position(which: int): (i: nat) {
    if which > 0 then which else 0
  }

  /** s with x at the given position, or after its end. */
  function Inserted<T>(s: seq<T>, which: int, x: T): (r: seq<T>) {
    var i := Position(which);
    if i < |s| then s[..i] + [x] + s[i..] else s + [x]
  }
}
