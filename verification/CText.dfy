/**
 C strings. A text is held without its terminator; reading at or past the end
 yields the terminator, so a cursor is a position in 0..|t|.
 */
module CText {
  const BACKSPACE := '\U{8}'
  const FORM_FEED := '\U{C}'

  /** What a cursor at position i points at. */
  function CharAt(t: string, i: int): (c: char) {
    if 0 <= i < |t| then t[i] else '\0'
  }

  /** The bytes of a C string: no terminator inside, and 8 bits each. */
  predicate CString(s: string) {
    forall i | 0 <= i < |s| :: 1 <= s[i] as int <= 255
  }

  predicate IsDigit(c: char) {
    '0' <= c <= '9'
  }

  /** p stands in t at position i: what comparing |p| characters with strncmp finds out. */
  predicate Occurs(t: string, i: nat, p: string)
    decreases |p|
  {
    i + |p| <= |t| && (p != "" ==> t[i] == p[0] && Occurs(t, i + 1, p[1..]))
  }

  lemma {:induction false} OccursConcat(t: string, i: nat, p: string, q: string)
    ensures Occurs(t, i, p + q) <==> Occurs(t, i, p) && Occurs(t, i + |p|, q)
    decreases |p|
  {
    if p == "" {
      assert p + q == q;
    } else {
      assert (p + q)[0] == p[0] && (p + q)[1..] == p[1..] + q;
      OccursConcat(t, i + 1, p[1..], q);
    }
  }

  lemma {:induction false} OccursChar(t: string, i: nat, p: string, k: nat)
    requires Occurs(t, i, p) && k < |p|
    ensures CharAt(t, i + k) == p[k] && i + |p| <= |t|
    decreases k
  {
    if k > 0 {
      OccursChar(t, i + 1, p[1..], k - 1);
    }
  }

  lemma {:induction false} OccursSlice(t: string, i: nat, p: string)
    requires Occurs(t, i, p)
    ensures i + |p| <= |t| && t[i..i + |p|] == p
    decreases |p|
  {
    if p != "" {
      OccursSlice(t, i + 1, p[1..]);
      assert t[i..i + |p|] == [t[i]] + t[i + 1..i + |p|];
    }
  }

  lemma {:induction false} OccursSuffix(t: string, i: nat)
    requires i <= |t|
    ensures Occurs(t, i, t[i..])
    decreases |t| - i
  {
    if i < |t| {
      assert t[i..][1..] == t[i + 1..];
      OccursSuffix(t, i + 1);
    }
  }

  /** The utility skip: past everything up to and including the space character. */
  function Skip(t: string, i: nat): (j: nat)
    requires i <= |t|
    ensures i <= j <= |t|
    decreases |t| - i
  {
    if CharAt(t, i) != '\0' && CharAt(t, i) <= ' ' then Skip(t, i + 1) else i
  }
}
