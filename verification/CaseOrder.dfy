/** strcmp and the case-insensitive comparison that cJSON.c and cJSON_Utils.c share, as orders on C strings. */
module CaseOrder {
  import opened CText

  /** tolower in the C locale. */
  function ToLower(c: char): (r: char) {
    if 'A' <= c <= 'Z' then c + 32 as char else c
  }

  function Fold(s: string): (r: string)
    ensures |r| == |s|
  {
    if s == "" then "" else [ToLower(s[0])] + Fold(s[1..])
  }

  /** strcmp, on unsigned characters. */
  function Strcmp(a: string, b: string): (r: int)
    decreases |a|
  {
    var x, y := CharAt(a, 0), CharAt(b, 0);
    if x != y then x as int - y as int else if x == '\0' then 0 else Strcmp(a[1..], b[1..])
  }

  /** cJSON_strcasecmp and cJSONUtils_strcasecmp */
  function Strcasecmp(a: string, b: string): (r: int)
    decreases |a|
  {
    var x, y := ToLower(CharAt(a, 0)), ToLower(CharAt(b, 0));
    if x != y then x as int - y as int else if x == '\0' then 0 else Strcasecmp(a[1..], b[1..])
  }

  lemma {:induction false} FoldAt(s: string, k: nat)
    requires k < |s|
    ensures Fold(s)[k] == ToLower(s[k]) && Fold(s)[1..] == Fold(s[1..])
    decreases k
  {
    if k > 0 {
      FoldAt(s[1..], k - 1);
    }
  }

  lemma {:induction false} FoldCString(s: string)
    requires CString(s)
    ensures CString(Fold(s))
  {
    forall k | 0 <= k < |s|
      ensures 1 <= Fold(s)[k] as int <= 255
    {
      FoldAt(s, k);
    }
  }

  /** Ignoring case is comparing the folded strings. */
  lemma {:induction false} StrcasecmpFolds(a: string, b: string)
    ensures Strcasecmp(a, b) == Strcmp(Fold(a), Fold(b))
    decreases |a|
  {
    if a != "" && b != "" {
      FoldAt(a, 0);
      FoldAt(b, 0);
      StrcasecmpFolds(a[1..], b[1..]);
    } else {
      if a != "" { FoldAt(a, 0); }
      if b != "" { FoldAt(b, 0); }
    }
  }

  lemma {:induction false} StrcmpZero(a: string, b: string)
    requires CString(a) && CString(b)
    ensures Strcmp(a, b) == 0 <==> a == b
    decreases |a|
  {
    if a != "" && b != "" && a[0] == b[0] {
      StrcmpZero(a[1..], b[1..]);
      assert a == [a[0]] + a[1..] && b == [b[0]] + b[1..];
    }
  }

  lemma {:induction false} StrcmpAntisymmetric(a: string, b: string)
    ensures Strcmp(a, b) == -Strcmp(b, a)
    decreases |a|
  {
    if CharAt(a, 0) == CharAt(b, 0) != '\0' {
      StrcmpAntisymmetric(a[1..], b[1..]);
    }
  }

  lemma {:induction false} StrcmpTransitive(a: string, b: string, c: string)
    requires Strcmp(a, b) <= 0 && Strcmp(b, c) <= 0
    ensures Strcmp(a, c) <= 0
    ensures Strcmp(a, b) < 0 || Strcmp(b, c) < 0 ==> Strcmp(a, c) < 0
    decreases |a|
  {
    if CharAt(a, 0) == CharAt(b, 0) == CharAt(c, 0) != '\0' {
      StrcmpTransitive(a[1..], b[1..], c[1..]);
    }
  }

  /** The order that ignores case is total and transitive, and ties exactly the strings that differ in case only. */
  lemma {:induction false} CaseOrderTotal(a: string, b: string)
    requires CString(a) && CString(b)
    ensures Strcasecmp(a, b) == -Strcasecmp(b, a)
    ensures Strcasecmp(a, b) == 0 <==> Fold(a) == Fold(b)
  {
    StrcasecmpFolds(a, b);
    StrcasecmpFolds(b, a);
    FoldCString(a);
    FoldCString(b);
    StrcmpAntisymmetric(Fold(a), Fold(b));
    StrcmpZero(Fold(a), Fold(b));
  }

  lemma {:induction false} CaseOrderTransitive(a: string, b: string, c: string)
    requires Strcasecmp(a, b) <= 0 && Strcasecmp(b, c) <= 0
    ensures Strcasecmp(a, c) <= 0
    ensures Strcasecmp(a, b) < 0 || Strcasecmp(b, c) < 0 ==> Strcasecmp(a, c) < 0
  {
    StrcasecmpFolds(a, b);
    StrcasecmpFolds(b, c);
    StrcasecmpFolds(a, c);
    StrcmpTransitive(Fold(a), Fold(b), Fold(c));
  }

  /** On lower-case strings the two comparisons agree. */
  lemma {:induction false} LowerCaseAgrees(a: string, b: string)
    requires Fold(a) == a && Fold(b) == b
    ensures Strcasecmp(a, b) == Strcmp(a, b)
  {
    StrcasecmpFolds(a, b);
  }

  /** The loop of the case-insensitive comparison. */
  method CompareIgnoringCase(s1: string, s2: string) returns (r: int)
    ensures r == Strcasecmp(s1, s2)
  {
    var i := 0;
    while ToLower(CharAt(s1, i)) == ToLower(CharAt(s2, i))
      invariant i <= |s1| && i <= |s2| && Strcasecmp(s1[i..], s2[i..]) == Strcasecmp(s1, s2)
      decreases |s1| - i
    {
      if CharAt(s1, i) == '\0' { return 0; }
      assert s1[i..][1..] == s1[i + 1..] && s2[i..][1..] == s2[i + 1..];
      i := i + 1;
    }
    r := ToLower(CharAt(s1, i)) as int - ToLower(CharAt(s2, i)) as int;
  }

  /** Strings compare by the first character in which they differ; where one ends, the terminator counts. */
  lemma {:induction false} StrcmpLexicographic(a: string, b: string, k: nat)
    requires CString(a) && CString(b) && k <= |a| && k <= |b| && a[..k] == b[..k]
    requires CharAt(a, k) != CharAt(b, k)
    ensures Strcmp(a, b) < 0 <==> CharAt(a, k) < CharAt(b, k)
    ensures Strcmp(a, b) > 0 <==> CharAt(a, k) > CharAt(b, k)
    decreases k
  {
    if k > 0 {
      assert a[0] == a[..k][0] && b[0] == b[..k][0];
      assert a[1..][..k - 1] == a[..k][1..] && b[1..][..k - 1] == b[..k][1..];
      StrcmpLexicographic(a[1..], b[1..], k - 1);
    }
  }

  /** Folding adds 32 to the codes 65 to 90, wherever they stand, and changes nothing else. */
  lemma {:induction false} FoldShifts(s: string, k: nat)
    requires k < |s|
    ensures Fold(s)[k] as int == s[k] as int + if 65 <= s[k] as int <= 90 then 32 else 0
    ensures Fold(Fold(s)) == Fold(s)
    decreases |s|
  {
    FoldAt(s, k);
    if |s| > 1 {
      FoldShifts(s[1..], 0);
    }
    FoldAt(Fold(s), 0);
    FoldAt(s, 0);
  }
}
