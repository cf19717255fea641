/** Minifying keeps what a text means to the parser, and leaves no blank outside string literals. */
module MinifyLaws {
  import opened CText
  import opened Numbers
  import opened Numerals
  import opened Utf8
  import opened Strings
  import opened Json
  import opened Parser
  import opened Grammar
  import opened Minify

  // What is dropped

  /** The four kinds of blanks are dropped. */
  lemma {:induction false} BlankDropped(t: string, i: nat)
    requires i < |t| && (t[i] == 32 as char || t[i] == 9 as char || t[i] == 10 as char || t[i] == 13 as char)
    ensures MinifyFrom(t, i) == MinifyFrom(t, i + 1)
  {
  }

  /** A double-slash comment is dropped up to the end of its line, or of the text. */
  lemma {:induction false} LineDropped(t: string, i: nat, n: nat)
    requires CString(t) && i + 2 <= n <= |t| && t[i] == '/' && t[i + 1] == '/'
    requires (forall k | i <= k < n :: t[k] != '\n') && (n < |t| ==> t[n] == '\n')
    ensures MinifyFrom(t, i) == MinifyFrom(t, n)
  {
    LineEndIs(t, i + 1, n);
  }

  lemma {:induction false} LineEndIs(t: string, i: nat, n: nat)
    requires CString(t) && i <= n <= |t|
    requires (forall k | i <= k < n :: t[k] != '\n') && (n < |t| ==> t[n] == '\n')
    ensures LineEnd(t, i) == n
    decreases n - i
  {
    if i < n {
      LineEndIs(t, i + 1, n);
    }
  }

  /** A block comment is dropped up to the first star with a slash behind it; that may be the star that opens it. */
  lemma {:induction false} BlockDropped(t: string, i: nat, n: nat)
    requires CString(t) && i < n && n + 2 <= |t| && t[i] == '/' && t[i + 1] == '*' && t[n] == '*' && t[n + 1] == '/'
    requires forall k | i < k < n :: !(t[k] == '*' && t[k + 1] == '/')
    ensures MinifyFrom(t, i) == MinifyFrom(t, n + 2)
  {
    BlockEndIs(t, i, n);
  }

  /** A block comment without its end makes minifying run over the terminator. */
  lemma {:induction false} BlockRunsOver(t: string, i: nat)
    requires CString(t) && i + 2 <= |t| && t[i] == '/' && t[i + 1] == '*'
    requires forall k | i < k && k + 1 < |t| :: !(t[k] == '*' && t[k + 1] == '/')
    ensures MinifyFrom(t, i) == Unterminated
  {
    NoBlockEnd(t, i);
  }

  lemma {:induction false} NoBlockEnd(t: string, i: nat)
    requires CString(t) && i <= |t| && forall k | i <= k && k + 1 < |t| :: !(t[k] == '*' && t[k + 1] == '/')
    ensures BlockEnd(t, i) == |t|
    decreases |t| - i
  {
    if i < |t| {
      NoBlockEnd(t, i + 1);
    }
  }

  lemma {:induction false} BlockEndIs(t: string, i: nat, n: nat)
    requires CString(t) && i <= n && n + 2 <= |t| && t[n] == '*' && t[n + 1] == '/'
    requires forall k | i <= k < n :: !(t[k] == '*' && t[k + 1] == '/')
    ensures BlockEnd(t, i) == n
    decreases n - i
  {
    if i < n {
      BlockEndIs(t, i + 1, n);
    }
  }

  // What is left

  /** From position p on no space, tab, new line or carriage return stands outside string literals, which are closed. */
  predicate Compact(s: string, p: nat)
    decreases |s| - p
  {
    if p >= |s| then p == |s|
    else if s[p] == '\"' then
      Sizing(s, p + 1).At? && Sizing(s, p + 1).end < |s| && Compact(s, Sizing(s, p + 1).end + 1)
    else s[p] !in " \t\n\r" && Compact(s, p + 1)
  }

  /** Minifying the text from position i on gives the text u from position k on. */
  predicate Leaves(t: string, i: nat, u: string, k: nat) {
    i <= |t| && k <= |u| && MinifyFrom(t, i) == Left(u[k..])
  }

  /** n characters of t from position i on stand in u from position k on. */
  predicate Same(t: string, i: nat, u: string, k: nat, n: nat) {
    i + n <= |t| && k + n <= |u| && t[i..i + n] == u[k..k + n]
  }

  lemma {:induction false} SameAt(t: string, i: nat, u: string, k: nat, n: nat, m: nat)
    requires Same(t, i, u, k, n) && m < n
    ensures i + m < |t| && k + m < |u| && t[i + m] == u[k + m]
  {
    assert t[i..i + n][m] == u[k..k + n][m];
  }

  lemma {:induction false} SamePart(t: string, i: nat, u: string, k: nat, n: nat, m: nat, l: nat)
    requires Same(t, i, u, k, n) && m + l <= n
    ensures Same(t, i + m, u, k + m, l)
  {
    SubSlice(t, i, n, m, l);
    SubSlice(u, k, n, m, l);
  }

  lemma {:induction false} SubSlice(t: string, i: nat, n: nat, m: nat, l: nat)
    requires m + l <= n && i + n <= |t|
    ensures t[i + m..(i + m) + l] == t[i..i + n][m..m + l]
  {
    var w, x, y := t[i..i + n], t[i + m..(i + m) + l], t[i..i + n][m..m + l];
    assert |x| == |y|;
    forall a | 0 <= a < l
      ensures x[a] == y[a]
    {
      assert y[a] == w[m + a] && w[m + a] == t[i + (m + a)];
    }
    assert x == y;
  }

  /** A stretch that two texts share has the same extent as a literal in both. */
  lemma {:induction false} SizingMoves(t: string, p: nat, u: string, q: nat)
    requires p <= |t| && Sizing(t, p).At? && Sizing(t, p).end < |t|
    requires Same(t, p, u, q, Sizing(t, p).end + 1 - p)
    ensures Sizing(u, q) == At(q + (Sizing(t, p).end - p), Sizing(t, p).len)
    decreases |t| - p
  {
    hide Same;
    var n := Sizing(t, p).end + 1 - p;
    SameAt(t, p, u, q, n, 0);
    if t[p] != '\"' && t[p] != '\0' {
      var m := if t[p] == '\\' then 2 else 1;
      SamePart(t, p, u, q, n, m, n - m);
      SizingMoves(t, p + m, u, q + m);
    }
  }

  lemma {:induction false} CharLeft(t: string, i: nat, u: string, k: nat)
    requires CString(t) && Leaves(t, i, u, k) && i < |t| && t[i] !in " \t\n\r/\""
    ensures k < |u| && u[k] == t[i] && Leaves(t, i + 1, u, k + 1)
  {
    var rest := MinifyFrom(t, i + 1);
    assert u[k..] == [t[i]] + rest.s;
    assert u[k..][1..] == u[k + 1..] && ([t[i]] + rest.s)[1..] == rest.s;
  }

  lemma {:induction false} LiteralLeft(t: string, i: nat, u: string, k: nat)
    requires CString(t) && Leaves(t, i, u, k) && i < |t| && t[i] == '\"'
    ensures Sizing(t, i + 1).At? && Sizing(t, i + 1).end < |t| && t[Sizing(t, i + 1).end] == '\"'
    ensures var n := Sizing(t, i + 1).end + 1 - i;
            Same(t, i, u, k, n) && Leaves(t, i + n, u, k + n)
  {
    var e := Sizing(t, i + 1).end;
    var p, rest := t[i..e + 1], MinifyFrom(t, e + 1);
    assert u[k..] == p + rest.s;
    assert u[k..k + |p|] == (p + rest.s)[..|p|] && u[k + |p|..] == (p + rest.s)[|p|..];
  }

  /** The minified text is compact. */
  lemma {:induction false} NoBlankLeft(t: string, i: nat, u: string, k: nat)
    requires CString(t) && Leaves(t, i, u, k)
    ensures Compact(u, k)
    decreases |t| - i
  {
    hide Sizing, LineEnd, BlockEnd, Same;
    if i < |t| {
      if t[i] == '\"' {
        LiteralLeft(t, i, u, k);
        var n := Sizing(t, i + 1).end + 1 - i;
        SameAt(t, i, u, k, n, 0);
        SamePart(t, i, u, k, n, 1, n - 1);
        SizingMoves(t, i + 1, u, k + 1);
        NoBlankLeft(t, i + n, u, k + n);
      } else if t[i] in " \t\n\r" {
        NoBlankLeft(t, i + 1, u, k);
      } else if t[i] == '/' {
        SlashLeft(t, i, u, k);
      } else {
        CharLeft(t, i, u, k);
        NoBlankLeft(t, i + 1, u, k + 1);
      }
    }
  }

  lemma {:induction false} SlashLeft(t: string, i: nat, u: string, k: nat)
    requires CString(t) && Leaves(t, i, u, k) && i < |t| && t[i] == '/'
    ensures Compact(u, k)
    decreases |t| - i, 0
  {
    if CharAt(t, i + 1) == '/' {
      NoBlankLeft(t, LineEnd(t, i + 1), u, k);
    } else if CharAt(t, i + 1) == '*' {
      NoBlankLeft(t, BlockEnd(t, i) + 2, u, k);
    } else {
      var rest := MinifyFrom(t, i + 1);
      assert u[k..] == ['/'] + rest.s;
      assert u[k..][1..] == u[k + 1..] && (['/'] + rest.s)[1..] == rest.s;
      NoBlankLeft(t, i + 1, u, k + 1);
    }
  }

  /** Whatever the text, minifying leaves no blank outside literals. */
  lemma {:induction false} MinifiedCompact(t: string)
    requires CString(t) && MinifyFrom(t, 0).Left?
    ensures Compact(MinifyFrom(t, 0).s, 0)
  {
    var u := MinifyFrom(t, 0).s;
    assert u[0..] == u;
    NoBlankLeft(t, 0, u, 0);
  }

  // The grammar on the minified text

  lemma {:induction false} BlanksLeft(t: string, a: nat, b: nat, u: string, k: nat) returns (l: nat)
    requires CString(t) && Blanks(t, a, b) && Leaves(t, a, u, k)
    ensures Blanks(u, k, l) && Leaves(t, b, u, l)
    decreases b - a
  {
    hide MinifyFrom;
    if a == b {
      l := k;
    } else if t[a] in " \t\n\r" {
      BlankDropped(t, a);
      l := BlanksLeft(t, a + 1, b, u, k);
    } else {
      CharLeft(t, a, u, k);
      l := BlanksLeft(t, a + 1, b, u, k + 1);
    }
  }

  /** A stretch without blanks, slashes and quotes is copied. */
  lemma {:induction false} RunLeft(t: string, i: nat, j: nat, u: string, k: nat)
    requires CString(t) && Leaves(t, i, u, k) && i <= j <= |t| && forall m | i <= m < j :: t[m] !in " \t\n\r/\""
    ensures Same(t, i, u, k, j - i) && Leaves(t, j, u, k + (j - i))
    decreases j - i
  {
    hide MinifyFrom;
    if i < j {
      CharLeft(t, i, u, k);
      RunLeft(t, i + 1, j, u, k + 1);
      assert t[i..j] == [t[i]] + t[i + 1..j] && u[k..k + (j - i)] == [u[k]] + u[k + 1..k + (j - i)];
    }
  }

  lemma {:induction false} SliceOccurs(t: string, i: nat, p: string)
    requires i + |p| <= |t| && t[i..i + |p|] == p
    ensures Occurs(t, i, p)
    decreases |p|
  {
    if p != "" {
      assert t[i] == p[0] && t[i + 1..i + |p|] == p[1..];
      SliceOccurs(t, i + 1, p[1..]);
    }
  }

  lemma {:induction false} WordLeft(t: string, i: nat, w: string, u: string, k: nat)
    requires CString(t) && Leaves(t, i, u, k) && Occurs(t, i, w) && forall m | 0 <= m < |w| :: w[m] !in " \t\n\r/\""
    ensures Occurs(u, k, w) && Leaves(t, i + |w|, u, k + |w|)
  {
    hide MinifyFrom;
    OccursSlice(t, i, w);
    assert forall m | i <= m < i + |w| :: t[m] == w[m - i];
    RunLeft(t, i, i + |w|, u, k);
    SliceOccurs(u, k, w);
  }

  lemma {:induction false} UnicodeMoves(t: string, p: nat, u: string, q: nat, n: nat)
    requires UnicodeAt(t, p).CodePoint? && p + n == UnicodeAt(t, p).next && Same(t, p, u, q, n)
    ensures UnicodeAt(u, q) == CodePoint(UnicodeAt(t, p).cp, q + n)
  {
    hide Same, Hex4, Hex4Value;
    HexMoves(t, p, u, q, n, 1);
    if n == 11 {
      SameAt(t, p, u, q, n, 5);
      SameAt(t, p, u, q, n, 6);
      HexMoves(t, p, u, q, n, 7);
    }
  }

  lemma {:induction false} HexMoves(t: string, p: nat, u: string, q: nat, n: nat, m: nat)
    requires Hex4(t, p + m) && Same(t, p, u, q, n) && m + 4 <= n
    ensures Hex4(u, q + m) && Hex4Value(u, q + m) == Hex4Value(t, p + m)
  {
    hide Same;
    SameAt(t, p, u, q, n, m);
    SameAt(t, p, u, q, n, m + 1);
    SameAt(t, p, u, q, n, m + 2);
    SameAt(t, p, u, q, n, m + 3);
  }

  lemma {:induction false} BodyMoves(t: string, p: nat, e: nat, s: string, u: string, q: nat)
    requires p <= e <= |t| && Body(t, p, e, s) && Same(t, p, u, q, e - p)
    ensures q + (e - p) <= |u| && Body(u, q, q + (e - p), s)
    decreases e - p
  {
    hide Octets, UnicodeAt, Same;
    var n := e - p;
    SameFits(t, p, u, q, n);
    if p < e {
      SameAt(t, p, u, q, n, 0);
      if t[p] != '\\' {
        SamePart(t, p, u, q, n, 1, n - 1);
        BodyMoves(t, p + 1, e, s[1..], u, q + 1);
      } else {
        EscapeFits(t, p, e, s);
        SameAt(t, p, u, q, n, 1);
        if t[p + 1] == 'u' {
          var m := UnicodeAt(t, p + 1).next - p;
          SamePart(t, p, u, q, n, 1, m - 1);
          UnicodeMoves(t, p + 1, u, q + 1, m - 1);
          SamePart(t, p, u, q, n, m, n - m);
          BodyMoves(t, p + m, e, s[|Octets(UnicodeAt(t, p + 1).cp)|..], u, q + m);
        } else {
          SamePart(t, p, u, q, n, 2, n - 2);
          BodyMoves(t, p + 2, e, s[1..], u, q + 2);
        }
      }
    }
  }

  lemma {:induction false} SameFits(t: string, i: nat, u: string, k: nat, n: nat)
    requires Same(t, i, u, k, n)
    ensures i + n <= |t| && k + n <= |u|
  {
  }

  lemma {:induction false} EscapeFits(t: string, p: nat, e: nat, s: string)
    requires p < e <= |t| && Body(t, p, e, s) && t[p] == '\\'
    ensures p + 2 <= e && (t[p + 1] == 'u' ==> p + 2 < UnicodeAt(t, p + 1).next <= e)
  {
    hide Octets, Hex4, Hex4Value;
    if CharAt(t, p + 1) == 'u' {
      var d := UnicodeAt(t, p + 1);
      BodyEnds(t, d.next, e, s[|Octets(d.cp)|..]);
    }
  }

  lemma {:induction false} BodyEnds(t: string, p: nat, e: nat, s: string)
    requires e <= |t| && Body(t, p, e, s)
    ensures p <= e
  {
  }

  /** A literal that the minifier copies moves with the text. */
  lemma {:induction false} LiteralMoves(t: string, i: nat, j: nat, s: string, u: string, k: nat)
    requires CString(t) && Leaves(t, i, u, k) && Literal(t, i, j, s)
    ensures k + (j - i) <= |u| && Literal(u, k, k + (j - i), s) && Leaves(t, j, u, k + (j - i))
  {
    hide Leaves, Body, Sizing, Same;
    var n := j - i;
    LiteralLeft(t, i, u, k);
    ClosedEnd(t, i, j, s);
    SameFits(t, i, u, k, n);
    SameAt(t, i, u, k, n, 0);
    SameAt(t, i, u, k, n, n - 1);
    SamePart(t, i, u, k, n, 1, n - 2);
    BodyMoves(t, i + 1, j - 1, s, u, k + 1);
  }

  /** A literal whose sizing scan finds a quote ends behind it. */
  lemma {:induction false} ClosedEnd(t: string, i: nat, j: nat, s: string)
    requires CString(t) && Literal(t, i, j, s) && Sizing(t, i + 1).At?
    requires Sizing(t, i + 1).end < |t| && t[Sizing(t, i + 1).end] == '\"'
    ensures j == Sizing(t, i + 1).end + 1 && i + 1 < j && t[j - 1] == '\"' && Body(t, i + 1, j - 1, s)
  {
    hide Body, Sizing;
    var e := if i + 1 < j && t[j - 1] == '\"' && Body(t, i + 1, j - 1, s) then j - 1 else j;
    BodyDecodes(t, i + 1, e, s);
  }

  // Numbers

  /** What may follow a number in an accepted text. */
  predicate Ends(c: char) {
    c <= ' ' || c == ',' || c == ']' || c == '}'
  }

  /** After blanks comes a separator or the end of the text. */
  predicate Followed(t: string, j: nat, c: nat) {
    Blanks(t, j, c) && (c == |t| || t[c] in ",]}")
  }

  lemma {:induction false} FollowedEnds(t: string, j: nat, c: nat, u: string, l: nat)
    requires CString(t) && Followed(t, j, c) && Leaves(t, j, u, l)
    ensures Ends(CharAt(t, j)) && Ends(CharAt(u, l))
  {
    hide MinifyFrom;
    var m := BlanksLeft(t, j, c, u, l);
    if c < |t| {
      CharLeft(t, c, u, m);
    } else {
      NothingLeft(t, u, m);
    }
  }

  lemma {:induction false} NothingLeft(t: string, u: string, m: nat)
    requires CString(t) && Leaves(t, |t|, u, m)
    ensures m == |u|
  {
  }

  /** Two texts agree on n characters, after which in both there is an end of a number. */
  predicate Alike(t: string, i: nat, u: string, k: nat, n: nat) {
    Same(t, i, u, k, n) && Ends(CharAt(t, i + n)) && Ends(CharAt(u, k + n))
  }

  /** Agreeing characters, or ends of a number in both. */
  lemma {:induction false} AlikeAt(t: string, i: nat, u: string, k: nat, n: nat, m: nat)
    requires Alike(t, i, u, k, n) && m <= n
    ensures i + n <= |t| && k + n <= |u|
    ensures m < n ==> CharAt(t, i + m) == CharAt(u, k + m)
    ensures m == n ==> Ends(CharAt(t, i + m)) && Ends(CharAt(u, k + m))
  {
    if m < n {
      SameAt(t, i, u, k, n, m);
    }
  }

  lemma {:induction false} RunMoves(t: string, i: nat, u: string, k: nat, n: nat, a: nat, b: nat)
    requires Alike(t, i, u, k, n) && a <= b <= n && DigitRun(t, i + a, i + b)
    ensures DigitRun(u, k + a, k + b)
  {
    hide Alike;
    AlikeAt(t, i, u, k, n, b);
    forall m | k + a <= m < k + b
      ensures IsDigit(u[m])
    {
      AlikeAt(t, i, u, k, n, m - k);
      assert IsDigit(t[i + (m - k)]);
    }
  }

  lemma {:induction false} WholeMoves(t: string, i: nat, u: string, k: nat, n: nat, p: nat, q: nat)
    requires Alike(t, i, u, k, n) && p <= q <= n && Whole(t, i + p, i + q)
    ensures Whole(u, k + p, k + q)
  {
    hide Alike, DigitRun;
    AlikeAt(t, i, u, k, n, p);
    var z := if CharAt(t, i + p) == '0' then p + 1 else p;
    WholeStart(t, i + p, i + q);
    AlikeAt(t, i, u, k, n, z);
    if '1' <= CharAt(t, i + z) <= '9' {
      RunMoves(t, i, u, k, n, z, q);
    }
  }

  lemma {:induction false} WholeStart(t: string, p: nat, q: nat)
    requires Whole(t, p, q)
    ensures (if CharAt(t, p) == '0' then p + 1 else p) <= q
  {
  }

  lemma {:induction false} FractionMoves(t: string, i: nat, u: string, k: nat, n: nat, q: nat, r: nat)
    requires Alike(t, i, u, k, n) && q <= r <= n && Fraction(t, i + q, i + r)
    ensures Fraction(u, k + q, k + r)
  {
    hide Alike, DigitRun;
    AlikeAt(t, i, u, k, n, q);
    if CharAt(t, i + q) == '.' {
      AlikeAt(t, i, u, k, n, q + 1);
      if IsDigit(CharAt(t, i + q + 1)) {
        RunStart(t, i + q + 1, i + r);
        RunMoves(t, i, u, k, n, q + 1, r);
      }
    }
  }

  lemma {:induction false} RunStart(t: string, a: nat, b: nat)
    requires DigitRun(t, a, b)
    ensures a <= b
  {
  }

  lemma {:induction false} PowerMoves(t: string, i: nat, u: string, k: nat, n: nat, r: nat)
    requires Alike(t, i, u, k, n) && r <= n && Power(t, i + r, i + n)
    ensures Power(u, k + r, k + n) && IsE(CharAt(t, i + r)) == IsE(CharAt(u, k + r))
    ensures IsE(CharAt(t, i + r)) ==> r < n && ExponentStart(u, k + r) == ExponentStart(t, i + r) - i + k
    ensures IsE(CharAt(t, i + r)) ==> (CharAt(t, i + r + 1) == '-' <==> CharAt(u, k + r + 1) == '-')
  {
    hide Alike, DigitRun;
    AlikeAt(t, i, u, k, n, r);
    if IsE(CharAt(t, i + r)) {
      AlikeAt(t, i, u, k, n, r + 1);
      RunStart(t, ExponentStart(t, i + r), i + n);
      RunMoves(t, i, u, k, n, ExponentStart(t, i + r) - i, n);
    }
  }

  /** The same characters, with the end of a number behind them, are the same numeral. */
  lemma {:induction false} NumeralMoves(t: string, i: nat, q: nat, r: nat, n: nat, x: real, u: string, k: nat)
    requires Alike(t, i, u, k, n) && Numeral(t, i, i + q, i + r, i + n, x)
    ensures k + n <= |u| && Numeral(u, k, k + q, k + r, k + n, x)
  {
    hide Alike, Whole, Fraction, Power, PartsOf, Scaled;
    var p := AfterSign(t, i) - i;
    AlikeAt(t, i, u, k, n, 0);
    WholeMoves(t, i, u, k, n, p, q);
    FractionMoves(t, i, u, k, n, q, r);
    PowerMoves(t, i, u, k, n, r);
    PartsMove(t, i, u, k, n, p, q, r);
  }

  lemma {:induction false} PartsMove(t: string, i: nat, u: string, k: nat, n: nat, p: nat, q: nat, r: nat)
    requires Alike(t, i, u, k, n) && p <= q <= r <= n
    requires Whole(t, i + p, i + q) && Fraction(t, i + q, i + r) && Power(t, i + r, i + n)
    requires Whole(u, k + p, k + q) && Fraction(u, k + q, k + r) && Power(u, k + r, k + n)
    ensures i + n <= |t| && k + n <= |u|
    ensures PartsOf(u, k + p, k + q, k + r, k + n) == PartsOf(t, i + p, i + q, i + r, i + n)
  {
    hide DigitRun, NatOf, Whole, Fraction;
    SamePart(t, i, u, k, n, p, q - p);
    if r > q { SamePart(t, i, u, k, n, q + 1, r - q - 1); }
    PowerMoves(t, i, u, k, n, r);
    if IsE(CharAt(t, i + r)) {
      RunStart(t, ExponentStart(t, i + r), i + n);
      var s := ExponentStart(t, i + r) - i;
      SamePart(t, i, u, k, n, s, n - s);
    }
  }

  // Values

  lemma {:induction false} NumeralPlain(t: string, i: nat, q: nat, r: nat, j: nat, x: real)
    requires Numeral(t, i, q, r, j, x)
    ensures i <= j <= |t| && forall m | i <= m < j :: t[m] !in " \t\n\r/\""
  {
    hide PartsOf, Scaled;
  }

  /**
   The value that is derived in the text is derived in what minifying leaves of it,
   and what follows it is left behind it.
   */
  lemma {:induction false} ValueLeft(t: string, i: nat, j: nat, c: nat, v: Json, u: string, k: nat) returns (l: nat)
    requires CString(t) && Leaves(t, i, u, k) && Derives(t, i, j, v) && Followed(t, j, c)
    ensures Derives(u, k, l, v) && Leaves(t, j, u, l)
    decreases v, 0
  {
    hide Leaves, Followed, ItemsDerive, MembersDerive, Empty, Literal, Numeral, Truncate, Occurs;
    match v {
      case Null => WordLeft(t, i, "null", u, k); l := k + 4;
      case False => WordLeft(t, i, "false", u, k); l := k + 5;
      case True => WordLeft(t, i, "true", u, k); l := k + 4;
      case Number(_, x) => l := NumberLeft(t, i, j, c, x, u, k);
      case String(s) =>
        LiteralBounds(t, i, j, s);
        LiteralMoves(t, i, j, s, u, k);
        l := k + (j - i);
      case Array(items) =>
        MarkLeft(t, i, u, k);
        if items == [] {
          l := EmptyLeft(t, i + 1, j, ']', u, k + 1);
        } else {
          l := ItemsLeft(t, i + 1, j, items, u, k + 1);
        }
      case Object(members) =>
        MarkLeft(t, i, u, k);
        if members == [] {
          l := EmptyLeft(t, i + 1, j, '}', u, k + 1);
        } else {
          l := MembersLeft(t, i + 1, j, members, u, k + 1);
        }
    }
  }

  lemma {:induction false} LiteralBounds(t: string, i: nat, j: nat, s: string)
    requires Literal(t, i, j, s)
    ensures i < j <= |t|
  {
  }

  lemma {:induction false} NumberLeft(t: string, i: nat, j: nat, c: nat, x: real, u: string, k: nat) returns (l: nat)
    requires CString(t) && Leaves(t, i, u, k) && Followed(t, j, c)
    requires Derives(t, i, j, Json.Number(Truncate(x), x))
    ensures Derives(u, k, l, Json.Number(Truncate(x), x)) && Leaves(t, j, u, l)
  {
    hide Leaves, Followed, Numeral, Truncate;
    var q: nat, r: nat :| Numeral(t, i, q, r, j, x);
    NumeralPlain(t, i, q, r, j, x);
    NumeralOrder(t, i, q, r, j, x);
    RunLeft(t, i, j, u, k);
    l := k + (j - i);
    FollowedEnds(t, j, c, u, l);
    AlikeAt(t, i, u, k, j - i, 0);
    NumeralMoves(t, i, q - i, r - i, j - i, x, u, k);
    NumeralStart(t, i, q, r, j, x);
  }

  lemma {:induction false} NumeralOrder(t: string, i: nat, q: nat, r: nat, j: nat, x: real)
    requires Numeral(t, i, q, r, j, x)
    ensures i <= q <= r <= j <= |t|
  {
    hide PartsOf, Scaled, Whole, Fraction, Power;
  }

  /** A numeral that starts with a sign or a digit has at least this character. */
  lemma {:induction false} NumeralStart(t: string, i: nat, q: nat, r: nat, j: nat, x: real)
    requires Numeral(t, i, q, r, j, x) && (CharAt(t, i) == '-' || IsDigit(CharAt(t, i)))
    ensures i < j
  {
    hide PartsOf, Scaled;
  }

  lemma {:induction false} MarkLeft(t: string, i: nat, u: string, k: nat)
    requires CString(t) && Leaves(t, i, u, k) && CharAt(t, i) in "[]{},:"
    ensures k < |u| && u[k] == CharAt(t, i) && Leaves(t, i + 1, u, k + 1)
  {
    CharLeft(t, i, u, k);
  }

  lemma {:induction false} EmptyLeft(t: string, i: nat, j: nat, close: char, u: string, k: nat) returns (l: nat)
    requires CString(t) && Leaves(t, i, u, k) && Empty(t, i, j, close) && close in "]}"
    ensures Empty(u, k, l, close) && Leaves(t, j, u, l)
  {
    hide Leaves;
    var m := BlanksLeft(t, i, j - 1, u, k);
    MarkLeft(t, j - 1, u, m);
    l := m + 1;
  }

  lemma {:induction false} ItemsLeft(t: string, i: nat, j: nat, items: seq<Json>, u: string, k: nat) returns (l: nat)
    requires CString(t) && Leaves(t, i, u, k) && items != [] && ItemsDerive(t, i, j, items)
    ensures ItemsDerive(u, k, l, items) && Leaves(t, j, u, l)
    decreases items
  {
    hide Leaves, Derives, ItemsDerive, Blanks;
    var a, b, c := ItemsOf(t, i, j, items);
    var a' := BlanksLeft(t, i, a, u, k);
    MarkFollows(t, b, c);
    var b' := ValueLeft(t, a, b, c, items[0], u, a');
    var c' := BlanksLeft(t, b, c, u, b');
    MarkLeft(t, c, u, c');
    if |items| == 1 {
      l := c' + 1;
    } else {
      l := ItemsLeft(t, c + 1, j, items[1..], u, c' + 1);
    }
    ItemsFrom(u, k, l, items, a', b', c');
  }

  lemma {:induction false} MarkFollows(t: string, b: nat, c: nat)
    requires Blanks(t, b, c) && CharAt(t, c) in ",]}"
    ensures Followed(t, b, c)
  {
  }

  lemma {:induction false} MemberLeft(t: string, i: nat, j: nat, c: nat, m: Member, u: string, k: nat) returns (l: nat)
    requires CString(t) && Leaves(t, i, u, k) && MemberDerives(t, i, j, m) && Followed(t, j, c)
    ensures MemberDerives(u, k, l, m) && Leaves(t, j, u, l)
    decreases m
  {
    hide Leaves, Derives, Literal, Blanks, Followed;
    var b: nat, d: nat, e: nat :|
      && Literal(t, i, b, m.name) && Blanks(t, b, d) && CharAt(t, d) == ':'
      && Blanks(t, d + 1, e) && Derives(t, e, j, m.value);
    LiteralBounds(t, i, b, m.name);
    LiteralMoves(t, i, b, m.name, u, k);
    var b' := k + (b - i);
    var d' := BlanksLeft(t, b, d, u, b');
    MarkLeft(t, d, u, d');
    var e' := BlanksLeft(t, d + 1, e, u, d' + 1);
    l := ValueLeft(t, e, j, c, m.value, u, e');
  }

  lemma {:induction false} MembersLeft(t: string, i: nat, j: nat, members: seq<Member>, u: string, k: nat)
    returns (l: nat)
    requires CString(t) && Leaves(t, i, u, k) && members != [] && MembersDerive(t, i, j, members)
    ensures MembersDerive(u, k, l, members) && Leaves(t, j, u, l)
    decreases members
  {
    hide Leaves, MemberDerives, MembersDerive, Blanks;
    var a, b, c := MembersOf(t, i, j, members);
    var a' := BlanksLeft(t, i, a, u, k);
    MarkFollows(t, b, c);
    var b' := MemberLeft(t, a, b, c, members[0], u, a');
    var c' := BlanksLeft(t, b, c, u, b');
    MarkLeft(t, c, u, c');
    if |members| == 1 {
      l := c' + 1;
    } else {
      l := MembersLeft(t, c + 1, j, members[1..], u, c' + 1);
    }
    MembersFrom(u, k, l, members, a', b', c');
  }

  lemma {:induction false} LeftText(t: string, i: nat, u: string, k: nat)
    requires CString(t) && Leaves(t, i, u, k)
    ensures forall m | k <= m < |u| :: 1 <= u[m] as int <= 255
    decreases |t| - i
  {
    hide Sizing, LineEnd, BlockEnd, Same;
    if i < |t| {
      if t[i] == '\"' {
        LiteralLeft(t, i, u, k);
        var n := Sizing(t, i + 1).end + 1 - i;
        LeftText(t, i + n, u, k + n);
        forall m | k <= m < k + n
          ensures 1 <= u[m] as int <= 255
        {
          SameAt(t, i, u, k, n, m - k);
        }
      } else if t[i] in " \t\n\r" {
        LeftText(t, i + 1, u, k);
      } else if t[i] == '/' && CharAt(t, i + 1) == '/' {
        LeftText(t, LineEnd(t, i + 1), u, k);
      } else if t[i] == '/' && CharAt(t, i + 1) == '*' {
        LeftText(t, BlockEnd(t, i) + 2, u, k);
      } else {
        PlainLeft(t, i, u, k);
        LeftText(t, i + 1, u, k + 1);
      }
    }
  }

  lemma {:induction false} PlainLeft(t: string, i: nat, u: string, k: nat)
    requires CString(t) && Leaves(t, i, u, k) && i < |t| && t[i] !in " \t\n\r\""
    requires t[i] == '/' ==> CharAt(t, i + 1) != '/' && CharAt(t, i + 1) != '*'
    ensures k < |u| && u[k] == t[i] && Leaves(t, i + 1, u, k + 1)
  {
    var rest := MinifyFrom(t, i + 1);
    assert u[k..] == [t[i]] + rest.s;
    assert u[k..][1..] == u[k + 1..] && ([t[i]] + rest.s)[1..] == rest.s;
  }

  // Minifying an accepted text stays within it

  /** If minifying from j on stays within the text, so does minifying from i on. */
  predicate Stays(t: string, i: nat, j: nat) {
    i <= j <= |t| && (MinifyFrom(t, j).Left? ==> MinifyFrom(t, i).Left?)
  }

  lemma {:induction false} RunStays(t: string, i: nat, j: nat)
    requires CString(t) && i <= j <= |t| && forall m | i <= m < j :: t[m] !in "/\""
    ensures Stays(t, i, j)
    decreases j - i
  {
    if i < j {
      RunStays(t, i + 1, j);
    }
  }

  lemma {:induction false} LiteralStays(t: string, i: nat, j: nat, s: string)
    requires CString(t) && Literal(t, i, j, s) && i + 1 < j && t[j - 1] == '\"' && Body(t, i + 1, j - 1, s)
    ensures Stays(t, i, j)
  {
    hide Body, Sizing;
    BodyDecodes(t, i + 1, j - 1, s);
  }

  /** A literal that does not end with the text is closed. */
  lemma {:induction false} InnerStays(t: string, i: nat, j: nat, s: string)
    requires CString(t) && Literal(t, i, j, s) && j < |t|
    ensures Stays(t, i, j)
  {
    hide Body, Stays;
    LiteralStays(t, i, j, s);
  }

  lemma {:induction false} WordStays(t: string, i: nat, w: string)
    requires CString(t) && Occurs(t, i, w) && forall m | 0 <= m < |w| :: w[m] !in "/\""
    ensures Stays(t, i, i + |w|)
  {
    OccursSlice(t, i, w);
    assert forall m | i <= m < i + |w| :: t[m] == w[m - i];
    RunStays(t, i, i + |w|);
  }

  lemma {:induction false} BlanksStay(t: string, a: nat, b: nat)
    requires CString(t) && Blanks(t, a, b)
    ensures Stays(t, a, b)
  {
    RunStays(t, a, b);
  }

  lemma {:induction false} MarkStays(t: string, i: nat)
    requires CString(t) && CharAt(t, i) in "[]{},:"
    ensures Stays(t, i, i + 1)
  {
    RunStays(t, i, i + 1);
  }

  lemma {:induction false} StaysOn(t: string, i: nat, j: nat, k: nat)
    requires Stays(t, i, j) && Stays(t, j, k)
    ensures Stays(t, i, k)
  {
  }

  lemma {:induction false} ValueStays(t: string, i: nat, j: nat, v: Json)
    requires CString(t) && Derives(t, i, j, v) && (v.String? ==> j < |t|)
    ensures Stays(t, i, j)
    decreases v
  {
    hide Stays, ItemsDerive, MembersDerive, Empty, Literal, Numeral, Truncate, Occurs;
    match v {
      case Null => WordStays(t, i, "null");
      case False => WordStays(t, i, "false");
      case True => WordStays(t, i, "true");
      case Number(_, x) =>
        var q: nat, r: nat :| Numeral(t, i, q, r, j, x);
        NumeralPlain(t, i, q, r, j, x);
        RunStays(t, i, j);
      case String(s) => InnerStays(t, i, j, s);
      case Array(items) =>
        MarkStays(t, i);
        if items == [] {
          EmptyStays(t, i + 1, j, ']');
        } else {
          ItemsStay(t, i + 1, j, items);
        }
        StaysOn(t, i, i + 1, j);
      case Object(members) =>
        MarkStays(t, i);
        if members == [] {
          EmptyStays(t, i + 1, j, '}');
        } else {
          MembersStay(t, i + 1, j, members);
        }
        StaysOn(t, i, i + 1, j);
    }
  }

  lemma {:induction false} EmptyStays(t: string, i: nat, j: nat, close: char)
    requires CString(t) && Empty(t, i, j, close) && close in "]}"
    ensures Stays(t, i, j)
  {
    hide Stays;
    BlanksStay(t, i, j - 1);
    MarkStays(t, j - 1);
    StaysOn(t, i, j - 1, j);
  }

  lemma {:induction false} ItemsStay(t: string, i: nat, j: nat, items: seq<Json>)
    requires CString(t) && items != [] && ItemsDerive(t, i, j, items)
    ensures Stays(t, i, j)
    decreases items
  {
    hide Stays, Derives, ItemsDerive;
    var a, b, c := ItemsOf(t, i, j, items);
    BlanksStay(t, i, a);
    ValueStays(t, a, b, items[0]);
    BlanksStay(t, b, c);
    MarkStays(t, c);
    StaysOn(t, i, a, b);
    StaysOn(t, i, b, c);
    StaysOn(t, i, c, c + 1);
    if |items| > 1 {
      ItemsStay(t, c + 1, j, items[1..]);
      StaysOn(t, i, c + 1, j);
    }
  }

  lemma {:induction false} MemberStays(t: string, i: nat, j: nat, m: Member)
    requires CString(t) && MemberDerives(t, i, j, m) && j < |t|
    ensures Stays(t, i, j)
    decreases m
  {
    hide Stays, Derives, Literal;
    var b: nat, d: nat, e: nat :|
      && Literal(t, i, b, m.name) && Blanks(t, b, d) && CharAt(t, d) == ':'
      && Blanks(t, d + 1, e) && Derives(t, e, j, m.value);
    InnerStays(t, i, b, m.name);
    BlanksStay(t, b, d);
    MarkStays(t, d);
    BlanksStay(t, d + 1, e);
    ValueStays(t, e, j, m.value);
    StaysOn(t, i, b, d);
    StaysOn(t, i, d, d + 1);
    StaysOn(t, i, d + 1, e);
    StaysOn(t, i, e, j);
  }

  lemma {:induction false} MembersStay(t: string, i: nat, j: nat, members: seq<Member>)
    requires CString(t) && members != [] && MembersDerive(t, i, j, members)
    ensures Stays(t, i, j)
    decreases members
  {
    hide Stays, MemberDerives, MembersDerive;
    var a, b, c := MembersOf(t, i, j, members);
    BlanksStay(t, i, a);
    MemberStays(t, a, b, members[0]);
    BlanksStay(t, b, c);
    MarkStays(t, c);
    StaysOn(t, i, a, b);
    StaysOn(t, i, b, c);
    StaysOn(t, i, c, c + 1);
    if |members| > 1 {
      MembersStay(t, c + 1, j, members[1..]);
      StaysOn(t, i, c + 1, j);
    }
  }

  /** A literal as the whole text has its closing quote. */
  predicate Closed(t: string, v: Json) {
    v.String? ==> var i := Skip(t, 0); i < |t| && Sizing(t, i + 1).At? && Sizing(t, i + 1).end < |t|
  }

  lemma {:induction false} WholeStays(t: string, a: nat, b: nat, v: Json)
    requires CString(t) && a == Skip(t, 0) && Derives(t, a, b, v) && Closed(t, v)
    ensures Stays(t, a, b)
  {
    hide Stays, ItemsDerive, MembersDerive, Numeral, Truncate, Body, Sizing;
    match v {
      case String(s) =>
        SizingFound(t, a + 1);
        ClosedEnd(t, a, b, s);
        LiteralStays(t, a, b, s);
      case _ => ValueStays(t, a, b, v);
    }
  }

  lemma {:induction false} SizingFound(t: string, p: nat)
    requires CString(t) && p <= |t| && Sizing(t, p).At? && Sizing(t, p).end < |t|
    ensures t[Sizing(t, p).end] == '\"'
  {
  }

  /** Without its closing quote the literal makes minifying run past the end. */
  lemma {:induction false} UnclosedRunsOver(t: string, a: nat, b: nat, v: Json, u: string)
    requires CString(t) && a == Skip(t, 0) && Blanks(t, 0, a) && Derives(t, a, b, v) && Leaves(t, 0, u, 0)
    ensures Closed(t, v)
  {
    hide MinifyFrom, ItemsDerive, MembersDerive, Numeral, Truncate, Body, Sizing;
    var k := BlanksLeft(t, 0, a, u, 0);
    if v.String? {
      LiteralLeft(t, a, u, k);
    }
  }

  /**
   Minifying an accepted text leaves a text that is accepted and means the same. It
   does so unless the text is a literal without its closing quote: then it runs past
   the end.
   */
  lemma {:induction false} MinifyKeepsMeaning(t: string)
    requires CString(t) && Parsing(t, true).Ok?
    ensures MinifyFrom(t, 0).Left? <==> Closed(t, Parsing(t, true).value)
    ensures MinifyFrom(t, 0).Left? ==>
              var u := MinifyFrom(t, 0).s; Parsing(u, true) == Ok(Parsing(t, true).value, |u|)
  {
    hide MinifyFrom, Derives, Parsing, Stays, Closed;
    var v := Parsing(t, true).value;
    ParsingIff(t, v, Parsing(t, true).next);
    var a: nat, b: nat :| Blanks(t, 0, a) && Derives(t, a, b, v) && Blanks(t, b, |t|);
    Starts(t, a, b, v);
    BlanksSkip(t, 0, a);
    if Closed(t, v) {
      WholeStays(t, a, b, v);
      BlanksStay(t, 0, a);
      BlanksStay(t, b, |t|);
      StaysOn(t, 0, a, b);
      StaysOn(t, 0, b, |t|);
      StaysToEnd(t);
    }
    if MinifyFrom(t, 0).Left? {
      var u := MinifyFrom(t, 0).s;
      assert u[0..] == u;
      UnclosedRunsOver(t, a, b, v, u);
      var a' := BlanksLeft(t, 0, a, u, 0);
      var b' := ValueLeft(t, a, b, |t|, v, u, a');
      var c' := BlanksLeft(t, b, |t|, u, b');
      NothingLeft(t, u, c');
      LeftText(t, 0, u, 0);
      ParsingIff(u, v, |u|);
    }
  }

  lemma {:induction false} StaysToEnd(t: string)
    requires Stays(t, 0, |t|)
    ensures MinifyFrom(t, 0).Left?
  {
  }
}
