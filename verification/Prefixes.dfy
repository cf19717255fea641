/** What the parser makes of a text depends on the text only up to where it stops. */
module Prefixes {
  import opened CText
  import opened Numbers
  import opened Strings
  import opened Json
  import opened Parser
  import opened Grammar
  import opened MinifyLaws

  /** The first n characters are the same. */
  predicate Agree(t: string, u: string, n: nat) {
    n <= |t| && n <= |u| && forall k | 0 <= k < n :: t[k] == u[k]
  }

  lemma {:induction false} AgreeSame(t: string, u: string, n: nat, i: nat, m: nat)
    requires Agree(t, u, n) && i + m <= n
    ensures Same(t, i, u, i, m)
  {
  }

  /** What may stand behind a value. */
  predicate Stop(c: char) {
    c == ',' || c == ']' || c == '}' || c == ':' || c == '\0'
  }

  /** What follows the first n characters continues neither text, or both in the same way. */
  predicate Follows(t: string, u: string, n: nat) {
    || Stop(CharAt(u, n))
    || (CharAt(u, n) == CharAt(t, n) && (CharAt(t, n) == '.' ==> CharAt(u, n + 1) == CharAt(t, n + 1)))
  }

  lemma {:induction false} FollowsWithin(t: string, u: string, n: nat, m: nat)
    requires Agree(t, u, m) && n <= m
    requires n == m ==> Stop(CharAt(u, n))
    requires n + 1 == m ==> CharAt(t, n) != '.'
    ensures Agree(t, u, n) && Follows(t, u, n)
  {
  }

  // Numbers

  lemma {:induction false} DigitsKept(t: string, u: string, i: nat, m: nat, n: nat)
    requires i <= |t| && ReadDigits(t, i, m).next <= n && Agree(t, u, n) && Follows(t, u, n)
    ensures i <= |u| && ReadDigits(u, i, m) == ReadDigits(t, i, m)
    decreases |t| - i
  {
    if i < n && IsDigit(t[i]) {
      DigitsKept(t, u, i + 1, 10 * m + DigitValue(t[i]), n);
    }
  }

  lemma {:induction false} WholeKept(t: string, u: string, i: nat, n: nat)
    requires i <= |t| && ScanWhole(t, i).next <= n && Agree(t, u, n) && Follows(t, u, n)
    ensures i <= |u| && ScanWhole(u, i) == ScanWhole(t, i)
  {
    hide ReadDigits;
    var a := if CharAt(t, i) == '0' then i + 1 else i;
    if '1' <= CharAt(t, a) <= '9' {
      DigitsKept(t, u, a, 0, n);
    }
  }

  lemma {:induction false} FractionKept(t: string, u: string, i: nat, m: nat, n: nat)
    requires i <= |t| && ScanFraction(t, i, m).next <= n && Agree(t, u, n) && Follows(t, u, n)
    ensures i <= |u| && ScanFraction(u, i, m) == ScanFraction(t, i, m)
  {
    hide ReadDigits;
    if CharAt(t, i) == '.' && IsDigit(CharAt(t, i + 1)) {
      DigitsKept(t, u, i + 1, m, n);
    }
  }

  lemma {:induction false} ExponentKept(t: string, u: string, i: nat, n: nat)
    requires i <= |t| && ScanExponent(t, i).next <= n && Agree(t, u, n) && Follows(t, u, n)
    ensures i <= |u| && ScanExponent(u, i) == ScanExponent(t, i)
  {
    hide ReadDigits;
    if CharAt(t, i) == 'e' || CharAt(t, i) == 'E' {
      DigitsKept(t, u, if CharAt(t, i + 1) == '-' || CharAt(t, i + 1) == '+' then i + 2 else i + 1, 0, n);
    }
  }

  lemma {:induction false} NumberKept(t: string, u: string, i: nat, n: nat)
    requires i < n && i <= |t| && ScanNumber(t, i).next == n && Agree(t, u, n) && Follows(t, u, n)
    ensures i <= |u| && ScanNumber(u, i) == ScanNumber(t, i)
  {
    hide ScanWhole, ScanFraction, ScanExponent, Assemble;
    var p := if CharAt(t, i) == '-' then i + 1 else i;
    var whole := ScanWhole(t, p);
    var m := ScanFraction(t, whole.next, whole.n);
    WholeKept(t, u, p, n);
    FractionKept(t, u, whole.next, whole.n, n);
    ExponentKept(t, u, m.next, n);
  }

  // Words, blanks, and literals

  lemma {:induction false} WordNear(t: string, u: string, i: nat, w: string)
    requires CString(w) && forall k | i <= k < i + |w| :: CharAt(u, k) == CharAt(t, k)
    ensures i <= |t| && i <= |u| ==> Occurs(t, i, w) == Occurs(u, i, w)
    decreases |w|
  {
    if w != "" {
      assert w[0] != '\0' && CharAt(u, i) == CharAt(t, i);
      WordNear(t, u, i + 1, w[1..]);
    }
  }

  lemma {:induction false} WordKept(t: string, u: string, i: nat, w: string, n: nat)
    requires CString(w) && i + |w| <= n && Agree(t, u, n)
    ensures Occurs(t, i, w) == Occurs(u, i, w)
  {
    WordNear(t, u, i, w);
  }

  lemma {:induction false} SkipKept(t: string, u: string, a: nat, n: nat)
    requires a <= |t| && Skip(t, a) <= n && Agree(t, u, n)
    requires Skip(t, a) == n ==> CharAt(u, n) > ' ' || CharAt(u, n) == '\0'
    ensures a <= |u| && Skip(u, a) == Skip(t, a)
    decreases |t| - a
  {
    if a < Skip(t, a) {
      SkipKept(t, u, a + 1, n);
    }
  }

  lemma {:induction false} NoSkip(t: string, a: nat)
    requires a <= |t| && (CharAt(t, a) > ' ' || CharAt(t, a) == '\0')
    ensures Skip(t, a) == a
  {
  }

  /** The literal has its closing quote. */
  predicate Quoted(t: string, i: nat) {
    i < |t| && Sizing(t, i + 1).At? && Sizing(t, i + 1).end < |t|
  }

  lemma {:induction false} SameText(t: string, u: string)
    requires Agree(t, u, |t|) && CString(u) && CharAt(u, |t|) == '\0'
    ensures u == t
  {
  }

  lemma {:induction false} StringKept(t: string, u: string, i: nat, s: string, n: nat)
    requires CString(t) && CString(u) && i <= |t| && StringAt(t, i) == Ok(s, n) && Agree(t, u, n)
    requires Quoted(t, i) || CharAt(u, n) == CharAt(t, n)
    ensures StringAt(u, i) == Ok(s, n)
  {
    hide Decode, Body, Sizing;
    StringIff(t, i, n, s);
    if Quoted(t, i) {
      LiteralKept(t, u, i, s, n);
      StringIff(u, i, n, s);
    } else {
      UnquotedEnd(t, i, n, s);
      SameText(t, u);
    }
  }

  lemma {:induction false} LiteralKept(t: string, u: string, i: nat, s: string, n: nat)
    requires CString(t) && Literal(t, i, n, s) && Quoted(t, i) && Agree(t, u, n)
    ensures Literal(u, i, n, s)
  {
    hide Body, Sizing;
    SizingStop(t, i + 1);
    ClosedEnd(t, i, n, s);
    AgreeSame(t, u, n, i + 1, n - i - 2);
    BodyMoves(t, i + 1, n - 1, s, u, i + 1);
  }

  lemma {:induction false} SizingStop(t: string, p: nat)
    requires CString(t) && p <= |t| && Sizing(t, p).At? && Sizing(t, p).end < |t|
    ensures t[Sizing(t, p).end] == '\"'
  {
  }

  /** Without its closing quote a literal goes up to the terminator. */
  lemma {:induction false} UnquotedEnd(t: string, i: nat, n: nat, s: string)
    requires CString(t) && Literal(t, i, n, s) && !Quoted(t, i)
    ensures n == |t| && i < n && Body(t, i + 1, n, s)
  {
    hide Body, Sizing, Decode;
    var e := if i + 1 < n && t[n - 1] == '\"' && Body(t, i + 1, n - 1, s) then n - 1 else n;
    BodyDecodes(t, i + 1, e, s);
  }

  /** A literal is closed, if it is not, and stays accepted in front of what follows. */
  lemma {:induction false} StringCloses(t: string, i: nat, s: string, n: nat, y: string) returns (e: string)
    requires CString(t) && CString(y) && i <= |t| && StringAt(t, i) == Ok(s, n) && y != "" && y[0] > ' '
    ensures e in ["", "\""]
    ensures Skip(t, n) <= |t| && var j := Skip(t, n); var u := t[..j] + e + y;
            n <= j && StringAt(u, i) == Ok(s, n + |e|) && n + |e| <= |u| && Skip(u, n + |e|) == j + |e|
  {
    hide Decode, Body, Sizing;
    StringIff(t, i, n, s);
    var j := Skip(t, n);
    if Quoted(t, i) {
      e := "";
      var u := t[..j] + e + y;
      StringKept(t, u, i, s, n);
      SkipKept(t, u, n, j);
    } else {
      e := "\"";
      UnquotedEnd(t, i, n, s);
      var u := t[..j] + e + y;
      AgreeSame(t, u, n, i + 1, n - i - 1);
      BodyMoves(t, i + 1, n, s, u, i + 1);
      StringIff(u, i, n + 1, s);
      NoSkip(u, n + 1);
    }
  }

  // Accepted parts

  lemma {:induction false} QuoteOpens(t: string, i: nat)
    requires i <= |t| && CharAt(t, i) == '\"'
    ensures ValueAt(t, i) == match StringAt(t, i)
                             case Ok(s, next) => Ok(String(s), next)
                             case Fail(at) => Fail(at)
                             case Overrun => Overrun
  {
    hide StringAt, ScanNumber, Truncate, Skip, ItemsAt, MembersAt;
  }

  lemma {:induction false} NumberOpens(t: string, i: nat)
    requires i <= |t| && (CharAt(t, i) == '-' || IsDigit(CharAt(t, i)))
    ensures ValueAt(t, i) ==
            Ok(Json.Number(Truncate(ScanNumber(t, i).value), ScanNumber(t, i).value), ScanNumber(t, i).next)
  {
    hide StringAt, ScanNumber, Truncate, Skip, ItemsAt, MembersAt;
  }

  predicate Opens(c: char) {
    c == '\"' || c == '-' || IsDigit(c) || c == '[' || c == '{'
  }

  /** What starts like no other value is a word or an error. */
  lemma {:induction false} WordOpens(t: string, i: nat)
    requires i <= |t| && !Opens(CharAt(t, i))
    ensures ValueAt(t, i) == if Occurs(t, i, "null") then Ok(Null, i + 4)
                             else if Occurs(t, i, "false") then Ok(False, i + 5)
                             else if Occurs(t, i, "true") then Ok(True, i + 4)
                             else Fail(i)
  {
    hide StringAt, ScanNumber, Truncate, Skip, ItemsAt, MembersAt, Occurs;
  }

  /** A value stays accepted where the same text stands and nothing continues it. */
  lemma {:induction false} ValueKept(t: string, u: string, i: nat, v: Json, n: nat)
    requires CString(t) && CString(u) && i <= |t| && ValueAt(t, i) == Ok(v, n) && Agree(t, u, n) && Follows(t, u, n)
    requires v.String? ==> Quoted(t, i) || CharAt(u, n) == CharAt(t, n)
    ensures ValueAt(u, i) == Ok(v, n)
    decreases |t| - i, 0
  {
    hide ValueAt, StringAt, ScanNumber, Truncate, Sizing, ItemsAt, MembersAt, Follows, Occurs, Skip;
    var c := CharAt(t, i);
    assert CharAt(u, i) == c;
    if c == '\"' {
      QuoteOpens(t, i);
      StringKept(t, u, i, v.valuestring, n);
      QuoteOpens(u, i);
    } else if c == '-' || IsDigit(c) {
      NumberOpens(t, i);
      NumberKept(t, u, i, n);
      NumberOpens(u, i);
    } else if c == '[' {
      ArrayKept(t, u, i, v, n);
    } else if c == '{' {
      ObjectKept(t, u, i, v, n);
    } else {
      WordOpens(t, i);
      WordsKept(t, u, i, n);
      WordOpens(u, i);
    }
  }

  lemma {:induction false} WordsKept(t: string, u: string, i: nat, n: nat)
    requires Agree(t, u, n) && CString(t) && CString(u)
    ensures Occurs(t, i, "null") && i + 4 == n ==> Occurs(u, i, "null")
    ensures Occurs(t, i, "false") && i + 5 == n ==> Occurs(u, i, "false") && !Occurs(u, i, "null")
    ensures Occurs(t, i, "true") && i + 4 == n ==>
              Occurs(u, i, "true") && !Occurs(u, i, "null") && !Occurs(u, i, "false")
  {
    if i + 4 == n {
      WordKept(t, u, i, "null", n);
      WordKept(t, u, i, "true", n);
    }
    if i + 5 == n {
      WordKept(t, u, i, "false", n);
    }
  }

  lemma {:induction false} ArrayKept(t: string, u: string, i: nat, v: Json, n: nat)
    requires CString(t) && CString(u) && i < |t| && t[i] == '[' && ValueAt(t, i) == Ok(v, n) && Agree(t, u, n)
    ensures ValueAt(u, i) == Ok(v, n)
    decreases |t| - i, 0, 0
  {
    hide ValueAt, ItemsAt, Skip;
    var j := Skip(t, i + 1);
    ArrayOpens(t, i);
    SkipKept(t, u, i + 1, n);
    ArrayOpens(u, i);
    if CharAt(t, j) != ']' {
      ItemsKept(t, u, j, [], v, n);
    }
  }

  lemma {:induction false} ObjectKept(t: string, u: string, i: nat, v: Json, n: nat)
    requires CString(t) && CString(u) && i < |t| && t[i] == '{' && ValueAt(t, i) == Ok(v, n) && Agree(t, u, n)
    ensures ValueAt(u, i) == Ok(v, n)
    decreases |t| - i, 0, 0
  {
    hide ValueAt, MembersAt, Skip;
    var j := Skip(t, i + 1);
    ObjectOpens(t, i);
    SkipKept(t, u, i + 1, n);
    ObjectOpens(u, i);
    if CharAt(t, j) != '}' {
      MembersKept(t, u, j, [], v, n);
    }
  }

  /** A separator, after blanks, is found in both texts. */
  lemma {:induction false} MarkKept(t: string, u: string, m: nat, n: nat)
    requires m <= |t| && Agree(t, u, n) && Skip(t, m) < n && Stop(CharAt(t, Skip(t, m)))
    ensures Agree(t, u, m) && Follows(t, u, m) && CharAt(u, m) == CharAt(t, m)
    ensures Skip(u, m) == Skip(t, m) && CharAt(u, Skip(t, m)) == CharAt(t, Skip(t, m))
  {
    SkipKept(t, u, m, n);
  }

  lemma {:induction false} ItemsKept(t: string, u: string, k: nat, acc: seq<Json>, v: Json, n: nat)
    requires CString(t) && CString(u) && k <= |t| && ItemsAt(t, k, acc) == Ok(v, n) && Agree(t, u, n)
    ensures ItemsAt(u, k, acc) == Ok(v, n)
    decreases |t| - k, 1
  {
    hide ValueAt, ItemsAt, Skip, Follows;
    ItemsStep(t, k, acc);
    var p := Skip(t, k);
    var m := ValueAt(t, p).next;
    var j := Skip(t, m);
    SkipKept(t, u, k, n);
    MarkKept(t, u, m, n);
    ValueKept(t, u, p, ValueAt(t, p).value, m);
    ItemsStep(u, k, acc);
    if CharAt(t, j) == ',' {
      ItemsKept(t, u, j + 1, acc + [ValueAt(t, p).value], v, n);
    }
  }

  /** Where the name of a member ends. */
  function NameEnd(t: string, k: nat): (n: nat)
    requires k <= |t| && StringAt(t, Skip(t, k)).Ok?
    ensures n <= |t|
  {
    StringAt(t, Skip(t, k)).next
  }

  /** A name and a colon. */
  predicate HasName(t: string, k: nat) {
    k <= |t| && StringAt(t, Skip(t, k)).Ok? && CharAt(t, Skip(t, NameEnd(t, k))) == ':'
  }

  function ValueStart(t: string, k: nat): (p: nat)
    requires HasName(t, k)
    ensures k < p <= |t|
  {
    Skip(t, Skip(t, NameEnd(t, k)) + 1)
  }

  lemma {:induction false} MemberStep(t: string, k: nat)
    requires HasName(t, k)
    ensures MemberAt(t, k) == match ValueAt(t, ValueStart(t, k))
                              case Fail(at) => Fail(at)
                              case Overrun => Overrun
                              case Ok(v, n) => Ok(Member(StringAt(t, Skip(t, k)).value, v), n)
  {
    hide ValueAt, StringAt, Skip;
  }

  lemma {:induction false} MemberFails(t: string, k: nat)
    requires k <= |t| && !HasName(t, k)
    ensures var r := StringAt(t, Skip(t, k));
            MemberAt(t, k) == if r.Ok? then Fail(Skip(t, r.next)) else if r.Fail? then Fail(r.at) else Overrun
  {
    hide ValueAt, StringAt, Skip;
  }

  lemma {:induction false} MemberKept(t: string, u: string, k: nat, x: Member, n: nat)
    requires CString(t) && CString(u) && k <= |t| && MemberAt(t, k) == Ok(x, n) && Agree(t, u, n) && Follows(t, u, n)
    requires CharAt(u, n) == CharAt(t, n)
    ensures MemberAt(u, k) == Ok(x, n)
    decreases |t| - k, 1
  {
    hide ValueAt, StringAt, MemberAt, Skip, Follows, HasName, ValueStart;
    if !HasName(t, k) {
      MemberFails(t, k);
      assert false;
    }
    MemberStep(t, k);
    NameKept(t, u, k, n);
    ValueKept(t, u, ValueStart(t, k), x.value, n);
    MemberStep(u, k);
  }

  lemma {:induction false} NameKept(t: string, u: string, k: nat, n: nat)
    requires CString(t) && CString(u) && HasName(t, k) && ValueStart(t, k) <= n && Agree(t, u, n)
    requires ValueStart(t, k) == n ==> CharAt(u, n) > ' ' || CharAt(u, n) == '\0'
    ensures HasName(u, k) && ValueStart(u, k) == ValueStart(t, k) && Skip(u, k) == Skip(t, k)
    ensures StringAt(u, Skip(u, k)) == StringAt(t, Skip(t, k))
  {
    hide ValueAt, StringAt, MemberAt, Skip, Follows;
    var p, m := Skip(t, k), NameEnd(t, k);
    SkipKept(t, u, k, n);
    MarkKept(t, u, m, n);
    StringKept(t, u, p, StringAt(t, p).value, m);
    SkipKept(t, u, Skip(t, m) + 1, n);
  }

  lemma {:induction false} MembersKept(t: string, u: string, k: nat, acc: seq<Member>, v: Json, n: nat)
    requires CString(t) && CString(u) && k <= |t| && MembersAt(t, k, acc) == Ok(v, n) && Agree(t, u, n)
    ensures MembersAt(u, k, acc) == Ok(v, n)
    decreases |t| - k, 2
  {
    hide MemberAt, MembersAt, Skip, Follows;
    MembersStep(t, k, acc);
    var m := MemberAt(t, k).next;
    var j := Skip(t, m);
    MarkKept(t, u, m, n);
    MemberKept(t, u, k, MemberAt(t, k).value, m);
    MembersStep(u, k, acc);
    if CharAt(t, j) == ',' {
      MembersKept(t, u, j + 1, acc + [MemberAt(t, k).value], v, n);
    }
  }
}
