/**
 What a JSON Pointer text leads to, token by token, for any tokens: the node with
 the canonical form found there, or none (section 4 of RFC 6901).
 */
module Tokens {
  import opened CText
  import opened CaseOrder
  import opened Numbers
  import opened Numerals
  import opened Json
  import opened Pointers
  import opened Canon
  import opened Edits
  import opened Resolution

  /** A token as it stands in a pointer. */
  predicate Plain(tok: string) {
    CString(tok) && forall i | 0 <= i < |tok| :: tok[i] != '/'
  }

  predicate AllPlain(toks: seq<string>) {
    forall i | 0 <= i < |toks| :: Plain(toks[i])
  }

  /** The pointer that consists of these tokens. */
  function Joined(toks: seq<string>): (t: string) {
    if toks == [] then "" else "/" + toks[0] + Joined(toks[1..])
  }

  /** The name that a token stands for; a tilde must be followed by 0 or 1. */
  function Named(tok: string): (name: Option<string>)
    decreases |tok|
  {
    if tok == "" then Some("")
    else if tok[0] != '~' then Onto([tok[0]], Named(tok[1..]))
    else if |tok| == 1 || (tok[1] != '0' && tok[1] != '1') then None
    else Onto(if tok[1] == '0' then "~" else "/", Named(tok[2..]))
  }

  predicate Numeric(tok: string) {
    forall i | 0 <= i < |tok| :: IsDigit(tok[i])
  }

  /** The child that a token selects: by decimal index in an array, by name, ignoring case, in an object. */
  function StepOf(c: Canon, tok: string): (s: Option<Step>)
    ensures s.Some? ==> Has(c, s.value)
  {
    match c
    case CArray(items) => if Numeric(tok) && NatOf(tok) < |items| then Some(Index(NatOf(tok))) else None
    case CObject(members) =>
      (match Named(tok)
       case None => None
       case Some(name) => if Fold(name) in members then Some(Key(name)) else None)
    case _ => None
  }

  /** The path that the tokens select, if there is one. */
  function PathOf(c: Canon, toks: seq<string>): (p: Option<Path>)
    ensures p.Some? ==> HasPath(c, p.value)
    decreases |toks|
  {
    if toks == [] then Some([])
    else
      match StepOf(c, toks[0])
      case None => None
      case Some(s) =>
        match PathOf(Get(c, s), toks[1..])
        case None => None
        case Some(rest) =>
          assert ([s] + rest)[1..] == rest;
          Some([s] + rest)
  }

  // Names

  lemma {:induction false} NamedEncodes(tok: string)
    requires Plain(tok) && Named(tok).Some?
    ensures Encode(Named(tok).value) == tok && CString(Named(tok).value)
    decreases |tok|
  {
    if tok != "" {
      var n := if tok[0] == '~' then 2 else 1;
      NamedEncodes(tok[n..]);
      assert tok == tok[..n] + tok[n..];
      var name := Named(tok).value;
      assert name[1..] == Named(tok[n..]).value;
      assert Escaped(name[0]) == tok[..n];
    }
  }

  /** A token with a tilde out of place matches no name. */
  lemma {:induction false} NoNameMatches(a: string, k: nat, t: string, i: nat, tok: string)
    requires CString(a) && k <= |a| && Plain(tok) && Named(tok).None?
    requires Occurs(t, i, tok) && (CharAt(t, i + |tok|) == '\0' || CharAt(t, i + |tok|) == '/')
    ensures !NameMatches(a, k, t, i)
    decreases |tok|
  {
    OccursChar(t, i, tok, 0);
    if tok[0] != '~' {
      if k < |a| {
        NoNameMatches(a, k + 1, t, i + 1, tok[1..]);
      }
    } else if |tok| > 1 && k < |a| && (tok[1] == '0' || tok[1] == '1') {
      assert tok[1..][1..] == tok[2..];
      NoNameMatches(a, k + 1, t, i + 2, tok[2..]);
    } else if |tok| > 1 {
      OccursChar(t, i, tok, 1);
    }
  }

  /** The first member that matches a token is the one with its name. */
  lemma {:induction false} FirstMatchIs(members: seq<Member>, t: string, i: nat, tok: string)
    requires (forall j | 0 <= j < |members| :: CString(members[j].name)) && Plain(tok)
    requires Occurs(t, i, tok) && (CharAt(t, i + |tok|) == '\0' || CharAt(t, i + |tok|) == '/')
    ensures var k := FirstMatch(members, t, i);
            && (k < |members| ==> Named(tok).Some? && Fold(members[k].name) == Fold(Named(tok).value))
            && (k == |members| && Named(tok).Some? ==> Fold(Named(tok).value) !in CanonMembers(members))
    decreases |members|
  {
    hide NameMatches, Fold, Named, Occurs;
    if members != [] {
      var a := members[0].name;
      assert a[0..] == a;
      if Named(tok).Some? {
        NamedEncodes(tok);
        MatchesEncoded(a, 0, Named(tok).value, t, i);
      } else {
        NoNameMatches(a, 0, t, i, tok);
      }
      FirstMatchIs(members[1..], t, i, tok);
    }
  }

  // One step

  lemma {:induction false} IndexReads(t: string, i: nat, tok: string)
    requires Plain(tok) && Occurs(t, i, tok) && (CharAt(t, i + |tok|) == '\0' || CharAt(t, i + |tok|) == '/')
    ensures i + |tok| <= |t|
    ensures var d := ReadDigits(t, i, 0);
            if Numeric(tok) then d == Scanned(NatOf(tok), i + |tok|)
            else CharAt(t, d.next) != '\0' && CharAt(t, d.next) != '/'
  {
    hide NatOf;
    OccursSlice(t, i, tok);
    var e := i + |tok|;
    ReadRun(t, i, 0);
    var d := ReadDigits(t, i, 0);
    assert forall k | i <= k < e :: t[k] == tok[k - i];
    if Numeric(tok) {
      RunUnique(t, i, d.next, e);
    } else {
      var k :| 0 <= k < |tok| && !IsDigit(tok[k]);
      assert !IsDigit(t[i + k]);
      assert d.next <= i + k;
    }
  }

  /** The first token decides which child the rest of the pointer is evaluated in. */
  lemma {:induction false} StepEvaluates(v: Json, t: string, i: nat, tok: string)
    requires Tidy(v) && Plain(tok) && CharAt(t, i) == '/' && Occurs(t, i + 1, tok)
    requires CharAt(t, i + 1 + |tok|) == '\0' || CharAt(t, i + 1 + |tok|) == '/'
    ensures i + 1 + |tok| <= |t|
    ensures match StepOf(CanonOf(v), tok)
            case None => Evaluate(v, t, i) == None
            case Some(s) => exists k :: 0 <= k < ChildCount(v) && Selects(v, k, s)
                              && Evaluate(v, t, i) == Prepend(k, Evaluate(ChildAt(v, k), t, i + 1 + |tok|))
  {
    hide Evaluate, CanonItems, CanonMembers, NatOf, Named, Tidy, Occurs;
    OccursSlice(t, i + 1, tok);
    match v {
      case Array(items) => ArrayEvaluates(v, t, i, tok);
      case Object(members) => ObjectEvaluates(v, t, i, tok);
      case _ => NoChild(v, t, i);
    }
  }

  lemma {:induction false} NoChild(v: Json, t: string, i: nat)
    requires !v.Array? && !v.Object? && CharAt(t, i) == '/' && i <= |t|
    ensures Evaluate(v, t, i) == None && !CanonOf(v).CArray? && !CanonOf(v).CObject?
  {
  }

  /** Child k is the one that the step names. */
  predicate Selects(v: Json, k: nat, s: Step)
    requires k < ChildCount(v)
  {
    if v.Array? then s == Index(k) else v.Object? && s.Key? && Fold(s.name) == Fold(v.members[k].name)
  }

  lemma {:induction false} ArrayEvaluates(v: Json, t: string, i: nat, tok: string)
    requires Tidy(v) && v.Array? && Plain(tok) && CharAt(t, i) == '/' && Occurs(t, i + 1, tok) && i + 1 + |tok| <= |t|
    requires CharAt(t, i + 1 + |tok|) == '\0' || CharAt(t, i + 1 + |tok|) == '/'
    ensures match StepOf(CanonOf(v), tok)
            case None => Evaluate(v, t, i) == None
            case Some(s) => exists k :: 0 <= k < ChildCount(v) && Selects(v, k, s)
                              && Evaluate(v, t, i) == Prepend(k, Evaluate(ChildAt(v, k), t, i + 1 + |tok|))
  {
    hide NatOf, Occurs;
    IndexReads(t, i + 1, tok);
    if Numeric(tok) && NatOf(tok) < |v.items| {
      assert Selects(v, NatOf(tok), Index(NatOf(tok)));
    }
  }

  lemma {:induction false} ObjectEvaluates(v: Json, t: string, i: nat, tok: string)
    requires Tidy(v) && v.Object? && Plain(tok) && CharAt(t, i) == '/' && Occurs(t, i + 1, tok) && i + 1 + |tok| <= |t|
    requires CharAt(t, i + 1 + |tok|) == '\0' || CharAt(t, i + 1 + |tok|) == '/'
    ensures match StepOf(CanonOf(v), tok)
            case None => Evaluate(v, t, i) == None
            case Some(s) => exists k :: 0 <= k < ChildCount(v) && Selects(v, k, s)
                              && Evaluate(v, t, i) == Prepend(k, Evaluate(ChildAt(v, k), t, i + 1 + |tok|))
  {
    hide Named, Occurs, Fold, CanonMembers;
    FirstMatchIs(v.members, t, i + 1, tok);
    TokenEndOf(t, i + 1, tok);
    var k := FirstMatch(v.members, t, i + 1);
    if k < |v.members| {
      CanonLookupTidy(v, k);
      assert Selects(v, k, Key(Named(tok).value));
    }
  }

  lemma {:induction false} CanonLookupTidy(v: Json, k: nat)
    requires Tidy(v) && v.Object? && k < |v.members|
    ensures Fold(v.members[k].name) in CanonMembers(v.members)
  {
    CanonLookup(v.members, k);
  }

  /**
   Evaluating a pointer leads to the node that the tokens select, and exchanging
   that node exchanges it in the canonical form; it leads nowhere exactly if the
   tokens select nothing.
   */
  lemma {:induction false} Evaluates(v: Json, toks: seq<string>, t: string, i: nat, n: Json) returns (a: Address)
    requires Tidy(v) && AllPlain(toks) && Occurs(t, i, Joined(toks)) && i + |Joined(toks)| == |t|
    ensures i <= |t| && (Evaluate(v, t, i).Some? <==> PathOf(CanonOf(v), toks).Some?)
    ensures PathOf(CanonOf(v), toks).Some? ==>
              var p := PathOf(CanonOf(v), toks).value;
              && Evaluate(v, t, i) == Some(a) && IsNode(v, a)
              && CanonOf(NodeAt(v, a)) == GetPath(CanonOf(v), p) && Tidy(NodeAt(v, a))
              && CanonOf(UpdateAt(v, a, n)) == SetPath(CanonOf(v), p, CanonOf(n))
              && (Tidy(n) ==> Tidy(UpdateAt(v, a, n)))
    decreases |toks|
  {
    a := [];
    if toks != [] {
      a := FirstEvaluates(v, toks, t, i, n);
    }
  }

  lemma {:induction false} FirstEvaluates(v: Json, toks: seq<string>, t: string, i: nat, n: Json) returns (a: Address)
    requires Tidy(v) && AllPlain(toks) && Occurs(t, i, Joined(toks)) && i + |Joined(toks)| == |t| && toks != []
    ensures i <= |t| && (Evaluate(v, t, i).Some? <==> PathOf(CanonOf(v), toks).Some?)
    ensures PathOf(CanonOf(v), toks).Some? ==>
              var p := PathOf(CanonOf(v), toks).value;
              && Evaluate(v, t, i) == Some(a) && IsNode(v, a)
              && CanonOf(NodeAt(v, a)) == GetPath(CanonOf(v), p) && Tidy(NodeAt(v, a))
              && CanonOf(UpdateAt(v, a, n)) == SetPath(CanonOf(v), p, CanonOf(n))
              && (Tidy(n) ==> Tidy(UpdateAt(v, a, n)))
    decreases |toks|, 0
  {
    hide Evaluate, Tidy, CanonOf, StepOf, Occurs, Has, Get, Set, Joined;
    var tok, rest := toks[0], Joined(toks[1..]);
    JoinedParts(toks, t, i);
    StepEvaluates(v, t, i, tok);
    a := [];
    if StepOf(CanonOf(v), tok).Some? {
      var s, e := StepOf(CanonOf(v), tok).value, i + 1 + |tok|;
      var k: nat :| k < ChildCount(v) && Selects(v, k, s)
        && Evaluate(v, t, i) == Prepend(k, Evaluate(ChildAt(v, k), t, e));
      SelectsCanon(v, k, s, n);
      var c := ChildAt(v, k);
      var b := Evaluates(c, toks[1..], t, e, n);
      if PathOf(CanonOf(c), toks[1..]).Some? {
        a := [k] + b;
        assert a[1..] == b && ([s] + PathOf(CanonOf(c), toks[1..]).value)[1..] == PathOf(CanonOf(c), toks[1..]).value;
        SelectsCanon(v, k, s, UpdateAt(c, b, n));
      }
    }
  }

  lemma {:induction false} SelectsCanon(v: Json, k: nat, s: Step, n: Json)
    requires Tidy(v) && k < ChildCount(v) && Selects(v, k, s)
    ensures Has(CanonOf(v), s) && Get(CanonOf(v), s) == CanonOf(ChildAt(v, k)) && Tidy(ChildAt(v, k))
    ensures CanonOf(PutChild(v, k, n)) == Set(CanonOf(v), s, CanonOf(n))
    ensures Tidy(n) ==> Tidy(PutChild(v, k, n))
  {
    PutChildCanon(v, k, s, n);
  }

  lemma {:induction false} JoinedParts(toks: seq<string>, t: string, i: nat)
    requires toks != [] && Occurs(t, i, Joined(toks)) && i + |Joined(toks)| == |t|
    ensures CharAt(t, i) == '/' && Occurs(t, i + 1, toks[0])
    ensures var e := i + 1 + |toks[0]|;
            && Occurs(t, e, Joined(toks[1..])) && e + |Joined(toks[1..])| == |t|
            && (CharAt(t, e) == '\0' || CharAt(t, e) == '/')
  {
    hide Occurs;
    var rest := Joined(toks[1..]);
    OccursConcat(t, i, "/" + toks[0], rest);
    OccursConcat(t, i, "/", toks[0]);
    OccursChar(t, i, "/", 0);
    if toks[1..] != [] {
      OccursChar(t, i + 1 + |toks[0]|, rest, 0);
    }
  }
}
