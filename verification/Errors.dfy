/**
 Where the parser reports an error: the text before that position can still be
 completed to an accepted one, and what comes later than the next few characters
 does not matter.
 */
module Errors {
  import opened CText
  import opened Numbers
  import opened Strings
  import opened Json
  import opened Parser
  import opened Grammar
  import opened Prefixes

  // Failures

  /** The characters up to position n, this one excluded, are the same; a terminator counts. */
  predicate Near(t: string, u: string, n: nat) {
    forall k | 0 <= k < n :: CharAt(u, k) == CharAt(t, k)
  }

  lemma {:induction false} NearAgree(t: string, u: string, n: nat, m: nat)
    requires CString(t) && Near(t, u, n) && m + 1 < n && m <= |t|
    ensures Agree(t, u, m) && Follows(t, u, m) && CharAt(u, m) == CharAt(t, m)
  {
    var l := if |u| < m then |u| else m;
    assert CharAt(u, l) == CharAt(t, l);
    forall k | 0 <= k < m
      ensures t[k] == u[k]
    {
      assert CharAt(u, k) == CharAt(t, k);
    }
    assert CharAt(u, m) == CharAt(t, m) && CharAt(u, m + 1) == CharAt(t, m + 1);
  }

  lemma {:induction false} NearSkip(t: string, u: string, n: nat, a: nat)
    requires CString(t) && Near(t, u, n) && a <= |t| && Skip(t, a) + 1 < n
    ensures a <= |u| && Skip(u, a) == Skip(t, a) && CharAt(u, Skip(t, a)) == CharAt(t, Skip(t, a))
  {
    NearAgree(t, u, n, Skip(t, a));
    SkipStops(t, a);
    SkipKept(t, u, a, Skip(t, a));
  }

  lemma {:induction false} SkipStops(t: string, a: nat)
    requires a <= |t|
    ensures CharAt(t, Skip(t, a)) > ' ' || CharAt(t, Skip(t, a)) == '\0'
    decreases |t| - a
  {
    if a < Skip(t, a) {
      SkipStops(t, a + 1);
    }
  }

  /** A failure lies between the start and the end of the text. */
  lemma {:induction false} FailsWithin(t: string, i: nat)
    requires i <= |t|
    ensures ValueAt(t, i).Fail? ==> i <= ValueAt(t, i).at <= |t|
    decreases |t| - i, 0
  {
    hide StringAt, ScanNumber, Truncate, ItemsAt, MembersAt, Skip, Occurs;
    var c := CharAt(t, i);
    if c == '\"' {
      StringFails(t, i);
    } else if c == '[' {
      ItemsFailWithin(t, Skip(t, i + 1), []);
    } else if c == '{' {
      MembersFailWithin(t, Skip(t, i + 1), []);
    }
  }

  lemma {:induction false} StringFails(t: string, i: nat)
    requires i <= |t|
    ensures StringAt(t, i).Fail? ==> StringAt(t, i).at == i
    ensures CharAt(t, i) != '\"' ==> StringAt(t, i) == Fail(i)
  {
    hide Sizing, Decode;
  }

  lemma {:induction false} ItemsFailWithin(t: string, k: nat, acc: seq<Json>)
    requires k <= |t|
    ensures ItemsAt(t, k, acc).Fail? ==> Skip(t, k) <= ItemsAt(t, k, acc).at <= |t|
    decreases |t| - k, 1
  {
    hide ValueAt, Skip;
    var p := Skip(t, k);
    FailsWithin(t, p);
    if ValueAt(t, p).Ok? {
      var j := Skip(t, ValueAt(t, p).next);
      if CharAt(t, j) == ',' {
        ItemsFailWithin(t, j + 1, acc + [ValueAt(t, p).value]);
      }
    }
  }

  lemma {:induction false} MembersFailWithin(t: string, k: nat, acc: seq<Member>)
    requires k <= |t|
    ensures MembersAt(t, k, acc).Fail? ==> Skip(t, k) <= MembersAt(t, k, acc).at <= |t|
    decreases |t| - k, 2
  {
    hide MemberAt, Skip;
    MemberFailsWithin(t, k);
    if MemberAt(t, k).Ok? {
      var j := Skip(t, MemberAt(t, k).next);
      if CharAt(t, j) == ',' {
        MembersFailWithin(t, j + 1, acc + [MemberAt(t, k).value]);
      }
    }
  }

  lemma {:induction false} MemberFailsWithin(t: string, k: nat)
    requires k <= |t|
    ensures MemberAt(t, k).Fail? ==> Skip(t, k) <= MemberAt(t, k).at <= |t|
    ensures MemberAt(t, k).Ok? ==> Skip(t, k) < MemberAt(t, k).next
    decreases |t| - k, 1
  {
    hide ValueAt, StringAt, Skip, MemberAt;
    StringFails(t, Skip(t, k));
    if HasName(t, k) {
      MemberStep(t, k);
      FailsWithin(t, ValueStart(t, k));
    } else {
      MemberFails(t, k);
    }
  }

  /** A text that is the same up to four characters behind the failure, where no literal starts, fails there, too. */
  lemma {:induction false} ValueFailsAlike(t: string, u: string, i: nat, at: nat)
    requires CString(t) && CString(u) && i <= |t| && ValueAt(t, i) == Fail(at)
    requires Near(t, u, at + 5) && CharAt(t, at) != '\"'
    ensures i <= |u| && ValueAt(u, i) == Fail(at)
    decreases |t| - i, 0
  {
    hide ValueAt, StringAt, ScanNumber, Truncate, ItemsAt, MembersAt, Skip, Occurs, Near;
    FailsWithin(t, i);
    NearAgree(t, u, at + 5, i);
    var c := CharAt(t, i);
    if c == '\"' {
      QuoteOpens(t, i);
      StringFails(t, i);
    } else if c == '-' || IsDigit(c) {
      NumberOpens(t, i);
    } else if c == '[' {
      ArrayOpens(t, i);
      ArrayOpens(u, i);
      ItemsFailWithin(t, Skip(t, i + 1), []);
      NearSkip(t, u, at + 5, i + 1);
      ItemsFailAlike(t, u, Skip(t, i + 1), [], at);
    } else if c == '{' {
      ObjectOpens(t, i);
      ObjectOpens(u, i);
      MembersFailWithin(t, Skip(t, i + 1), []);
      NearSkip(t, u, at + 5, i + 1);
      MembersFailAlike(t, u, Skip(t, i + 1), [], at);
    } else {
      WordOpens(t, i);
      WordOpens(u, i);
      WordsNear(t, u, i);
    }
  }

  lemma {:induction false} WordsNear(t: string, u: string, i: nat)
    requires Near(t, u, i + 5) && i <= |t| && i <= |u|
    ensures Occurs(t, i, "null") == Occurs(u, i, "null")
    ensures Occurs(t, i, "false") == Occurs(u, i, "false")
    ensures Occurs(t, i, "true") == Occurs(u, i, "true")
  {
    WordNear(t, u, i, "null");
    WordNear(t, u, i, "false");
    WordNear(t, u, i, "true");
  }

  lemma {:induction false} ItemsFailAlike(t: string, u: string, k: nat, acc: seq<Json>, at: nat)
    requires CString(t) && CString(u) && k <= |t| && ItemsAt(t, k, acc) == Fail(at)
    requires Near(t, u, at + 5) && CharAt(t, at) != '\"'
    ensures k <= |u| && ItemsAt(u, k, acc) == Fail(at)
    decreases |t| - k, 1
  {
    hide ValueAt, ItemsAt, Skip, Near, Follows;
    var p := Skip(t, k);
    ItemsFailWithin(t, k, acc);
    ItemsStep(t, k, acc);
    NearSkip(t, u, at + 5, k);
    ItemsStep(u, k, acc);
    if ValueAt(t, p).Ok? {
      var v, n := ValueAt(t, p).value, ValueAt(t, p).next;
      var j := Skip(t, n);
      if CharAt(t, j) == ',' {
        ItemsFailWithin(t, j + 1, acc + [v]);
      }
      NearAgree(t, u, at + 5, n);
      ValueKept(t, u, p, v, n);
      NearSkip(t, u, at + 5, n);
      if CharAt(t, j) == ',' {
        ItemsFailAlike(t, u, j + 1, acc + [v], at);
      }
    } else {
      ValueFailsAlike(t, u, p, at);
    }
  }

  lemma {:induction false} MembersFailAlike(t: string, u: string, k: nat, acc: seq<Member>, at: nat)
    requires CString(t) && CString(u) && k <= |t| && MembersAt(t, k, acc) == Fail(at)
    requires Near(t, u, at + 5) && CharAt(t, at) != '\"'
    ensures k <= |u| && MembersAt(u, k, acc) == Fail(at)
    decreases |t| - k, 2
  {
    hide MemberAt, MembersAt, Skip, Near, Follows;
    MembersFailWithin(t, k, acc);
    MembersStep(t, k, acc);
    NearSkip(t, u, at + 5, k);
    MembersStep(u, k, acc);
    if MemberAt(t, k).Ok? {
      var x, n := MemberAt(t, k).value, MemberAt(t, k).next;
      var j := Skip(t, n);
      if CharAt(t, j) == ',' {
        MembersFailWithin(t, j + 1, acc + [x]);
      }
      NearAgree(t, u, at + 5, n);
      MemberKept(t, u, k, x, n);
      NearSkip(t, u, at + 5, n);
      if CharAt(t, j) == ',' {
        MembersFailAlike(t, u, j + 1, acc + [x], at);
      }
    } else {
      MemberFailsAlike(t, u, k, at);
    }
  }

  lemma {:induction false} MemberFailsAlike(t: string, u: string, k: nat, at: nat)
    requires CString(t) && CString(u) && k <= |t| && MemberAt(t, k) == Fail(at)
    requires Near(t, u, at + 5) && CharAt(t, at) != '\"'
    ensures k <= |u| && MemberAt(u, k) == Fail(at)
    decreases |t| - k, 1
  {
    hide MemberAt, Skip, Near, Follows, StringAt, ValueAt;
    MemberFailsWithin(t, k);
    NearSkip(t, u, at + 5, k);
    var p := Skip(t, k);
    StringFails(t, p);
    StringFails(u, p);
    if HasName(t, k) {
      MemberStep(t, k);
      var q := ValueStart(t, k);
      FailsWithin(t, q);
      NearAgree(t, u, at + 5, q);
      SkipStops(t, Skip(t, NameEnd(t, k)) + 1);
      NameKept(t, u, k, q);
      MemberStep(u, k);
      ValueFailsAlike(t, u, q, at);
    } else {
      MemberFails(t, k);
      if StringAt(t, p).Ok? {
        var n := NameEnd(t, k);
        NearAgree(t, u, at + 5, n);
        StringKept(t, u, p, StringAt(t, p).value, n);
        NearSkip(t, u, at + 5, n);
      }
      MemberFails(u, k);
    }
  }

  // Completion

  /** A continuation that starts with a character that is no blank. */
  predicate Solid(y: string) {
    CString(y) && y != "" && y[0] > ' '
  }

  /** The text up to a position, continued. */
  function Cut(t: string, at: nat, w: string): (u: string)
    requires at <= |t|
  {
    t[..at] + w
  }

  lemma {:induction false} CutText(t: string, at: nat, w: string)
    requires CString(t) && at <= |t| && CString(w)
    ensures var u := Cut(t, at, w);
            CString(u) && Agree(t, u, at) && |u| == at + |w| && CharAt(u, at) == CharAt(w, 0)
  {
  }

  lemma {:induction false} CutCut(t: string, at: nat, w: string, y: string)
    requires at <= |t|
    ensures Cut(t, at, w + y) == Cut(t, at, w) + y
  {
    assert t[..at] + (w + y) == t[..at] + w + y;
  }

  lemma {:induction false} NullStands(t: string, at: nat, y: string)
    requires CString(t) && at <= |t| && CString(y)
    ensures ValueAt(Cut(t, at, "null" + y), at) == Ok(Null, at + 4)
  {
    hide StringAt, ScanNumber, Truncate, Skip, ItemsAt, MembersAt;
    var u := Cut(t, at, "null" + y);
    assert u[at] == 'n' && u[at + 1] == 'u' && u[at + 2] == 'l' && u[at + 3] == 'l';
  }

  /** A value, with its literal closed, stays accepted in front of a separator. */
  lemma {:induction false} ValueCloses(t: string, i: nat, v: Json, n: nat, y: string) returns (e: string)
    requires CString(t) && i <= |t| && ValueAt(t, i) == Ok(v, n) && Solid(y) && Stop(y[0])
    ensures CString(e) && Skip(t, n) <= |t| && var j := Skip(t, n); var u := Cut(t, j, e + y);
            && (e == "" || e == "\"")
            && ValueAt(u, i) == Ok(v, n + |e|) && n + |e| <= |u| && Skip(u, n + |e|) == j + |e|
  {
    hide ValueAt, StringAt, Skip, Follows, Agree;
    var j := Skip(t, n);
    if CharAt(t, i) == '\"' {
      QuoteOpens(t, i);
      e := StringCloses(t, i, v.valuestring, n, y);
      CutCut(t, j, e, y);
      QuoteOpens(Cut(t, j, e + y), i);
    } else {
      e := "";
      var u := Cut(t, j, y);
      assert e + y == y;
      CutText(t, j, y);
      SkipWithin(t, u, n, j);
      NoString(t, i);
      ValueKept(t, u, i, v, n);
      SkipKept(t, u, n, j);
    }
  }

  lemma {:induction false} SkipWithin(t: string, u: string, n: nat, j: nat)
    requires n <= |t| && j == Skip(t, n) && Agree(t, u, j) && Stop(CharAt(u, j))
    ensures Agree(t, u, n) && Follows(t, u, n)
  {
    FollowsWithin(t, u, n, j);
  }

  lemma {:induction false} NoString(t: string, i: nat)
    requires CString(t) && i <= |t| && ValueAt(t, i).Ok? && CharAt(t, i) != '\"'
    ensures !ValueAt(t, i).value.String?
  {
    hide ValueAt, Derives, Literal;
    ValueIff(t, i, ValueAt(t, i).next, ValueAt(t, i).value);
    NoLiteral(t, i, ValueAt(t, i).next, ValueAt(t, i).value);
  }

  lemma {:induction false} NoLiteral(t: string, i: nat, n: nat, v: Json)
    requires Derives(t, i, n, v) && CharAt(t, i) != '\"'
    ensures !v.String?
  {
  }

  /** What may come behind a completed value. */
  predicate Behind(y: string) {
    CString(y) && (y == "" || (y[0] > ' ' && Stop(y[0])))
  }

  lemma {:induction false} BehindClose(y: string, close: string)
    requires Behind(y) && (close == "]" || close == "}")
    ensures Behind(close + y) && Solid(close + y) && Stop((close + y)[0])
  {
  }

  /** The text before a failure can be completed to a value. */
  lemma {:induction false} ValueViable(t: string, i: nat, at: nat, y: string) returns (w: string, v: Json)
    requires CString(t) && i <= |t| && ValueAt(t, i) == Fail(at) && Behind(y)
    ensures Solid(w) && at <= |t| && i <= at && ValueAt(Cut(t, at, w + y), i) == Ok(v, at + |w|)
    ensures at == i ==> w == "null"
    decreases |t| - i, 0
  {
    hide ValueAt, StringAt, ItemsAt, MembersAt, Skip, Occurs, Stop;
    FailsWithin(t, i);
    w, v := "null", Null;
    var c := CharAt(t, i);
    if c == '\"' {
      QuoteOpens(t, i);
      StringFails(t, i);
      NullStands(t, at, y);
    } else if c == '-' || IsDigit(c) {
      NumberOpens(t, i);
      assert false;
    } else if c == '[' {
      w, v := ArrayViable(t, i, at, y);
    } else if c == '{' {
      w, v := ObjectViable(t, i, at, y);
    } else {
      WordOpens(t, i);
      NullStands(t, at, y);
    }
  }

  /** Blanks that end no later than the cut end there in the completed text, too. */
  lemma {:induction false} SkipCut(t: string, at: nat, w: string, y: string, a: nat)
    requires CString(t) && CString(y) && Solid(w) && a <= |t| && Skip(t, a) <= at <= |t|
    ensures var u := Cut(t, at, w + y);
            && CString(u) && Agree(t, u, at) && |u| == at + |w| + |y|
            && Skip(u, a) == Skip(t, a) && CharAt(u, at) == w[0] && CharAt(u, at + |w|) == CharAt(y, 0)
            && (Skip(t, a) < at ==> CharAt(u, Skip(t, a)) == CharAt(t, Skip(t, a)))
  {
    hide Skip;
    var u := Cut(t, at, w + y);
    CutText(t, at, w + y);
    SkipKept(t, u, a, at);
  }

  lemma {:induction false} SkipTwice(t: string, a: nat)
    requires a <= |t|
    ensures Skip(t, Skip(t, a)) == Skip(t, a)
  {
    hide Skip;
    SkipStops(t, a);
    NoSkip(t, Skip(t, a));
  }

  lemma {:induction false} ArrayViable(t: string, i: nat, at: nat, y: string) returns (w: string, v: Json)
    requires CString(t) && i <= |t| && ValueAt(t, i) == Fail(at) && Behind(y) && CharAt(t, i) == '['
    ensures Solid(w) && at <= |t| && i < at && ValueAt(Cut(t, at, w + y), i) == Ok(v, at + |w|)
    decreases |t| - i, 0, 0
  {
    hide ValueAt, ItemsAt, Skip, Stop, Cut, Solid, Agree;
    var j := Skip(t, i + 1);
    ArrayOpens(t, i);
    ItemsFailWithin(t, j, []);
    SkipTwice(t, i + 1);
    w, v := ItemsViable(t, j, [], at, y);
    SkipCut(t, at, w, y, i + 1);
    AgreeAt(t, Cut(t, at, w + y), at, i);
    ArrayOpens(Cut(t, at, w + y), i);
  }

  lemma {:induction false} AgreeAt(t: string, u: string, n: nat, k: nat)
    requires Agree(t, u, n) && k < n
    ensures CharAt(u, k) == CharAt(t, k) && k < |t|
  {
  }

  lemma {:induction false} ObjectViable(t: string, i: nat, at: nat, y: string) returns (w: string, v: Json)
    requires CString(t) && i <= |t| && ValueAt(t, i) == Fail(at) && Behind(y) && CharAt(t, i) == '{'
    ensures Solid(w) && at <= |t| && i < at && ValueAt(Cut(t, at, w + y), i) == Ok(v, at + |w|)
    decreases |t| - i, 0, 0
  {
    hide ValueAt, MembersAt, Skip, Stop, Cut, Solid, Agree;
    var j := Skip(t, i + 1);
    ObjectOpens(t, i);
    MembersFailWithin(t, j, []);
    SkipTwice(t, i + 1);
    w, v := MembersViable(t, j, [], at, y);
    SkipCut(t, at, w, y, i + 1);
    AgreeAt(t, Cut(t, at, w + y), at, i);
    ObjectOpens(Cut(t, at, w + y), i);
  }

  /** The bracket behind the last item. */
  lemma {:induction false} ItemsClose(u: string, k: nat, acc: seq<Json>, x: Json, m: nat)
    requires k <= |u| && ValueAt(u, Skip(u, k)) == Ok(x, m) && CharAt(u, Skip(u, m)) == ']'
    ensures ItemsAt(u, k, acc) == Ok(Array(acc + [x]), Skip(u, m) + 1)
  {
    hide ValueAt, Skip;
  }

  /** An item and its comma are kept before the cut. */
  lemma {:induction false} ItemGoesOn(t: string, u: string, k: nat, acc: seq<Json>, at: nat)
    requires CString(t) && CString(u) && k <= |t| && ValueAt(t, Skip(t, k)).Ok? && Agree(t, u, at)
    requires var j := Skip(t, ValueAt(t, Skip(t, k)).next); CharAt(t, j) == ',' && j < at
    ensures k <= |u| && Skip(t, ValueAt(t, Skip(t, k)).next) < |u|
    ensures ItemsAt(u, k, acc) ==
              ItemsAt(u, Skip(t, ValueAt(t, Skip(t, k)).next) + 1, acc + [ValueAt(t, Skip(t, k)).value])
  {
    hide ValueAt, ItemsAt, Skip, Follows;
    var p := Skip(t, k);
    var n := ValueAt(t, p).next;
    SkipKept(t, u, k, at);
    MarkKept(t, u, n, at);
    ValueKept(t, u, p, ValueAt(t, p).value, n);
    ItemsStep(u, k, acc);
  }

  lemma {:induction false} ItemsViable(t: string, k: nat, acc: seq<Json>, at: nat, y: string)
    returns (w: string, v: Json)
    requires CString(t) && k <= |t| && ItemsAt(t, k, acc) == Fail(at) && Behind(y)
    ensures Solid(w) && at <= |t| && Skip(t, k) <= at && ItemsAt(Cut(t, at, w + y), k, acc) == Ok(v, at + |w|)
    ensures at == Skip(t, k) ==> w[0] == 'n'
    decreases |t| - k, 1
  {
    hide ValueAt, ItemsAt, Skip, Stop, Cut, Agree;
    var p := Skip(t, k);
    ItemsStep(t, k, acc);
    ItemsFailWithin(t, k, acc);
    BehindClose(y, "]");
    if ValueAt(t, p).Ok? {
      var x, n := ValueAt(t, p).value, ValueAt(t, p).next;
      var j := Skip(t, n);
      if CharAt(t, j) == ',' {
        ItemsFailWithin(t, j + 1, acc + [x]);
        w, v := ItemsViable(t, j + 1, acc + [x], at, y);
        CutText(t, at, w + y);
        ItemGoesOn(t, Cut(t, at, w + y), k, acc, at);
      } else {
        var e := ValueCloses(t, p, x, n, "]" + y);
        w, v := e + "]", Array(acc + [x]);
        assert e + ("]" + y) == w + y;
        SkipCut(t, at, w, y, k);
        CutChar(t, at, w + y, |e|);
        ItemsClose(Cut(t, at, w + y), k, acc, x, n + |e|);
      }
    } else {
      var w1, x := ValueViable(t, p, at, "]" + y);
      w, v := w1 + "]", Array(acc + [x]);
      assert w1 + ("]" + y) == w + y;
      SkipCut(t, at, w, y, k);
      CutChar(t, at, w + y, |w1|);
      NoSkip(Cut(t, at, w + y), at + |w1|);
      ItemsClose(Cut(t, at, w + y), k, acc, x, at + |w1|);
    }
  }

  lemma {:induction false} CutChar(t: string, at: nat, w: string, k: nat)
    requires at <= |t| && k < |w|
    ensures at + k < |Cut(t, at, w)| && CharAt(Cut(t, at, w), at + k) == w[k]
  {
  }

  lemma {:induction false} MembersClose(u: string, k: nat, acc: seq<Member>, x: Member, m: nat)
    requires k <= |u| && MemberAt(u, k) == Ok(x, m) && CharAt(u, Skip(u, m)) == '}'
    ensures MembersAt(u, k, acc) == Ok(Object(acc + [x]), Skip(u, m) + 1)
  {
    hide MemberAt, Skip;
  }

  lemma {:induction false} MemberGoesOn(t: string, u: string, k: nat, acc: seq<Member>, at: nat)
    requires CString(t) && CString(u) && k <= |t| && MemberAt(t, k).Ok? && Agree(t, u, at)
    requires var j := Skip(t, MemberAt(t, k).next); CharAt(t, j) == ',' && j < at
    ensures k <= |u| && Skip(t, MemberAt(t, k).next) < |u|
    ensures MembersAt(u, k, acc) == MembersAt(u, Skip(t, MemberAt(t, k).next) + 1, acc + [MemberAt(t, k).value])
  {
    hide MemberAt, MembersAt, Skip, Follows;
    var n := MemberAt(t, k).next;
    MarkKept(t, u, n, at);
    MemberKept(t, u, k, MemberAt(t, k).value, n);
    MembersStep(u, k, acc);
  }

  lemma {:induction false} MembersViable(t: string, k: nat, acc: seq<Member>, at: nat, y: string)
    returns (w: string, v: Json)
    requires CString(t) && k <= |t| && MembersAt(t, k, acc) == Fail(at) && Behind(y)
    ensures Solid(w) && at <= |t| && Skip(t, k) <= at && MembersAt(Cut(t, at, w + y), k, acc) == Ok(v, at + |w|)
    ensures at == Skip(t, k) ==> w[0] == '\"'
    decreases |t| - k, 2
  {
    hide MemberAt, MembersAt, Skip, Stop, Cut, Agree;
    MembersStep(t, k, acc);
    MembersFailWithin(t, k, acc);
    MemberFailsWithin(t, k);
    BehindClose(y, "}");
    if MemberAt(t, k).Ok? {
      var x, n := MemberAt(t, k).value, MemberAt(t, k).next;
      var j := Skip(t, n);
      if CharAt(t, j) == ',' {
        MembersFailWithin(t, j + 1, acc + [x]);
        w, v := MembersViable(t, j + 1, acc + [x], at, y);
        CutText(t, at, w + y);
        MemberGoesOn(t, Cut(t, at, w + y), k, acc, at);
      } else {
        var e := MemberCloses(t, k, x, n, "}" + y);
        w, v := e + "}", Object(acc + [x]);
        assert e + ("}" + y) == w + y;
        CutText(t, at, w + y);
        CutChar(t, at, w + y, |e|);
        MembersClose(Cut(t, at, w + y), k, acc, x, n + |e|);
      }
    } else {
      var w1, x := MemberViable(t, k, at, "}" + y);
      w, v := w1 + "}", Object(acc + [x]);
      assert w1 + ("}" + y) == w + y;
      CutText(t, at, w + y);
      CutChar(t, at, w + y, |w1|);
      NoSkip(Cut(t, at, w + y), at + |w1|);
      MembersClose(Cut(t, at, w + y), k, acc, x, at + |w1|);
    }
  }

  lemma {:induction false} MemberCloses(t: string, k: nat, x: Member, n: nat, y: string) returns (e: string)
    requires CString(t) && k <= |t| && MemberAt(t, k) == Ok(x, n) && Solid(y) && Stop(y[0])
    ensures CString(e) && Skip(t, n) <= |t| && var j := Skip(t, n); var u := Cut(t, j, e + y);
            && (e == "" || e == "\"")
            && k <= |u| && MemberAt(u, k) == Ok(x, n + |e|) && n + |e| <= |u| && Skip(u, n + |e|) == j + |e|
  {
    hide ValueAt, StringAt, MemberAt, Skip, Stop, Cut, Agree, HasName, ValueStart;
    if !HasName(t, k) {
      MemberFails(t, k);
      assert false;
    }
    MemberStep(t, k);
    e := ValueCloses(t, ValueStart(t, k), x.value, n, y);
    var j := Skip(t, n);
    CutText(t, j, e + y);
    NameKept(t, Cut(t, j, e + y), k, j);
    MemberStep(Cut(t, j, e + y), k);
  }

  lemma {:induction false} MemberNull(u: string, k: nat, s: string, m: nat, y: string)
    requires CString(u) && CString(y) && k <= |u| && StringAt(u, Skip(u, k)) == Ok(s, m)
    requires u == Cut(u, Skip(u, m), ":null" + y)
    ensures MemberAt(u, k) == Ok(Member(s, Null), Skip(u, m) + 5)
  {
    hide ValueAt, StringAt, MemberAt, Skip;
    var j := Skip(u, m);
    assert u[j] == ':' && u[j + 1] == 'n';
    NoSkip(u, j + 1);
    assert u == Cut(u, j + 1, "null" + y);
    NullStands(u, j + 1, y);
    MemberStep(u, k);
  }

  lemma {:induction false} EmptyLiteral(u: string, p: nat)
    requires p + 1 < |u| && u[p] == '\"' && u[p + 1] == '\"'
    ensures StringAt(u, p) == Ok("", p + 2)
  {
  }

  lemma {:induction false} MemberViable(t: string, k: nat, at: nat, y: string) returns (w: string, x: Member)
    requires CString(t) && k <= |t| && MemberAt(t, k) == Fail(at) && Behind(y)
    ensures Solid(w) && at <= |t| && Skip(t, k) <= at
    ensures k <= |Cut(t, at, w + y)| && MemberAt(Cut(t, at, w + y), k) == Ok(x, at + |w|)
    ensures at == Skip(t, k) ==> w[0] == '\"'
    decreases |t| - k, 1
  {
    hide ValueAt, StringAt, MemberAt, Skip, Stop, Cut, Agree;
    MemberFailsWithin(t, k);
    if HasName(t, k) {
      var q := ValueStart(t, k);
      MemberStep(t, k);
      var v;
      w, v := ValueViable(t, q, at, y);
      x := Member(StringAt(t, Skip(t, k)).value, v);
      CutText(t, at, w + y);
      NameKept(t, Cut(t, at, w + y), k, at);
      MemberStep(Cut(t, at, w + y), k);
    } else {
      w, x := NameViable(t, k, at, y);
    }
  }

  lemma {:induction false} NameViable(t: string, k: nat, at: nat, y: string) returns (w: string, x: Member)
    requires CString(t) && k <= |t| && MemberAt(t, k) == Fail(at) && Behind(y) && !HasName(t, k)
    ensures Solid(w) && at <= |t| && Skip(t, k) <= at
    ensures k <= |Cut(t, at, w + y)| && MemberAt(Cut(t, at, w + y), k) == Ok(x, at + |w|)
    ensures at == Skip(t, k) ==> w[0] == '\"'
  {
    hide ValueAt, StringAt, MemberAt, Skip, Stop, Agree, Cut;
    var p := Skip(t, k);
    MemberFails(t, k);
    StringFails(t, p);
    if StringAt(t, p).Ok? {
      var e := ColonViable(t, k, at, y);
      w, x := e + ":null", Member(StringAt(t, p).value, Null);
    } else {
      w, x := "\"\":null", Member("", Null);
      NoNameViable(t, k, y);
    }
  }

  /** After a name, the colon and a null complete the member. */
  lemma {:induction false} ColonViable(t: string, k: nat, at: nat, y: string) returns (e: string)
    requires CString(t) && k <= |t| && StringAt(t, Skip(t, k)).Ok? && Behind(y)
    requires at == Skip(t, StringAt(t, Skip(t, k)).next)
    ensures (e == "" || e == "\"") && at <= |t| && k <= |Cut(t, at, e + ":null" + y)|
    ensures MemberAt(Cut(t, at, e + ":null" + y), k) ==
              Ok(Member(StringAt(t, Skip(t, k)).value, Null), at + |e + ":null"|)
  {
    hide ValueAt, StringAt, MemberAt, Skip, Stop, Agree;
    var p := Skip(t, k);
    var s, n := StringAt(t, p).value, StringAt(t, p).next;
    e := StringCloses(t, p, s, n, ":null" + y);
    var u := Cut(t, at, e + ":null" + y);
    assert u == t[..at] + e + (":null" + y);
    SkipCut(t, at, e + ":null", y, k);
    assert u == Cut(u, at + |e|, ":null" + y);
    MemberNull(u, k, s, n + |e|, y);
  }

  lemma {:induction false} NoNameViable(t: string, k: nat, y: string)
    requires CString(t) && k <= |t| && Behind(y)
    ensures var at := Skip(t, k); var u := Cut(t, at, "\"\":null" + y);
            k <= |u| && MemberAt(u, k) == Ok(Member("", Null), at + 7)
  {
    hide ValueAt, StringAt, MemberAt, Skip, Stop, Agree;
    var at := Skip(t, k);
    var u := Cut(t, at, "\"\":null" + y);
    SkipCut(t, at, "\"\":null", y, k);
    assert u[at] == '\"' && u[at + 1] == '\"' && u[at + 2] == ':';
    EmptyLiteral(u, at);
    NoSkip(u, at + 2);
    assert u == Cut(u, at + 2, ":null" + y);
    MemberNull(u, k, "", at + 2, y);
  }

  // Whole texts

  /**
   The reported position of an error: the text before it can be completed to an
   accepted text, and every text that is the same up to four characters behind it (as
   far as a word goes) fails at the same place, unless it is a literal that is not
   accepted there.
   */
  lemma {:induction false} ErrorPosition(t: string, at: nat) returns (w: string)
    requires CString(t) && Parsing(t, true) == Fail(at)
    ensures at <= |t| && CString(w) && Parsing(t[..at] + w, true).Ok?
    ensures CharAt(t, at) != '\"' ==>
              forall u | CString(u) && Near(t, u, at + 5) :: Parsing(u, true) == Fail(at)
  {
    hide ValueAt, Skip, Near, Cut, Agree;
    var i := Skip(t, 0);
    if ValueAt(t, i).Ok? {
      w := GarbageViable(t, i, at);
      forall u | CString(u) && Near(t, u, at + 5)
        ensures Parsing(u, true) == Fail(at)
      {
        GarbageFailsAlike(t, u, i, at);
      }
    } else {
      var v;
      w, v := ValueViable(t, i, at, "");
      assert w + "" == w;
      SkipCut(t, at, w, "", 0);
      NoSkip(Cut(t, at, w), at + |w|);
      CutIs(t, at, w);
      if CharAt(t, at) != '\"' {
        forall u | CString(u) && Near(t, u, at + 5)
          ensures Parsing(u, true) == Fail(at)
        {
          NearSkip(t, u, at + 5, 0);
          ValueFailsAlike(t, u, i, at);
        }
      }
    }
  }

  lemma {:induction false} CutIs(t: string, at: nat, w: string)
    requires at <= |t|
    ensures Cut(t, at, w) == t[..at] + w
  {
  }

  lemma {:induction false} GarbageFailsAlike(t: string, u: string, i: nat, at: nat)
    requires CString(t) && CString(u) && Near(t, u, at + 5) && i == Skip(t, 0) && ValueAt(t, i).Ok?
    requires Parsing(t, true) == Fail(at)
    ensures Parsing(u, true) == Fail(at)
  {
    hide ValueAt, Skip, Near, Agree, Follows;
    var v, n := ValueAt(t, i).value, ValueAt(t, i).next;
    NearSkip(t, u, at + 5, 0);
    NearAgree(t, u, at + 5, n);
    ValueKept(t, u, i, v, n);
    NearSkip(t, u, at + 5, n);
  }

  lemma {:induction false} GarbageViable(t: string, i: nat, at: nat) returns (w: string)
    requires CString(t) && i == Skip(t, 0) && ValueAt(t, i).Ok? && Parsing(t, true) == Fail(at)
    ensures at <= |t| && CString(w) && Parsing(t[..at] + w, true).Ok?
  {
    hide ValueAt, Skip, Agree, Follows;
    var v, n := ValueAt(t, i).value, ValueAt(t, i).next;
    w := "";
    var u := t[..at] + w;
    CutText(t, at, w);
    CutIs(t, at, w);
    SkipKept(t, u, 0, at);
    SkipWithin(t, u, n, at);
    SkipKept(t, u, n, at);
    GarbageQuoted(t, i, n, at);
    ValueKept(t, u, i, v, n);
  }

  lemma {:induction false} GarbageQuoted(t: string, i: nat, n: nat, at: nat)
    requires CString(t) && i <= |t| && ValueAt(t, i).Ok? && n == ValueAt(t, i).next && at == Skip(t, n) < |t|
    ensures ValueAt(t, i).value.String? ==> Quoted(t, i)
  {
    hide ValueAt, Skip, Sizing, Body, Literal;
    if CharAt(t, i) == '\"' {
      QuoteOpens(t, i);
      StringIff(t, i, n, ValueAt(t, i).value.valuestring);
      if !Quoted(t, i) {
        UnquotedEnd(t, i, n, ValueAt(t, i).value.valuestring);
        assert false;
      }
    } else {
      NoString(t, i);
    }
  }
}
