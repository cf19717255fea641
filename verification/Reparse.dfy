/** What parsing yields can be printed, and parses again to the same tree. */
module Reparse {
  import opened CText
  import opened Numbers
  import opened Utf8
  import opened Strings
  import opened Json
  import opened Parser
  import opened RoundTrip

  /** What holds of every parsed tree: texts are C strings, and valueint is the truncated double. */
  predicate Sound(v: Json) {
    match v
    case Number(n, d) => n == Truncate(d)
    case String(s) => CString(s)
    case Array(items) => forall i | 0 <= i < |items| :: Sound(items[i])
    case Object(members) => SoundMembers(members)
    case _ => true
  }

  predicate SoundMembers(members: seq<Member>) {
    forall i | 0 <= i < |members| :: CString(members[i].name) && Sound(members[i].value)
  }

  /** Every number is a 32-bit integer. */
  predicate Integers(v: Json) {
    match v
    case Number(_, d) => Integral(d)
    case Array(items) => forall i | 0 <= i < |items| :: Integers(items[i])
    case Object(members) => forall i | 0 <= i < |members| :: Integers(members[i].value)
    case _ => true
  }

  // No decoded string holds a terminator

  lemma {:induction false} OctetsCString(cp: nat)
    requires Scalar(cp) && cp != 0
    ensures CString(Octets(cp))
  {
  }

  lemma {:induction false} StepCString(t: string, p: nat, end: nat)
    requires CString(t) && p < end <= |t| && Sizing(t, p).At? && Sizing(t, p).end == end
    ensures DecodeOne(t, p, end).Bytes? ==> CString(DecodeOne(t, p, end).s)
  {
    hide Transcode, Combine, ParseHex4, DecodeUnicode, Octets;
    if t[p] == '\\' && CharAt(t, p + 1) == 'u' {
      UnicodeIsUtf8(t, p, end);
      var d := UnicodeAt(t, p + 1);
      if d.CodePoint? && d.cp != 0 {
        OctetsCString(d.cp);
      }
    }
  }

  lemma {:induction false} DecodeCString(t: string, p: nat, end: nat)
    requires CString(t) && p <= end <= |t| && Sizing(t, p).At? && Sizing(t, p).end == end
    ensures Decode(t, p, end).Bytes? ==> CString(Decode(t, p, end).s)
    decreases end - p
  {
    hide DecodeOne, Sizing;
    if p < end {
      StepCString(t, p, end);
      StepStaysAligned(t, p, end);
      if DecodeOne(t, p, end).Bytes? {
        DecodeCString(t, DecodeOne(t, p, end).next, end);
      }
    }
  }

  lemma {:induction false} StringSound(t: string, i: nat)
    requires CString(t) && i <= |t|
    ensures StringAt(t, i).Ok? ==> CString(StringAt(t, i).value)
  {
    hide Decode, Sizing;
    if CharAt(t, i) == '\"' && Sizing(t, i + 1).At? {
      DecodeCString(t, i + 1, Sizing(t, i + 1).end);
    }
  }

  // Every parsed tree is sound

  lemma {:induction false} ValueSound(t: string, i: nat)
    requires CString(t) && i <= |t|
    ensures ValueAt(t, i).Ok? ==> Sound(ValueAt(t, i).value)
    decreases |t| - i, 0
  {
    hide StringAt, ScanNumber, Truncate, CString;
    StringSound(t, i);
    if CharAt(t, i) == '[' {
      ItemsSound(t, Skip(t, i + 1), []);
    } else if CharAt(t, i) == '{' {
      MembersSound(t, Skip(t, i + 1), []);
    }
  }

  lemma {:induction false} ItemsSound(t: string, i: nat, acc: seq<Json>)
    requires CString(t) && i <= |t| && forall k | 0 <= k < |acc| :: Sound(acc[k])
    ensures ItemsAt(t, i, acc).Ok? ==> Sound(ItemsAt(t, i, acc).value)
    decreases |t| - i, 1
  {
    hide ValueAt, CString;
    var r := ValueAt(t, Skip(t, i));
    ValueSound(t, Skip(t, i));
    ItemsStep(t, i, acc);
    if r.Ok? && CharAt(t, Skip(t, r.next)) == ',' {
      ItemsSound(t, Skip(t, r.next) + 1, acc + [r.value]);
    }
  }

  lemma {:induction false} MemberSound(t: string, i: nat)
    requires CString(t) && i <= |t|
    ensures MemberAt(t, i).Ok? ==> CString(MemberAt(t, i).value.name) && Sound(MemberAt(t, i).value.value)
    decreases |t| - i, 1
  {
    hide ValueAt, StringAt, CString;
    StringSound(t, Skip(t, i));
    var r := StringAt(t, Skip(t, i));
    if r.Ok? && CharAt(t, Skip(t, r.next)) == ':' {
      ValueSound(t, Skip(t, Skip(t, r.next) + 1));
    }
  }

  lemma {:induction false} MembersSound(t: string, i: nat, acc: seq<Member>)
    requires CString(t) && i <= |t| && SoundMembers(acc)
    ensures MembersAt(t, i, acc).Ok? ==> Sound(MembersAt(t, i, acc).value)
    decreases |t| - i, 2
  {
    hide MemberAt, CString;
    var r := MemberAt(t, i);
    MemberSound(t, i);
    MembersStep(t, i, acc);
    if r.Ok? && CharAt(t, Skip(t, r.next)) == ',' {
      MembersSound(t, Skip(t, r.next) + 1, acc + [r.value]);
    }
  }

  // Printing a parsed tree

  lemma {:induction false} SoundPrintable(v: Json)
    requires Sound(v)
    ensures Printable(v) <==> Integers(v)
    ensures Printable(v) ==> Norm(v) == v
    decreases v
  {
    match v {
      case Array(items) =>
        forall i | 0 <= i < |items|
          ensures (Printable(items[i]) <==> Integers(items[i])) && (Printable(items[i]) ==> Norm(items[i]) == items[i])
        {
          SoundPrintable(items[i]);
        }
        if Printable(v) {
          NormItemsSame(items);
        }
      case Object(members) =>
        forall i | 0 <= i < |members|
          ensures Printable(members[i].value) <==> Integers(members[i].value)
          ensures Printable(members[i].value) ==> Norm(members[i].value) == members[i].value
        {
          SoundPrintable(members[i].value);
        }
        if Printable(v) {
          NormMembersSame(members);
        }
      case _ =>
    }
  }

  lemma {:induction false} NormItemsSame(items: seq<Json>)
    requires forall i | 0 <= i < |items| :: Norm(items[i]) == items[i]
    ensures NormItems(items) == items
  {
    if items != [] {
      NormItemsSame(items[1..]);
    }
  }

  lemma {:induction false} NormMembersSame(members: seq<Member>)
    requires forall i | 0 <= i < |members| :: Norm(members[i].value) == members[i].value
    ensures NormMembers(members) == members
  {
    if members != [] {
      NormMembersSame(members[1..]);
    }
  }

  /**
   A tree parsed from any accepted text can be printed as modelled exactly if its
   numbers are 32-bit integers, and then the printed text parses to this very tree.
   */
  lemma {:induction false} ParsePrintParse(t: string, required: bool, fmt: bool, requiredAgain: bool)
    requires CString(t) && Parsing(t, required).Ok?
    ensures var v := Parsing(t, required).value;
            && (Printable(v) <==> Integers(v))
            && (Printable(v) ==> Parsing(Text(v, 0, fmt), requiredAgain) == Ok(v, |Text(v, 0, fmt)|))
  {
    hide ValueAt, Sound, Integers, Printable, Norm, Text, CString;
    ValueSound(t, Skip(t, 0));
    var v := Parsing(t, required).value;
    SoundPrintable(v);
    if Printable(v) {
      ParseUndoesPrint(v, fmt, requiredAgain);
    }
  }
}
