/** Serialising and parsing undo each other, and every parsed value is one that a map can hold. */
module JsonTheorems {
  import opened Bytes
  import opened Wrappers
  import opened Decimal
  import opened JsonFormat
  import opened JsonGrammar

  // ---------------------------------------------------------------- what the parser gives

  /** Setting a member keeps the members sorted, and adds no name but the new one. */
  lemma {:induction false} SetMemberKeepsSorted(ms: seq<Member>, name: seq<byte>, v: Json)
    requires Sorted(ms)
    ensures Sorted(SetMember(ms, name, v))
    ensures forall i :: 0 <= i < |SetMember(ms, name, v)| ==>
      SetMember(ms, name, v)[i] == Member(name, v) || SetMember(ms, name, v)[i] in ms
    decreases |ms|
  {
    var r := SetMember(ms, name, v);
    if ms == [] {
    } else if Less(name, ms[0].name) {
      forall j | 0 < j < |r|
        ensures Less(name, r[j].name)
      {
        if j > 1 {
          LessIsTransitive(name, ms[0].name, ms[j - 1].name);
        }
      }
    } else if name == ms[0].name {
    } else {
      SetMemberKeepsSorted(ms[1..], name, v);
      LessIsTotal(name, ms[0].name);
      forall j | 0 < j < |r|
        ensures Less(ms[0].name, r[j].name)
      {
        assert r[j] == SetMember(ms[1..], name, v)[j - 1];
      }
    }
  }

  /** Setting a member gives it the value, whatever it had before, and changes no other. */
  lemma {:induction false} SetMemberUpdates(ms: seq<Member>, name: seq<byte>, v: Json, m: Member)
    requires Sorted(ms)
    ensures m in SetMember(ms, name, v) <==> m == Member(name, v) || (m in ms && m.name != name)
    decreases |ms|
  {
    if ms != [] {
      assert ms == [ms[0]] + ms[1..];
      if Less(name, ms[0].name) || name == ms[0].name {
        if m in ms[1..] {
          OtherName(ms, name, m);
        }
        LessIsIrreflexive(name, ms[0].name);
      } else {
        SetMemberUpdates(ms[1..], name, v, m);
      }
    }
  }

  lemma OtherName(ms: seq<Member>, name: seq<byte>, m: Member)
    requires Sorted(ms) && ms != [] && m in ms[1..] && (Less(name, ms[0].name) || name == ms[0].name)
    ensures m.name != name
  {
    var i :| 0 < i < |ms| && ms[i] == m;
    if Less(name, ms[0].name) {
      LessIsTransitive(name, ms[0].name, m.name);
    }
    LessIsAsymmetric(name, m.name);
  }

  lemma LessIsIrreflexive(a: seq<byte>, b: seq<byte>)
    ensures Less(a, b) ==> a != b
  {
    if Less(a, b) {
      LessIsAsymmetric(a, b);
    }
  }

  lemma SetMemberKeepsCanonical(ms: seq<Member>, name: seq<byte>, v: Json)
    requires Canonical(Object(ms)) && Canonical(v)
    ensures Canonical(Object(SetMember(ms, name, v)))
  {
    SetMemberKeepsSorted(ms, name, v);
    var r := SetMember(ms, name, v);
    forall i | 0 <= i < |r|
      ensures Canonical(r[i].value)
    {
      if r[i] in ms {
        var j :| 0 <= j < |ms| && ms[j] == r[i];
      }
    }
  }

  lemma {:induction false} RdMembersCanonical(
    d: seq<byte>, p: nat, streams: Streams, depth: nat, acc: seq<Member>)
    requires Canonical(Object(acc)) && RdMembers(d, p, streams, depth, acc).Parsed?
    ensures Canonical(Object(RdMembers(d, p, streams, depth, acc).value))
    decreases |d| - p, 3
  {
    hide RdStr, RdMember, SkipSpace, Peek, SetMember, HasMember, Canonical;
    var m := RdMember(d, p, streams, depth, acc);
    RdMemberCanonical(d, p, streams, depth, acc);
    SetMemberKeepsCanonical(acc, m.value.name, m.value.value);
    if Peek(d, m.next) == COMMA {
      RdMembersCanonical(d, m.next + 1, streams, depth, SetMember(acc, m.value.name, m.value.value));
    }
  }

  lemma {:induction false} RdMemberCanonical(
    d: seq<byte>, p: nat, streams: Streams, depth: nat, acc: seq<Member>)
    requires RdMember(d, p, streams, depth, acc).Parsed?
    ensures Canonical(RdMember(d, p, streams, depth, acc).value.value)
    decreases |d| - p, 2
  {
    hide RdStr, HasMember, Canonical;
    var p1 := RdStr(d, SkipSpace(d, p)).next;
    RdValueCanonical(d, SkipSpace(d, SkipSpace(d, p1) + 1), streams, depth);
  }

  lemma {:induction false} RdValueCanonical(d: seq<byte>, p: nat, streams: Streams, depth: nat)
    requires RdValue(d, p, streams, depth).Parsed?
    ensures Canonical(RdValue(d, p, streams, depth).value)
    decreases |d| - p, 1
  {
    hide RdStr, RdNumber, RdLiteral;
    if Peek(d, p) == OPEN {
      RdObjectCanonical(d, p, streams, depth);
    }
  }

  lemma {:induction false} RdObjectCanonical(d: seq<byte>, p: nat, streams: Streams, depth: nat)
    requires RdObject(d, p, streams, depth).Parsed?
    ensures Canonical(Object(RdObject(d, p, streams, depth).value))
    decreases |d| - p, 0
  {
    var q := SkipSpace(d, p + 1);
    if Peek(d, q) != CLOSE {
      RdMembersCanonical(d, q, streams, depth + 1, []);
    }
  }

  // ---------------------------------------------------------------- the derivation that is written

  function Escapes(s: seq<byte>): (cs: seq<Char>)
    ensures |cs| == |s|
  {
    if s == [] then [] else [EscapeOf(s[0])] + Escapes(s[1..])
  }

  lemma EscapeDenotes(b: byte)
    ensures CharOk(EscapeOf(b)) && CharValue(EscapeOf(b)) == [b]
  {
  }

  lemma {:induction false} EscapesDenote(s: seq<byte>)
    ensures CharsOk(Escapes(s)) && CharsValue(Escapes(s)) == s && CharsText(Escapes(s)) == EscapedText(s)
  {
    hide EscapeOf, CharOk, CharValue, CharText;
    if s == [] {
    } else {
      EscapeDenotes(s[0]);
      EscapesDenote(s[1..]);
      assert Escapes(s)[1..] == Escapes(s[1..]);
      assert s == [s[0]] + s[1..];
    }
  }

  /** A value whose numbers are all exact integers. */
  predicate WholeNumbers(v: Json) {
    match v
    case Num(n) => n.Whole?
    case Object(ms) => forall i :: 0 <= i < |ms| ==> WholeNumbers(ms[i].value)
    case _ => true
  }

  function WholeNumeral(i: int): Numeral {
    Numeral(i < 0, DigitsOf(if i < 0 then -i else i), [], [])
  }

  lemma WholeNumeralDenotes(i: exact, streams: Streams)
    ensures NumeralOk(WholeNumeral(i)) && NumeralValue(WholeNumeral(i), streams) == Some(Whole(i))
    ensures NumeralText(WholeNumeral(i)) == NumberText(Whole(i), streams)
  {
    var m: nat := if i < 0 then -i else i;
    DigitsRoundTrip(m);
    DigitsLead(m);
  }

  /** A numeral that is left to the streams: it has a fraction or an exponent, or is a large integer. */
  predicate ForStreams(n: Numeral)
    requires NumeralOk(n)
  {
    n.fraction != [] || n.exponent != [] || NatOf(n.digits) > 0x20_0000_0000_0000
  }

  /** The number is printed as the legal numeral `n`, from which the streams read it back. */
  ghost predicate PrintedAs(bits: uint64, n: Numeral, streams: Streams) {
    && NumeralOk(n) && ForStreams(n)
    && NumeralText(n) == streams.write(bits)
    && streams.read(streams.write(bits)) == Some(Fractional(bits))
  }

  /** A value whose numbers that are not exact integers are printed so that they can be read back. */
  ghost predicate Printable(v: Json, streams: Streams) {
    match v
    case Num(n) => n.Whole? || exists numeral :: PrintedAs(n.bits, numeral, streams)
    case Object(ms) => forall i :: 0 <= i < |ms| ==> Printable(ms[i].value, streams)
    case _ => true
  }

  /** Exact integers need no assumption on the streams. */
  lemma {:induction false} WholeIsPrintable(v: Json, streams: Streams)
    requires WholeNumbers(v)
    ensures Printable(v, streams)
  {
    if v.Object? {
      forall i | 0 <= i < |v.members|
        ensures Printable(v.members[i].value, streams)
      {
        WholeIsPrintable(v.members[i].value, streams);
      }
    }
  }

  /** The numeral that the serialiser writes for a number. */
  ghost function NumeralOf(n: Number, streams: Streams): Numeral
    requires Printable(Num(n), streams)
  {
    match n
    case Whole(i) => WholeNumeral(i)
    case Fractional(bits) => var numeral :| PrintedAs(bits, numeral, streams); numeral
  }

  lemma NumeralDenotes(n: Number, streams: Streams)
    requires Printable(Num(n), streams)
    ensures NumeralOk(NumeralOf(n, streams)) && NumeralValue(NumeralOf(n, streams), streams) == Some(n)
    ensures NumeralText(NumeralOf(n, streams)) == NumberText(n, streams)
  {
    if n.Whole? {
      WholeNumeralDenotes(n.i, streams);
    }
  }

  /** The derivation that the serialiser writes: no white space, members in order. */
  ghost function Written(v: Json, streams: Streams): Tree
    requires Printable(v, streams)
  {
    match v
    case Null => TNull
    case Bool(b) => TBool(b)
    case Num(n) => TNum(NumeralOf(n, streams))
    case Str(s) => TStr(Escapes(s))
    case Object(ms) => TObject([], WrittenMembers(ms, streams))
  }

  ghost function WrittenMembers(ms: seq<Member>, streams: Streams): (ts: seq<TMember>)
    requires forall i :: 0 <= i < |ms| ==> Printable(ms[i].value, streams)
    ensures |ts| == |ms|
    ensures forall i :: 0 <= i < |ms| ==>
      ts[i] == TMember([], Escapes(ms[i].name), [], [], Written(ms[i].value, streams), [])
  {
    if ms == [] then []
    else
      assert Printable(ms[0].value, streams);
      [TMember([], Escapes(ms[0].name), [], [], Written(ms[0].value, streams), [])] + WrittenMembers(ms[1..], streams)
  }

  lemma {:induction false} WrittenText(v: Json, streams: Streams)
    requires Printable(v, streams)
    ensures Text(Written(v, streams)) == Serialized(v, streams)
    decreases v, 0
  {
    hide NumeralText, NumberText, EscapedText, CharsText;
    match v
    case Null =>
    case Bool(_) =>
    case Num(n) => NumeralDenotes(n, streams);
    case Str(s) => EscapesDenote(s);
    case Object(ms) =>
      if ms != [] {
        WrittenMembersText(ms, streams);
      }
  }

  lemma {:induction false} WrittenMembersText(ms: seq<Member>, streams: Streams)
    requires ms != [] && forall i :: 0 <= i < |ms| ==> Printable(ms[i].value, streams)
    ensures MembersText(WrittenMembers(ms, streams)) == SerializedMembers(ms, streams)
    decreases ms, 0
  {
    hide Text, EscapedText, CharsText, Serialized;
    var ts := WrittenMembers(ms, streams);
    EscapesDenote(ms[0].name);
    WrittenText(ms[0].value, streams);
    assert MemberText(ts[0]) == SerializedMember(ms[0], streams);
    if |ms| > 1 {
      WrittenMembersText(ms[1..], streams);
      assert ts[1..] == WrittenMembers(ms[1..], streams);
    }
  }

  lemma {:induction false} DepthBounds(ms: seq<Member>, i: nat)
    requires i < |ms|
    ensures Depth(ms[i].value) <= DepthOf(ms)
    decreases |ms|
  {
    if i > 0 {
      DepthBounds(ms[1..], i - 1);
    }
  }

  /** Setting a name greater than all others appends the member. */
  lemma {:induction false} SetMemberAppends(ms: seq<Member>, m: Member)
    requires forall i :: 0 <= i < |ms| ==> Less(ms[i].name, m.name)
    ensures SetMember(ms, m.name, m.value) == ms + [m]
    decreases |ms|
  {
    if ms != [] {
      LessIsAsymmetric(ms[0].name, m.name);
      SetMemberAppends(ms[1..], m);
      assert [ms[0]] + (ms[1..] + [m]) == ms + [m];
    }
  }

  lemma {:induction false} WrittenDenotes(v: Json, streams: Streams, depth: nat)
    requires Printable(v, streams) && Canonical(v) && Depth(v) + depth <= MAX_DEPTH
    ensures TreeOk(Written(v, streams), streams, depth) && Value(Written(v, streams), streams, depth) == v
    decreases v, 0
  {
    match v
    case Null =>
    case Bool(_) =>
    case Num(n) => NumeralDenotes(n, streams);
    case Str(s) => EscapesDenote(s);
    case Object(ms) => WrittenObjectDenotes(ms, streams, depth);
  }

  lemma {:induction false} WrittenObjectDenotes(ms: seq<Member>, streams: Streams, depth: nat)
    requires Printable(Object(ms), streams) && Canonical(Object(ms)) && Depth(Object(ms)) + depth <= MAX_DEPTH
    ensures TreeOk(Written(Object(ms), streams), streams, depth)
    ensures Value(Written(Object(ms), streams), streams, depth) == Object(ms)
    decreases ms, 1
  {
    hide Less, CharsOk, CharsValue;
    var ts := WrittenMembers(ms, streams);
    forall i | 0 <= i < |ms|
      ensures MemberOk(ts[i], streams, depth + 1)
      ensures CharsValue(ts[i].name) == ms[i].name && Value(ts[i].value, streams, depth + 1) == ms[i].value
    {
      DepthBounds(ms, i);
      EscapesDenote(ms[i].name);
      WrittenDenotes(ms[i].value, streams, depth + 1);
    }
    forall i, j | 0 <= i < j < |ms|
      ensures CharsValue(ts[i].name) != CharsValue(ts[j].name)
    {
      LessIsAsymmetric(ms[i].name, ms[j].name);
    }
    MembersSetInOrder(ms, 0, ts, streams, depth + 1);
    assert ms[..0] == [] && ts[0..] == ts;
  }

  /** Sorted members set one after the other come out as they are. */
  lemma {:induction false} MembersSetInOrder(
    ms: seq<Member>, k: nat, ts: seq<TMember>, streams: Streams, depth: nat)
    requires k <= |ms| == |ts| && Sorted(ms)
    requires forall i :: 0 <= i < |ts| ==> MemberOk(ts[i], streams, depth)
    requires forall i :: 0 <= i < |ms| ==>
      && MemberOk(ts[i], streams, depth)
      && CharsValue(ts[i].name) == ms[i].name && Value(ts[i].value, streams, depth) == ms[i].value
    ensures MembersValue(ts[k..], streams, depth, ms[..k]) == ms
    decreases |ms| - k
  {
    hide Less, MemberOk, CharsValue;
    if k < |ms| {
      SetMemberAppends(ms[..k], ms[k]);
      assert ms[..k] + [ms[k]] == ms[..k + 1];
      assert ts[k..][1..] == ts[k + 1..] && ts[k..][0] == ts[k];
      assert MemberOk(ts[k], streams, depth);
      MembersSetInOrder(ms, k + 1, ts, streams, depth);
    } else {
      assert ts[k..] == [] && ms[..k] == ms;
    }
  }

  // ---------------------------------------------------------------- the main statements

  /**
   Every object value nested at most 16 deep, whose text is short enough, is parsed back
   from its serialisation, provided that the streams read back the numbers they print.
   */
  lemma JsonRoundTrip(v: Json, streams: Streams)
    requires v.Object? && Canonical(v) && Printable(v, streams)
    requires Depth(v) <= 16 && |Serialized(v, streams)| <= 65536
    ensures ParseText(Serialized(v, streams), streams) == Some(v)
  {
    hide Serialized, ParseText, Text, TreeOk, Value, Canonical;
    WrittenText(v, streams);
    WrittenDenotes(v, streams, 0);
    var d := Serialized(v, streams);
    assert d == [] + (Text(Written(v, streams)) + []);
    GrammarIsAccepted(d, [], Written(v, streams), [], streams);
  }

  /** An object within the other limits is refused exactly when its nesting or its text is too large. */
  lemma LimitsAreExact(v: Json, streams: Streams)
    requires v.Object? && Canonical(v) && Printable(v, streams)
    ensures ParseText(Serialized(v, streams), streams) == Some(v) <==>
      Depth(v) <= 16 && |Serialized(v, streams)| <= 65536
  {
    hide Serialized, Text, TreeOk, Value, Canonical, RdObject;
    if Depth(v) <= 16 && |Serialized(v, streams)| <= 65536 {
      JsonRoundTrip(v, streams);
    } else if ParseText(Serialized(v, streams), streams) == Some(v) {
      var d := Serialized(v, streams);
      RdObjectDepth(d, SkipSpace(d, 0), streams, 0);
    }
  }

  /** Whatever the parser returns is nested no deeper than allowed. */
  lemma {:induction false} RdObjectDepth(d: seq<byte>, p: nat, streams: Streams, depth: nat)
    requires RdObject(d, p, streams, depth).Parsed? && depth <= MAX_DEPTH
    ensures depth + Depth(Object(RdObject(d, p, streams, depth).value)) <= MAX_DEPTH
    decreases |d| - p, 0
  {
    var q := SkipSpace(d, p + 1);
    if Peek(d, q) != CLOSE {
      RdMembersDepth(d, q, streams, depth + 1, []);
    }
  }

  lemma {:induction false} RdMembersDepth(d: seq<byte>, p: nat, streams: Streams, depth: nat, acc: seq<Member>)
    requires depth <= MAX_DEPTH && depth + DepthOf(acc) <= MAX_DEPTH
    requires RdMembers(d, p, streams, depth, acc).Parsed?
    ensures depth + DepthOf(RdMembers(d, p, streams, depth, acc).value) <= MAX_DEPTH
    decreases |d| - p, 3
  {
    hide RdStr, HasMember, DepthOf;
    var m := RdMember(d, p, streams, depth, acc);
    RdMemberDepth(d, p, streams, depth, acc);
    SetMemberDepth(acc, m.value.name, m.value.value);
    if Peek(d, m.next) == COMMA {
      RdMembersDepth(d, m.next + 1, streams, depth, SetMember(acc, m.value.name, m.value.value));
    }
  }

  lemma {:induction false} SetMemberDepth(ms: seq<Member>, name: seq<byte>, v: Json)
    ensures DepthOf(SetMember(ms, name, v)) <= (if Depth(v) > DepthOf(ms) then Depth(v) else DepthOf(ms))
    decreases |ms|
  {
    hide Less, Depth;
    var r := SetMember(ms, name, v);
    assert r[1..] == (if ms == [] || Less(name, ms[0].name) then ms
                      else if name == ms[0].name then ms[1..] else SetMember(ms[1..], name, v));
    if ms != [] && !Less(name, ms[0].name) && name != ms[0].name {
      SetMemberDepth(ms[1..], name, v);
    }
  }

  lemma {:induction false} RdMemberDepth(d: seq<byte>, p: nat, streams: Streams, depth: nat, acc: seq<Member>)
    requires depth <= MAX_DEPTH && RdMember(d, p, streams, depth, acc).Parsed?
    ensures depth + Depth(RdMember(d, p, streams, depth, acc).value.value) <= MAX_DEPTH
    decreases |d| - p, 2
  {
    hide RdStr, HasMember, Depth;
    var p1 := RdStr(d, SkipSpace(d, p)).next;
    RdValueDepth(d, SkipSpace(d, SkipSpace(d, p1) + 1), streams, depth);
  }

  lemma {:induction false} RdValueDepth(d: seq<byte>, p: nat, streams: Streams, depth: nat)
    requires depth <= MAX_DEPTH && RdValue(d, p, streams, depth).Parsed?
    ensures depth + Depth(RdValue(d, p, streams, depth).value) <= MAX_DEPTH
    decreases |d| - p, 1
  {
    hide RdStr, RdNumber, RdLiteral;
    if Peek(d, p) == OPEN {
      RdObjectDepth(d, p, streams, depth);
    }
  }

  /** Every parsed request is a canonical object, so serialising it and parsing again changes nothing. */
  lemma ParsedIsStable(d: seq<byte>, streams: Streams)
    requires ParseText(d, streams).Some?
    ensures var v := ParseText(d, streams).value;
      && v.Object? && Canonical(v) && Depth(v) <= 16
      && (Printable(v, streams) && |Serialized(v, streams)| <= 65536 ==>
            ParseText(Serialized(v, streams), streams) == Some(v))
  {
    hide Serialized, Canonical, RdObject;
    RdObjectCanonical(d, SkipSpace(d, 0), streams, 0);
    RdObjectDepth(d, SkipSpace(d, 0), streams, 0);
    var v := ParseText(d, streams).value;
    if Printable(v, streams) && |Serialized(v, streams)| <= 65536 {
      JsonRoundTrip(v, streams);
    }
  }
}
