/**
 The serialised text as such, without the parser's limits: it determines the value, at any depth and size,
 and it is never longer than a text with plain integers that denotes the same value.
 */
module JsonSerialization {
  import opened Bytes
  import opened Wrappers
  import opened Decimal
  import opened JsonFormat
  import opened JsonGrammar
  import opened JsonTheorems

  // ---------------------------------------------------------------- the text determines the value

  /** A value that is no object is read back wherever its text stands. */
  lemma ScalarAt(d: seq<byte>, p: nat, v: Json, streams: Streams)
    requires Printable(v, streams) && !v.Object? && At(d, p, Serialized(v, streams))
    requires EndsNumber(Peek(d, p + |Serialized(v, streams)|))
    ensures RdValue(d, p, streams, 0) == Parsed(v, p + |Serialized(v, streams)|) && Peek(d, p) != OPEN
  {
    hide At, Peek, Text, RdValue, Serialized, TreeOk, Value;
    WrittenText(v, streams);
    WrittenScalar(v, streams);
    ScalarComplete(d, p, Written(v, streams), streams, 0);
    ValueLead(d, p, Written(v, streams), streams, 0);
  }

  lemma WrittenScalar(v: Json, streams: Streams)
    requires Printable(v, streams) && !v.Object?
    ensures !Written(v, streams).TObject? && TreeOk(Written(v, streams), streams, 0)
    ensures Value(Written(v, streams), streams, 0) == v
  {
    WrittenDenotes(v, streams, 0);
  }

  /** Two values whose texts stand at the same place, each followed by what cannot continue a number. */
  lemma {:induction false} SameValueAt(d: seq<byte>, p: nat, v: Json, w: Json, streams: Streams)
    requires Printable(v, streams) && At(d, p, Serialized(v, streams)) && EndsNumber(Peek(d, p + |Serialized(v, streams)|))
    requires Printable(w, streams) && At(d, p, Serialized(w, streams)) && EndsNumber(Peek(d, p + |Serialized(w, streams)|))
    ensures v == w
    decreases v, 0
  {
    if v.Object? && w.Object? {
      hide At, Peek, SerializedMembers;
      PeekAt(d, p, OPEN, SerializedMembers(v.members, streams));
      PeekAt(d, p, OPEN, SerializedMembers(w.members, streams));
      SameMembersAt(d, p + 1, v.members, w.members, streams);
    } else if v.Object? {
      LeadOfObject(d, p, v, streams);
      ScalarAt(d, p, w, streams);
    } else if w.Object? {
      LeadOfObject(d, p, w, streams);
      ScalarAt(d, p, v, streams);
    } else {
      hide Serialized, RdValue, At, Peek;
      ScalarAt(d, p, v, streams);
      ScalarAt(d, p, w, streams);
    }
  }

  lemma LeadOfObject(d: seq<byte>, p: nat, v: Json, streams: Streams)
    requires v.Object? && At(d, p, Serialized(v, streams))
    ensures Peek(d, p) == OPEN
  {
    hide At, Peek, SerializedMembers;
    PeekAt(d, p, OPEN, SerializedMembers(v.members, streams));
  }

  lemma SerializedParts(ms: seq<Member>, streams: Streams)
    requires ms != []
    ensures var name, value := Serialized(Str(ms[0].name), streams), Serialized(ms[0].value, streams);
      var rest := if |ms| == 1 then [CLOSE] else [COMMA] + SerializedMembers(ms[1..], streams);
      SerializedMembers(ms, streams) == name + ([COLON] + (value + rest))
  {
    hide EscapedText;
    var name, value := Serialized(Str(ms[0].name), streams), Serialized(ms[0].value, streams);
    var rest := if |ms| == 1 then [CLOSE] else [COMMA] + SerializedMembers(ms[1..], streams);
    assert SerializedMembers(ms, streams) == SerializedMember(ms[0], streams) + rest;
    assert SerializedMember(ms[0], streams) == name + ([COLON] + value);
    hide Serialized, SerializedMember, SerializedMembers;
    assert (name + ([COLON] + value)) + rest == name + ([COLON] + (value + rest));
  }

  /** Where the parts of the text of a non-empty list of members stand. */
  lemma MembersPartsAt(d: seq<byte>, p: nat, ms: seq<Member>, streams: Streams)
    requires ms != [] && At(d, p, SerializedMembers(ms, streams))
    ensures var name, value := Serialized(Str(ms[0].name), streams), Serialized(ms[0].value, streams);
      var q := p + |name| + 1 + |value|;
      && At(d, p, name) && Peek(d, p) == QUOTE && Peek(d, p + |name|) == COLON && At(d, p + |name| + 1, value)
      && if |ms| == 1 then Peek(d, q) == CLOSE
         else Peek(d, q) == COMMA && At(d, q + 1, SerializedMembers(ms[1..], streams))
  {
    hide At, Peek, Serialized, SerializedMembers, EscapedText;
    var name, value := Serialized(Str(ms[0].name), streams), Serialized(ms[0].value, streams);
    var rest := if |ms| == 1 then [CLOSE] else [COMMA] + SerializedMembers(ms[1..], streams);
    SerializedParts(ms, streams);
    AtSplit(d, p, name, [COLON] + (value + rest));
    PeekAt(d, p + |name|, COLON, value + rest);
    AtSplit(d, p + |name| + 1, value, rest);
    NameLead(d, p, ms[0].name, streams);
    if |ms| == 1 {
      assert [CLOSE] + [] == [CLOSE];
      PeekAt(d, p + |name| + 1 + |value|, CLOSE, []);
    } else {
      PeekAt(d, p + |name| + 1 + |value|, COMMA, SerializedMembers(ms[1..], streams));
    }
  }

  lemma NameLead(d: seq<byte>, p: nat, name: seq<byte>, streams: Streams)
    requires At(d, p, Serialized(Str(name), streams))
    ensures Peek(d, p) == QUOTE
  {
    hide At, Peek, EscapedText;
    PeekAt(d, p, QUOTE, EscapedText(name));
  }

  lemma {:induction false} SameMembersAt(d: seq<byte>, p: nat, ms: seq<Member>, ns: seq<Member>, streams: Streams)
    requires (forall i :: 0 <= i < |ms| ==> Printable(ms[i].value, streams)) && At(d, p, SerializedMembers(ms, streams))
    requires (forall i :: 0 <= i < |ns| ==> Printable(ns[i].value, streams)) && At(d, p, SerializedMembers(ns, streams))
    ensures ms == ns
    decreases ms, 0
  {
    hide At, Peek, Serialized, SerializedMembers;
    if ms == [] || ns == [] {
      MembersLeadAt(d, p, ms, streams);
      MembersLeadAt(d, p, ns, streams);
    } else {
      MembersPartsAt(d, p, ms, streams);
      MembersPartsAt(d, p, ns, streams);
      SameNameAt(d, p, ms[0].name, ns[0].name, streams);
      var q := p + |Serialized(Str(ms[0].name), streams)| + 1;
      SameValueAt(d, q, ms[0].value, ns[0].value, streams);
      if |ms| > 1 && |ns| > 1 {
        SameMembersAt(d, q + |Serialized(ms[0].value, streams)| + 1, ms[1..], ns[1..], streams);
      }
      assert ms == [ms[0]] + ms[1..] && ns == [ns[0]] + ns[1..];
    }
  }

  lemma SameNameAt(d: seq<byte>, p: nat, a: seq<byte>, b: seq<byte>, streams: Streams)
    requires At(d, p, Serialized(Str(a), streams)) && Peek(d, p + |Serialized(Str(a), streams)|) == COLON
    requires At(d, p, Serialized(Str(b), streams)) && Peek(d, p + |Serialized(Str(b), streams)|) == COLON
    ensures a == b
  {
    hide At, Peek, Serialized, RdValue;
    ScalarAt(d, p, Str(a), streams);
    ScalarAt(d, p, Str(b), streams);
  }

  /** The members begin with a quote, or with the closing brace if there are none. */
  lemma MembersLeadAt(d: seq<byte>, p: nat, ms: seq<Member>, streams: Streams)
    requires At(d, p, SerializedMembers(ms, streams))
    ensures Peek(d, p) == if ms == [] then CLOSE else QUOTE
  {
    if ms == [] {
      PeekAt(d, p, CLOSE, []);
    } else {
      MembersPartsAt(d, p, ms, streams);
    }
  }

  /** Different values have different texts, however deep and however long they are. */
  lemma SerializationIsInjective(v: Json, w: Json, streams: Streams)
    requires Printable(v, streams) && Printable(w, streams) && Serialized(v, streams) == Serialized(w, streams)
    ensures v == w
  {
    hide Serialized;
    SameValueAt(Serialized(v, streams), 0, v, w, streams);
  }

  // ---------------------------------------------------------------- the text is the shortest

  /** A derivation in which every number is written as an integer that is exact. */
  predicate PlainNumerals(t: Tree) {
    match t
    case TNum(n) =>
      AllDigits(n.digits) && n.fraction == [] && n.exponent == [] && NatOf(n.digits) <= 0x20_0000_0000_0000
    case TObject(_, ms) => forall i :: 0 <= i < |ms| ==> PlainNumerals(ms[i].value)
    case _ => true
  }

  lemma {:induction false} EscapedTogether(a: seq<byte>, b: seq<byte>)
    ensures |EscapedText(a + b)| + 1 == |EscapedText(a)| + |EscapedText(b)|
  {
    hide CharText, EscapeOf;
    if a == [] {
      assert a + b == b;
    } else {
      EscapedTogether(a[1..], b);
      assert (a + b)[1..] == a[1..] + b;
    }
  }

  /** Whatever way a character was written, writing what it stands for takes no more. */
  lemma CharShrinks(c: Char)
    requires CharOk(c)
    ensures |EscapedText(CharValue(c))| <= |CharText(c)| + 1
  {
    var s := CharValue(c);
    match c
    case Raw(b) => assert s[1..] == [];
    case Short(_) => assert s[1..] == [];
    case Hex(_, _, _, _) => Utf8Shrinks(HexValue(c).value);
  }

  lemma OneByte(b: byte)
    ensures |EscapedText([b])| == 1 + |CharText(EscapeOf(b))| <= 7
    ensures b >= 0x80 ==> |EscapedText([b])| == 2
  {
    assert [b][1..] == [] && EscapedText([]) == [QUOTE];
    assert EscapedText([b]) == CharText(EscapeOf(b)) + EscapedText([b][1..]);
  }

  lemma Utf8Shrinks(n: nat)
    requires n < 0x1_0000
    ensures |EscapedText(Utf8(n))| <= 7
  {
    hide EscapedText, EscapeOf, CharText;
    var s := Utf8(n);
    OneByte(s[0]);
    if n < 0x80 {
      assert s == [s[0]];
    } else {
      OneByte(s[1]);
      EscapedTogether([s[0]], [s[1]]);
      if n < 0x800 {
        assert s == [s[0]] + [s[1]];
      } else {
        OneByte(s[2]);
        EscapedTogether([s[0]] + [s[1]], [s[2]]);
        assert s == [s[0]] + [s[1]] + [s[2]];
      }
    }
  }

  lemma {:induction false} CharsShrink(cs: seq<Char>)
    requires CharsOk(cs)
    ensures |EscapedText(CharsValue(cs))| <= |CharsText(cs)|
  {
    hide CharText, CharValue, CharOk;
    if cs == [] {
    } else {
      CharShrinks(cs[0]);
      CharsShrink(cs[1..]);
      EscapedTogether(CharValue(cs[0]), CharsValue(cs[1..]));
    }
  }

  lemma {:induction false} DigitsShrink(s: seq<byte>)
    requires s != [] && AllDigits(s)
    ensures |DigitsOf(NatOf(s))| <= |s|
  {
    var n := NatOf(s);
    if |s| == 1 {
      assert NatOf(s[..0]) == 0;
    } else {
      DigitsShrink(s[..|s| - 1]);
      assert NatOf(s[..|s| - 1]) == n / 10;
    }
  }

  lemma NumeralShrinks(n: Numeral, streams: Streams)
    requires NumeralOk(n) && PlainNumerals(TNum(n))
    ensures NumeralValue(n, streams).Some? && NumeralValue(n, streams).value.Whole?
    ensures |NumberText(NumeralValue(n, streams).value, streams)| <= |NumeralText(n)|
  {
    hide DigitsOf;
    DigitsShrink(n.digits);
  }

  /** A new member adds its own text, and a comma unless it is the only one. */
  lemma {:induction false} SetMemberAdds(ms: seq<Member>, name: seq<byte>, v: Json, streams: Streams)
    requires !HasMember(ms, name)
    ensures |SerializedMembers(SetMember(ms, name, v), streams)|
      == |SerializedMembers(ms, streams)| + |SerializedMember(Member(name, v), streams)| + if ms == [] then 0 else 1
    decreases |ms|
  {
    hide SerializedMember, Less;
    if ms == [] {
    } else if Less(name, ms[0].name) {
      assert ([Member(name, v)] + ms)[1..] == ms;
    } else {
      assert !HasMember(ms[1..], name) by {
        NotAmongTheRest(ms, name);
      }
      SetMemberAdds(ms[1..], name, v, streams);
      var rest := SetMember(ms[1..], name, v);
      assert ms[0].name != name && ([ms[0]] + rest)[1..] == rest && rest != [];
    }
  }

  lemma NotAmongTheRest(ms: seq<Member>, name: seq<byte>)
    requires ms != [] && !HasMember(ms, name)
    ensures ms[0].name != name && !HasMember(ms[1..], name)
  {
  }

  lemma {:induction false} TreeShrinks(t: Tree, streams: Streams, depth: nat)
    requires TreeOk(t, streams, depth) && PlainNumerals(t)
    ensures WholeNumbers(Value(t, streams, depth))
    ensures |Serialized(Value(t, streams, depth), streams)| <= |Text(t)|
    decreases t, 0
  {
    hide NumeralText, NumberText, NumeralValue, CharsText, EscapedText, MembersText, SerializedMembers;
    match t
    case TNull =>
    case TBool(_) =>
    case TNum(n) => NumeralShrinks(n, streams);
    case TStr(cs) => CharsShrink(cs);
    case TObject(ws, ms) =>
      ObjectParts(t, streams, depth);
      if ms == [] {
        NothingSerialized(streams);
      } else {
        MembersShrink(ms, streams, depth + 1, []);
        NothingSerialized(streams);
      }
  }

  lemma NothingSerialized(streams: Streams)
    ensures |SerializedMembers([], streams)| == 1
  {
  }

  lemma {:induction false} MembersShrink(ms: seq<TMember>, streams: Streams, depth: nat, acc: seq<Member>)
    requires ms != [] && NamesNew(ms, acc)
    requires forall i :: 0 <= i < |ms| ==> MemberOk(ms[i], streams, depth) && PlainNumerals(ms[i].value)
    requires forall i :: 0 <= i < |acc| ==> WholeNumbers(acc[i].value)
    ensures var r := MembersValue(ms, streams, depth, acc);
      && (forall i :: 0 <= i < |r| ==> WholeNumbers(r[i].value))
      && |SerializedMembers(r, streams)| + (if acc == [] then 1 else 0) <= |SerializedMembers(acc, streams)| + |MembersText(ms)|
    decreases ms, 0
  {
    hide Serialized, SerializedMembers, SerializedMember, MemberText, CharsValue, HasMember, SetMember, NamesNew, MemberOk,
      PlainNumerals, Value, WholeNumbers;
    var m := ms[0];
    assert MemberOk(m, streams, depth) && PlainNumerals(m.value);
    MemberNameOk(m, streams, depth);
    var name, v := CharsValue(m.name), Value(m.value, streams, depth);
    TreeShrinks(m.value, streams, depth);
    MemberShrinks(m, streams, depth);
    NamesNewNext(ms, acc, v);
    SetMemberAdds(acc, name, v, streams);
    SetMemberWhole(acc, name, v);
    var acc' := SetMember(acc, name, v);
    if |ms| == 1 {
      assert ms[1..] == [];
    } else {
      MembersShrink(ms[1..], streams, depth, acc');
    }
  }

  lemma {:induction false} SetMemberWhole(ms: seq<Member>, name: seq<byte>, v: Json)
    requires WholeNumbers(v) && forall i :: 0 <= i < |ms| ==> WholeNumbers(ms[i].value)
    ensures SetMember(ms, name, v) != []
    ensures forall i :: 0 <= i < |SetMember(ms, name, v)| ==> WholeNumbers(SetMember(ms, name, v)[i].value)
    decreases |ms|
  {
    hide WholeNumbers, Less;
    if ms != [] && !Less(name, ms[0].name) && name != ms[0].name {
      SetMemberWhole(ms[1..], name, v);
    }
  }

  lemma MemberShrinks(m: TMember, streams: Streams, depth: nat)
    requires MemberOk(m, streams, depth)
    requires |Serialized(Value(m.value, streams, depth), streams)| <= |Text(m.value)|
    ensures |SerializedMember(Member(CharsValue(m.name), Value(m.value, streams, depth)), streams)| <= |MemberText(m)|
  {
    hide Serialized, Text, TreeOk, Value, CharsText, CharsValue, EscapedText, CharsOk;
    CharsShrink(m.name);
  }

  /**
   Every request whose numbers are plain integers is stable: its value serialises to a text that is no longer,
   and parsing that changes nothing.
   */
  lemma PlainTextIsStable(d: seq<byte>, lead: seq<byte>, t: Tree, trail: seq<byte>, streams: Streams)
    requires Derives(d, lead, t, trail, streams) && |d| <= MAX_INPUT_BYTES && PlainNumerals(t)
    ensures var v := Value(t, streams, 0);
      && ParseText(d, streams) == Some(v)
      && |Serialized(v, streams)| <= |d|
      && ParseText(Serialized(v, streams), streams) == Some(v)
  {
    hide ParseText, TreeOk, Value, Serialized, Text, WholeNumbers, Printable, PlainNumerals, Canonical;
    GrammarIsAccepted(d, lead, t, trail, streams);
    TreeShrinks(t, streams, 0);
    WholeIsPrintable(Value(t, streams, 0), streams);
    ParsedIsStable(d, streams);
  }
}
