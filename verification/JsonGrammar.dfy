/**
 The parser accepts exactly the texts that the grammar derives, and returns the value that the
 derivation denotes; that value is therefore the same for every derivation of a text.
 */
module JsonGrammar {
  import opened Bytes
  import opened Wrappers
  import opened Decimal
  import opened JsonFormat

  // ---------------------------------------------------------------- completeness

  lemma {:induction false} SpaceComplete(d: seq<byte>, p: nat, ws: seq<byte>)
    requires At(d, p, ws) && AllSpace(ws)
    requires !IsSpace(Peek(d, p + |ws|))
    ensures SkipSpace(d, p) == p + |ws|
    decreases |ws|
  {
    if ws == [] {
    } else {
      assert ws == [ws[0]] + ws[1..];
      AtSplit(d, p, [ws[0]], ws[1..]);
      assert d[p..p + 1][0] == ws[0];
      SpaceComplete(d, p + 1, ws[1..]);
    }
  }

  /** White space is also skipped in two goes. */
  lemma {:induction false} SkipTwice(d: seq<byte>, p: nat)
    ensures SkipSpace(d, SkipSpace(d, p)) == SkipSpace(d, p)
    decreases |d| - p
  {
    if p < |d| && IsSpace(d[p]) {
      SkipTwice(d, p + 1);
    }
  }

  lemma PeekAt(d: seq<byte>, p: nat, b: byte, rest: seq<byte>)
    requires At(d, p, [b] + rest)
    ensures Peek(d, p) == b && p < |d| && At(d, p + 1, rest)
  {
    AtSplit(d, p, [b], rest);
    assert d[p..p + 1][0] == b;
  }

  lemma CharComplete(d: seq<byte>, p: nat, c: Char)
    requires CharOk(c) && !c.Raw? && At(d, p, CharText(c))
    ensures Peek(d, p) == BACKSLASH && p < |d|
    ensures RdEscape(d, p + 1) == Parsed(CharValue(c), p + |CharText(c)|)
  {
    match c
    case Short(l) =>
      assert CharText(c) == [BACKSLASH] + [l];
      PeekAt(d, p, BACKSLASH, [l]);
      PeekAt(d, p + 1, l, []);
    case Hex(x, y, z, w) =>
      assert CharText(c) == [BACKSLASH] + ([LETTER_U] + ([x] + ([y] + ([z] + ([w] + [])))));
      PeekAt(d, p, BACKSLASH, [LETTER_U] + ([x] + ([y] + ([z] + ([w] + [])))));
      PeekAt(d, p + 1, LETTER_U, [x] + ([y] + ([z] + ([w] + []))));
      PeekAt(d, p + 2, x, [y] + ([z] + ([w] + [])));
      PeekAt(d, p + 3, y, [z] + ([w] + []));
      PeekAt(d, p + 4, z, [w] + []);
      PeekAt(d, p + 5, w, []);
      QuadAt(d, p + 2);
  }

  /** Four hex digits in a row, read one by one. */
  lemma QuadAt(d: seq<byte>, p: nat)
    requires p + 4 <= |d|
    requires HexValue(Hex(d[p], d[p + 1], d[p + 2], d[p + 3])).Some?
    ensures RdHexQuad(d, p, 4, 0) == Parsed(HexValue(Hex(d[p], d[p + 1], d[p + 2], d[p + 3])).value, p + 4)
  {
    var a, b, c, e := HexDigit(d[p]).value, HexDigit(d[p + 1]).value, HexDigit(d[p + 2]).value, HexDigit(d[p + 3]).value;
    assert RdHexQuad(d, p, 4, 0) == RdHexQuad(d, p + 1, 3, a);
    assert RdHexQuad(d, p + 1, 3, a) == RdHexQuad(d, p + 2, 2, a * 16 + b);
    assert RdHexQuad(d, p + 2, 2, a * 16 + b) == RdHexQuad(d, p + 3, 1, (a * 16 + b) * 16 + c);
    assert RdHexQuad(d, p + 3, 1, (a * 16 + b) * 16 + c) == RdHexQuad(d, p + 4, 0, ((a * 16 + b) * 16 + c) * 16 + e);
  }

  lemma {:induction false} CharsComplete(d: seq<byte>, p: nat, cs: seq<Char>)
    requires CharsOk(cs) && At(d, p, CharsText(cs))
    ensures RdChars(d, p) == Parsed(CharsValue(cs), p + |CharsText(cs)|)
    decreases |cs|
  {
    hide RdEscape, CharText, CharValue;
    if cs == [] {
      PeekAt(d, p, QUOTE, []);
    } else {
      var c := cs[0];
      AtSplit(d, p, CharText(c), CharsText(cs[1..]));
      CharsComplete(d, p + |CharText(c)|, cs[1..]);
      if c.Raw? {
        RawText(c);
        PeekAt(d, p, c.b, []);
      } else {
        CharComplete(d, p, c);
      }
    }
  }

  lemma RawText(c: Char)
    requires c.Raw? && CharOk(c)
    ensures CharText(c) == [c.b] && CharValue(c) == [c.b] && c.b >= 0x20 && c.b != QUOTE && c.b != BACKSLASH
  {
  }

  lemma StrComplete(d: seq<byte>, p: nat, cs: seq<Char>)
    requires CharsOk(cs) && At(d, p, [QUOTE] + CharsText(cs))
    ensures RdStr(d, p) == Parsed(CharsValue(cs), p + |[QUOTE] + CharsText(cs)|)
  {
    PeekAt(d, p, QUOTE, CharsText(cs));
    CharsComplete(d, p + 1, cs);
  }

  lemma {:induction false} DigitsComplete(d: seq<byte>, p: nat, s: seq<byte>)
    requires At(d, p, s) && AllDigits(s) && !IsDigit(Peek(d, p + |s|))
    ensures SkipDigits(d, p) == p + |s|
    decreases |s|
  {
    if s == [] {
    } else {
      assert s == [s[0]] + s[1..];
      PeekAt(d, p, s[0], s[1..]);
      DigitsComplete(d, p + 1, s[1..]);
    }
  }

  /** A byte that cannot continue a number. */
  predicate EndsNumber(b: byte) {
    !IsDigit(b) && b != POINT && b !in {0x65, 0x45}
  }

  lemma FractionComplete(d: seq<byte>, p: nat, s: seq<byte>)
    requires FractionOk(s) && At(d, p, s) && !IsDigit(Peek(d, p + |s|)) && Peek(d, p + |s|) != POINT
    ensures RdFraction(d, p) == Parsed((), p + |s|)
  {
    if s != [] {
      assert s == [s[0]] + s[1..];
      PeekAt(d, p, POINT, s[1..]);
      assert s[1..] == [s[1]] + s[2..];
      PeekAt(d, p + 1, s[1], s[2..]);
      DigitsComplete(d, p + 1, s[1..]);
    }
  }

  lemma ExponentComplete(d: seq<byte>, p: nat, s: seq<byte>)
    requires ExponentOk(s) && At(d, p, s) && EndsNumber(Peek(d, p + |s|))
    ensures RdExponent(d, p) == Parsed((), p + |s|)
  {
    if s != [] {
      assert s == [s[0]] + s[1..];
      PeekAt(d, p, s[0], s[1..]);
      assert s[1..] == [s[1]] + s[2..];
      PeekAt(d, p + 1, s[1], s[2..]);
      if s[1] in {0x2B, 0x2D} {
        assert s[2..] == [s[2]] + s[3..];
        PeekAt(d, p + 2, s[2], s[3..]);
        DigitsComplete(d, p + 2, s[2..]);
      } else {
        DigitsComplete(d, p + 1, s[1..]);
      }
    }
  }

  /** A number read part by part. */
  lemma NumeralAssembles(d: seq<byte>, p: nat, n: Numeral, start: nat, p1: nat, p2: nat, p3: nat)
    requires n.negative == (Peek(d, p) == MINUS) && start == (if n.negative then p + 1 else p)
    requires start <= p1 <= p2 <= p3 <= |d|
    requires RdInteger(d, start) == Parsed((), p1) && d[start..p1] == n.digits
    requires RdFraction(d, p1) == Parsed((), p2) && d[p1..p2] == n.fraction
    requires RdExponent(d, p2) == Parsed((), p3) && d[p2..p3] == n.exponent
    ensures RdNumeral(d, p) == Parsed(n, p3)
  {
    hide RdInteger, RdFraction, RdExponent;
  }

  lemma IntegerComplete(d: seq<byte>, p: nat, s: seq<byte>)
    requires s != [] && AllDigits(s) && (s[0] == ZERO ==> |s| == 1) && At(d, p, s)
    requires !IsDigit(Peek(d, p + |s|))
    ensures RdInteger(d, p) == Parsed((), p + |s|) && Peek(d, p) == s[0]
  {
    assert s == [s[0]] + s[1..];
    PeekAt(d, p, s[0], s[1..]);
    DigitsComplete(d, p, s);
  }

  lemma NumeralComplete(d: seq<byte>, p: nat, n: Numeral)
    requires NumeralOk(n) && At(d, p, NumeralText(n)) && EndsNumber(Peek(d, p + |NumeralText(n)|))
    ensures RdNumeral(d, p) == Parsed(n, p + |NumeralText(n)|)
    ensures Peek(d, p) == (if n.negative then MINUS else n.digits[0])
  {
    hide At, RdInteger, RdFraction, RdExponent, FractionOk, ExponentOk, Peek, RdNumeral;
    var sign := if n.negative then [MINUS] else [];
    var start := p + |sign|;
    var p1 := start + |n.digits|;
    var p2 := p1 + |n.fraction|;
    AtSplit(d, p, sign, n.digits + (n.fraction + n.exponent));
    AtSplit(d, start, n.digits, n.fraction + n.exponent);
    AtSplit(d, p1, n.fraction, n.exponent);
    if n.negative {
      assert sign == [MINUS] + [];
      PeekAt(d, p, MINUS, []);
    }
    AtSlice(d, start, n.digits);
    AtSlice(d, p1, n.fraction);
    AtSlice(d, p2, n.exponent);
    FractionLead(d, p1, n.fraction);
    ExponentLead(d, p2, n.exponent);
    IntegerComplete(d, start, n.digits);
    FractionComplete(d, p1, n.fraction);
    ExponentComplete(d, p2, n.exponent);
    NumeralAssembles(d, p, n, start, p1, p2, p2 + |n.exponent|);
  }

  lemma AtSlice(d: seq<byte>, p: nat, e: seq<byte>)
    requires At(d, p, e)
    ensures p + |e| <= |d| && d[p..p + |e|] == e
  {
  }

  lemma FractionLead(d: seq<byte>, p: nat, s: seq<byte>)
    requires FractionOk(s) && At(d, p, s)
    ensures s != [] ==> Peek(d, p) == POINT
  {
    if s != [] {
      assert s == [s[0]] + s[1..];
      PeekAt(d, p, s[0], s[1..]);
    }
  }

  lemma ExponentLead(d: seq<byte>, p: nat, s: seq<byte>)
    requires ExponentOk(s) && At(d, p, s)
    ensures s != [] ==> Peek(d, p) in {0x65, 0x45}
  {
    if s != [] {
      assert s == [s[0]] + s[1..];
      PeekAt(d, p, s[0], s[1..]);
    }
  }

  lemma LiteralComplete(d: seq<byte>, p: nat, b: byte, rest: seq<byte>)
    requires At(d, p, [b] + rest)
    ensures Peek(d, p) == b && RdLiteral(d, p, [b] + rest) == Parsed((), p + |[b] + rest|)
  {
    PeekAt(d, p, b, rest);
  }

  /** The first byte of a value is no white space, so white space before it is skipped exactly. */
  lemma ValueLead(d: seq<byte>, p: nat, t: Tree, streams: Streams, depth: nat)
    requires TreeOk(t, streams, depth) && At(d, p, Text(t))
    ensures !IsSpace(Peek(d, p)) && (t.TObject? <==> Peek(d, p) == OPEN)
  {
    match t
    case TNull => LiteralComplete(d, p, NULL_TEXT[0], NULL_TEXT[1..]);
    case TBool(b) =>
      if b {
        LiteralComplete(d, p, TRUE_TEXT[0], TRUE_TEXT[1..]);
      } else {
        LiteralComplete(d, p, FALSE_TEXT[0], FALSE_TEXT[1..]);
      }
    case TNum(n) =>
      var s := NumeralText(n);
      assert s == [s[0]] + s[1..];
      PeekAt(d, p, s[0], s[1..]);
    case TStr(cs) => PeekAt(d, p, QUOTE, CharsText(cs));
    case TObject(ws, ms) => PeekAt(d, p, OPEN, ws + (if ms == [] then [CLOSE] else MembersText(ms)));
  }

  lemma ScalarComplete(d: seq<byte>, p: nat, t: Tree, streams: Streams, depth: nat)
    requires TreeOk(t, streams, depth) && !t.TObject? && At(d, p, Text(t))
    requires t.TNum? ==> EndsNumber(Peek(d, p + |Text(t)|))
    ensures RdValue(d, p, streams, depth) == Parsed(Value(t, streams, depth), p + |Text(t)|)
  {
    hide RdNumeral, NumeralOk, NumeralValue, CharsText, RdStr;
    match t
    case TNull => LiteralComplete(d, p, NULL_TEXT[0], NULL_TEXT[1..]);
    case TBool(b) =>
      if b {
        LiteralComplete(d, p, TRUE_TEXT[0], TRUE_TEXT[1..]);
      } else {
        LiteralComplete(d, p, FALSE_TEXT[0], FALSE_TEXT[1..]);
      }
    case TNum(n) =>
      NumeralComplete(d, p, n);
      NumeralDigit(n);
    case TStr(cs) =>
      PeekAt(d, p, QUOTE, CharsText(cs));
      StrComplete(d, p, cs);
  }

  lemma NumeralDigit(n: Numeral)
    requires NumeralOk(n)
    ensures n.digits != [] && IsDigit(n.digits[0])
  {
  }

  lemma {:induction false} HasMemberAfterSet(ms: seq<Member>, name: seq<byte>, v: Json, other: seq<byte>)
    ensures HasMember(SetMember(ms, name, v), other) <==> HasMember(ms, other) || other == name
  {
    var r := SetMember(ms, name, v);
    if ms == [] {
      assert r[0].name == name;
    } else if Less(name, ms[0].name) {
      assert r[0].name == name && forall i :: 0 <= i < |ms| ==> r[i + 1] == ms[i];
    } else if name == ms[0].name {
      assert r[0].name == name && ms[0].name == name;
      assert forall i :: 1 <= i < |ms| ==> r[i] == ms[i];
    } else {
      HasMemberAfterSet(ms[1..], name, v, other);
      assert r[0] == ms[0] && r[1..] == SetMember(ms[1..], name, v);
      assert forall i :: 1 <= i < |r| ==> r[i] == r[1..][i - 1];
      assert forall i :: 0 <= i < |r[1..]| ==> r[1..][i] == r[i + 1];
      assert forall i :: 1 <= i < |ms| ==> ms[i] == ms[1..][i - 1];
      assert forall i :: 0 <= i < |ms[1..]| ==> ms[1..][i] == ms[i + 1];
    }
  }

  /** The names are new after `acc`, and distinct. */
  predicate NamesNew(ms: seq<TMember>, acc: seq<Member>) {
    && (forall i :: 0 <= i < |ms| ==> !HasMember(acc, CharsValue(ms[i].name)))
    && (forall i, j :: 0 <= i < j < |ms| ==> CharsValue(ms[i].name) != CharsValue(ms[j].name))
  }

  lemma {:induction false} MemberComplete(
    d: seq<byte>, p: nat, m: TMember, streams: Streams, depth: nat, acc: seq<Member>)
    requires MemberOk(m, streams, depth) && At(d, p, MemberText(m))
    requires !HasMember(acc, CharsValue(m.name))
    requires Peek(d, p + |MemberText(m)|) in {COMMA, CLOSE}
    ensures RdMember(d, p, streams, depth, acc)
      == Parsed(Member(CharsValue(m.name), Value(m.value, streams, depth)), p + |MemberText(m)|)
    decreases m, 0
  {
    hide At, CharsText, CharsValue, RdStr, HasMember, Text, AllSpace, Value, TreeOk, SkipSpace, RdValue, MemberText, Peek;
    var p0 := p + |m.before|;
    var p1 := p0 + 1 + |CharsText(m.name)|;
    var p2 := p1 + |m.afterName|;
    var p3 := p2 + 1 + |m.afterColon|;
    var p4 := p3 + |Text(m.value)|;
    MemberTextParts(d, p, m);
    SpaceComplete(d, p, m.before);
    StrComplete(d, p0, m.name);
    SpaceComplete(d, p1, m.afterName);
    ValueLead(d, p3, m.value, streams, depth);
    SpaceComplete(d, p2 + 1, m.afterColon);
    SpaceEndsNumber(d, p4, m.afterValue);
    ValueComplete(d, p3, m.value, streams, depth);
    SpaceComplete(d, p4, m.afterValue);
  }

  /** Where the parts of a member's text stand. */
  lemma MemberTextParts(d: seq<byte>, p: nat, m: TMember)
    requires At(d, p, MemberText(m))
    ensures var p0 := p + |m.before|;
      var p1 := p0 + 1 + |CharsText(m.name)|;
      var p2 := p1 + |m.afterName|;
      var p3 := p2 + 1 + |m.afterColon|;
      var p4 := p3 + |Text(m.value)|;
      && At(d, p, m.before) && At(d, p0, [QUOTE] + CharsText(m.name)) && Peek(d, p0) == QUOTE
      && At(d, p1, m.afterName) && Peek(d, p2) == COLON && At(d, p2 + 1, m.afterColon)
      && At(d, p3, Text(m.value)) && At(d, p4, m.afterValue) && p + |MemberText(m)| == p4 + |m.afterValue|
  {
    hide At, CharsText, Text, Peek;
    var name := [QUOTE] + CharsText(m.name);
    var afterText := Text(m.value) + m.afterValue;
    var r3 := [COLON] + (m.afterColon + afterText);
    AtSplit(d, p, m.before, name + (m.afterName + r3));
    var p0 := p + |m.before|;
    AtSplit(d, p0, name, m.afterName + r3);
    var p1 := p0 + |name|;
    AtSplit(d, p1, m.afterName, r3);
    var p2 := p1 + |m.afterName|;
    PeekAt(d, p2, COLON, m.afterColon + afterText);
    AtSplit(d, p2 + 1, m.afterColon, afterText);
    AtSplit(d, p2 + 1 + |m.afterColon|, Text(m.value), m.afterValue);
    PeekAt(d, p0, QUOTE, CharsText(m.name));
  }

  lemma SpaceEndsNumber(d: seq<byte>, p: nat, ws: seq<byte>)
    requires At(d, p, ws) && AllSpace(ws) && Peek(d, p + |ws|) in {COMMA, CLOSE}
    ensures EndsNumber(Peek(d, p))
  {
    if ws != [] {
      assert ws == [ws[0]] + ws[1..];
      PeekAt(d, p, ws[0], ws[1..]);
    }
  }

  lemma {:induction false} MembersComplete(
    d: seq<byte>, p: nat, ms: seq<TMember>, streams: Streams, depth: nat, acc: seq<Member>)
    requires ms != [] && At(d, p, MembersText(ms))
    requires forall i :: 0 <= i < |ms| ==> MemberOk(ms[i], streams, depth)
    requires NamesNew(ms, acc)
    ensures RdMembers(d, p, streams, depth, acc)
      == Parsed(MembersValue(ms, streams, depth, acc), p + |MembersText(ms)|)
    decreases ms, 0
  {
    hide At, Peek, MemberText, MembersText, MemberOk, CharsValue, RdMember, HasMember, SetMember, Value, NamesNew;
    var m, q := ms[0], p + |MemberText(ms[0])|;
    MembersTextParts(d, p, ms);
    MemberNameOk(m, streams, depth);
    NamesNewNext(ms, acc, Value(m.value, streams, depth));
    MemberComplete(d, p, m, streams, depth, acc);
    if |ms| == 1 {
      assert ms[1..] == [];
    } else {
      MembersComplete(d, q + 1, ms[1..], streams, depth, SetMember(acc, CharsValue(m.name), Value(m.value, streams, depth)));
    }
  }

  /** Where the first member of a list of members stands, and what follows it. */
  lemma MembersTextParts(d: seq<byte>, p: nat, ms: seq<TMember>)
    requires ms != [] && At(d, p, MembersText(ms))
    ensures var q := p + |MemberText(ms[0])|;
      && At(d, p, MemberText(ms[0]))
      && (if |ms| == 1 then Peek(d, q) == CLOSE && p + |MembersText(ms)| == q + 1
          else Peek(d, q) == COMMA && At(d, q + 1, MembersText(ms[1..]))
               && p + |MembersText(ms)| == q + 1 + |MembersText(ms[1..])|)
  {
    hide MemberText;
    var q := p + |MemberText(ms[0])|;
    var tail := if |ms| == 1 then [CLOSE] else [COMMA] + MembersText(ms[1..]);
    AtSplit(d, p, MemberText(ms[0]), tail);
    if |ms| == 1 {
      PeekAt(d, q, CLOSE, []);
    } else {
      PeekAt(d, q, COMMA, MembersText(ms[1..]));
    }
  }

  /** With the first member stored, the names of the others are new still. */
  lemma NamesNewNext(ms: seq<TMember>, acc: seq<Member>, v: Json)
    requires ms != [] && NamesNew(ms, acc)
    ensures !HasMember(acc, CharsValue(ms[0].name)) && NamesNew(ms[1..], SetMember(acc, CharsValue(ms[0].name), v))
  {
    hide CharsValue, HasMember, SetMember;
    forall i | 0 <= i < |ms[1..]|
      ensures !HasMember(SetMember(acc, CharsValue(ms[0].name), v), CharsValue(ms[1..][i].name))
    {
      HasMemberAfterSet(acc, CharsValue(ms[0].name), v, CharsValue(ms[i + 1].name));
    }
  }

  /** What an object derivation has to obey, part by part. */
  lemma ObjectParts(t: Tree, streams: Streams, depth: nat)
    requires t.TObject? && TreeOk(t, streams, depth)
    ensures AllSpace(t.inner) && depth < MAX_DEPTH && NamesNew(t.members, [])
    ensures forall i :: 0 <= i < |t.members| ==> MemberOk(t.members[i], streams, depth + 1)
    ensures Value(t, streams, depth) == Object(MembersValue(t.members, streams, depth + 1, []))
  {
  }

  /** Where the parts of an object's text stand. */
  lemma ObjectText(d: seq<byte>, p: nat, t: Tree)
    requires t.TObject? && At(d, p, Text(t))
    ensures Peek(d, p) == OPEN && p < |d| && At(d, p + 1, t.inner)
    ensures var q := p + 1 + |t.inner|;
      if t.members == [] then q < |d| && Peek(d, q) == CLOSE && p + |Text(t)| == q + 1
      else At(d, q, MembersText(t.members)) && p + |Text(t)| == q + |MembersText(t.members)|
  {
    hide At, MembersText;
    var tail := if t.members == [] then [CLOSE] else MembersText(t.members);
    PeekAt(d, p, OPEN, t.inner + tail);
    AtSplit(d, p + 1, t.inner, tail);
    if t.members == [] {
      assert tail == [CLOSE] + [];
      PeekAt(d, p + 1 + |t.inner|, CLOSE, []);
    }
  }

  lemma {:induction false} ObjectComplete(d: seq<byte>, p: nat, t: Tree, streams: Streams, depth: nat)
    requires t.TObject? && TreeOk(t, streams, depth) && At(d, p, Text(t))
    ensures RdObject(d, p, streams, depth)
      == Parsed(Value(t, streams, depth).members, p + |Text(t)|)
    decreases t, 0
  {
    hide At, Text, MembersText, RdMembers, TreeOk, Value, NamesNew, AllSpace, MemberOk;
    ObjectParts(t, streams, depth);
    ObjectText(d, p, t);
    var ws, ms := t.inner, t.members;
    var q := p + 1 + |ws|;
    if ms == [] {
      SpaceComplete(d, p + 1, ws);
    } else {
      MembersComplete(d, q, ms, streams, depth + 1, []);
      LeadingSpace(d, p + 1, ws);
      MembersLead(d, q, streams, depth + 1, []);
      MembersFromLaterSpace(d, q, streams, depth + 1, []);
    }
  }

  /** White space in front of the members changes nothing. */
  lemma MembersFromLaterSpace(d: seq<byte>, p: nat, streams: Streams, depth: nat, acc: seq<Member>)
    ensures RdMembers(d, SkipSpace(d, p), streams, depth, acc) == RdMembers(d, p, streams, depth, acc)
  {
    SkipTwice(d, p);
    assert RdMember(d, SkipSpace(d, p), streams, depth, acc) == RdMember(d, p, streams, depth, acc);
  }

  lemma {:induction false} LeadingSpace(d: seq<byte>, p: nat, ws: seq<byte>)
    requires AllSpace(ws) && At(d, p, ws)
    ensures SkipSpace(d, p) == SkipSpace(d, p + |ws|)
    decreases |ws|
  {
    if ws != [] {
      assert ws == [ws[0]] + ws[1..];
      PeekAt(d, p, ws[0], ws[1..]);
      LeadingSpace(d, p + 1, ws[1..]);
    }
  }

  lemma MembersLead(d: seq<byte>, p: nat, streams: Streams, depth: nat, acc: seq<Member>)
    requires RdMembers(d, p, streams, depth, acc).Parsed?
    ensures Peek(d, SkipSpace(d, p)) == QUOTE
  {
  }

  lemma {:induction false} ValueComplete(d: seq<byte>, p: nat, t: Tree, streams: Streams, depth: nat)
    requires TreeOk(t, streams, depth) && At(d, p, Text(t))
    requires t.TNum? ==> EndsNumber(Peek(d, p + |Text(t)|))
    ensures RdValue(d, p, streams, depth) == Parsed(Value(t, streams, depth), p + |Text(t)|)
    decreases t, 1
  {
    if t.TObject? {
      ValueLead(d, p, t, streams, depth);
      ObjectComplete(d, p, t, streams, depth);
    } else {
      ScalarComplete(d, p, t, streams, depth);
    }
  }

  /** Where the object of a derived text is read, to what, and that nothing but white space follows it. */
  lemma DerivedIsRead(d: seq<byte>, lead: seq<byte>, t: Tree, trail: seq<byte>, streams: Streams)
    requires Derives(d, lead, t, trail, streams)
    ensures SkipSpace(d, 0) == |lead| && SkipSpace(d, |lead| + |Text(t)|) == |d|
    ensures Value(t, streams, 0).Object?
    ensures RdObject(d, |lead|, streams, 0) == Parsed(Value(t, streams, 0).members, |lead| + |Text(t)|)
  {
    hide Text, RdObject, Value, TreeOk, At, SkipSpace, AllSpace;
    AtWhole(d);
    AtSplit(d, 0, lead, Text(t) + trail);
    AtSplit(d, |lead|, Text(t), trail);
    ValueLead(d, |lead|, t, streams, 0);
    SpaceComplete(d, 0, lead);
    ObjectComplete(d, |lead|, t, streams, 0);
    SpaceComplete(d, |lead| + |Text(t)|, trail);
    ObjectValue(t, streams, 0);
  }

  /** Every text of the grammar is accepted, with the value that it denotes. */
  lemma GrammarIsAccepted(d: seq<byte>, lead: seq<byte>, t: Tree, trail: seq<byte>, streams: Streams)
    requires Derives(d, lead, t, trail, streams) && |d| <= MAX_INPUT_BYTES
    ensures ParseText(d, streams) == Some(Value(t, streams, 0))
  {
    hide Text, RdObject, Value, TreeOk, SkipSpace, Derives;
    DerivedIsRead(d, lead, t, trail, streams);
  }

  lemma AtWhole(d: seq<byte>)
    ensures At(d, 0, d)
  {
  }

  lemma ObjectValue(t: Tree, streams: Streams, depth: nat)
    requires t.TObject? && TreeOk(t, streams, depth)
    ensures Value(t, streams, depth).Object?
  {
  }

  // ---------------------------------------------------------------- soundness

  lemma {:induction false} SpaceSound(d: seq<byte>, p: nat)
    requires p <= |d|
    ensures AllSpace(d[p..SkipSpace(d, p)])
    decreases |d| - p
  {
    if p < |d| && IsSpace(d[p]) {
      SpaceSound(d, p + 1);
      assert d[p..SkipSpace(d, p)] == [d[p]] + d[p + 1..SkipSpace(d, p)];
    }
  }

  lemma EscapeSound(d: seq<byte>, p: nat) returns (c: Char)
    requires 0 < p <= |d| && d[p - 1] == BACKSLASH && RdEscape(d, p).Parsed?
    ensures CharOk(c) && d[p - 1..RdEscape(d, p).next] == CharText(c)
    ensures RdEscape(d, p).value == CharValue(c)
  {
    if d[p] == LETTER_U {
      QuadSound(d, p + 1);
      c := Hex(d[p + 1], d[p + 2], d[p + 3], d[p + 4]);
    } else {
      c := Short(d[p]);
    }
  }

  lemma QuadSound(d: seq<byte>, p: nat)
    requires RdHexQuad(d, p, 4, 0).Parsed?
    ensures p + 4 <= |d| && HexValue(Hex(d[p], d[p + 1], d[p + 2], d[p + 3])).Some?
    ensures RdHexQuad(d, p, 4, 0) == Parsed(HexValue(Hex(d[p], d[p + 1], d[p + 2], d[p + 3])).value, p + 4)
  {
    var a := HexDigit(d[p]).value;
    assert RdHexQuad(d, p, 4, 0) == RdHexQuad(d, p + 1, 3, a);
    var b := HexDigit(d[p + 1]).value;
    assert RdHexQuad(d, p + 1, 3, a) == RdHexQuad(d, p + 2, 2, a * 16 + b);
    var c := HexDigit(d[p + 2]).value;
    assert RdHexQuad(d, p + 2, 2, a * 16 + b) == RdHexQuad(d, p + 3, 1, (a * 16 + b) * 16 + c);
    assert HexDigit(d[p + 3]).Some?;
    QuadAt(d, p);
  }

  lemma {:induction false} CharsSound(d: seq<byte>, p: nat) returns (cs: seq<Char>)
    requires RdChars(d, p).Parsed?
    ensures CharsOk(cs) && d[p..RdChars(d, p).next] == CharsText(cs)
    ensures RdChars(d, p).value == CharsValue(cs)
    decreases |d| - p
  {
    hide RdEscape, CharText, CharValue;
    if d[p] == QUOTE {
      cs := [];
    } else if d[p] != BACKSLASH {
      var tail := CharsSound(d, p + 1);
      cs := [Raw(d[p])] + tail;
      RawText(cs[0]);
      assert d[p..RdChars(d, p).next] == [d[p]] + d[p + 1..RdChars(d, p).next];
    } else {
      var c := EscapeSound(d, p + 1);
      var q := RdEscape(d, p + 1).next;
      var tail := CharsSound(d, q);
      cs := [c] + tail;
      assert d[p..RdChars(d, p).next] == d[p..q] + d[q..RdChars(d, p).next];
    }
  }

  lemma StrSound(d: seq<byte>, p: nat) returns (cs: seq<Char>)
    requires RdStr(d, p).Parsed?
    ensures CharsOk(cs) && d[p..RdStr(d, p).next] == [QUOTE] + CharsText(cs)
    ensures RdStr(d, p).value == CharsValue(cs)
  {
    cs := CharsSound(d, p + 1);
    assert d[p..RdStr(d, p).next] == [d[p]] + d[p + 1..RdStr(d, p).next];
  }

  lemma NumeralSound(d: seq<byte>, p: nat)
    requires RdNumeral(d, p).Parsed?
    ensures NumeralOk(RdNumeral(d, p).value) && d[p..RdNumeral(d, p).next] == NumeralText(RdNumeral(d, p).value)
  {
    hide NumeralOk, RdInteger, RdFraction, RdExponent;
    RdNumeralOk(d, p);
    var start := if Peek(d, p) == MINUS then p + 1 else p;
    var p1 := RdInteger(d, start).next;
    var p2 := RdFraction(d, p1).next;
    var p3 := RdExponent(d, p2).next;
    assert d[p..p3] == d[p..start] + (d[start..p1] + (d[p1..p2] + d[p2..p3]));
  }

  lemma {:induction false} ValueSound(d: seq<byte>, p: nat, streams: Streams, depth: nat) returns (t: Tree)
    requires RdValue(d, p, streams, depth).Parsed?
    ensures TreeOk(t, streams, depth) && d[p..RdValue(d, p, streams, depth).next] == Text(t)
    ensures RdValue(d, p, streams, depth).value == Value(t, streams, depth)
    decreases |d| - p, 1
  {
    hide RdNumeral, NumeralOk, NumeralValue, NumeralText, CharsText, RdStr;
    var c := Peek(d, p);
    if c == OPEN {
      t := ObjectSound(d, p, streams, depth);
    } else if c == QUOTE {
      var cs := StrSound(d, p);
      t := TStr(cs);
    } else if c == 0x74 {
      t := TBool(true);
    } else if c == 0x66 {
      t := TBool(false);
    } else if c == 0x6E {
      t := TNull;
    } else {
      NumeralSound(d, p);
      t := TNum(RdNumeral(d, p).value);
    }
  }

  lemma {:induction false} MemberSound(d: seq<byte>, p: nat, streams: Streams, depth: nat, acc: seq<Member>)
    returns (m: TMember)
    requires p <= |d| && RdMember(d, p, streams, depth, acc).Parsed?
    ensures MemberOk(m, streams, depth) && d[p..RdMember(d, p, streams, depth, acc).next] == MemberText(m)
    ensures !HasMember(acc, CharsValue(m.name))
    ensures RdMember(d, p, streams, depth, acc).value == Member(CharsValue(m.name), Value(m.value, streams, depth))
    decreases |d| - p, 2
  {
    hide RdStr, CharsText, CharsValue, Text, Value, TreeOk, HasMember, AllSpace, RdValue, CharsOk;
    var p0 := SkipSpace(d, p);
    var p1 := RdStr(d, p0).next;
    var p2 := SkipSpace(d, p1);
    var p3 := SkipSpace(d, p2 + 1);
    var p4 := RdValue(d, p3, streams, depth).next;
    var p5 := SkipSpace(d, p4);
    var cs := StrSound(d, p0);
    var t := ValueSound(d, p3, streams, depth);
    SpaceSound(d, p);
    SpaceSound(d, p1);
    SpaceSound(d, p2 + 1);
    SpaceSound(d, p4);
    m := TMember(d[p..p0], cs, d[p1..p2], d[p2 + 1..p3], t, d[p4..p5]);
    assert p2 < |d| && d[p2] == COLON;
    MemberSlices(d, p, p0, p1, p2, p3, p4, p5, m);
  }

  lemma MemberSlices(d: seq<byte>, p: nat, p0: nat, p1: nat, p2: nat, p3: nat, p4: nat, p5: nat, m: TMember)
    requires p <= p0 <= p1 <= p2 < p3 <= p4 <= p5 <= |d| && d[p2] == COLON
    requires d[p..p0] == m.before && d[p0..p1] == [QUOTE] + CharsText(m.name) && d[p1..p2] == m.afterName
    requires d[p2 + 1..p3] == m.afterColon && d[p3..p4] == Text(m.value) && d[p4..p5] == m.afterValue
    ensures d[p..p5] == MemberText(m)
  {
    hide CharsText, Text;
    assert d[p2..p5] == [COLON] + (d[p2 + 1..p3] + (d[p3..p4] + d[p4..p5]));
    assert d[p..p5] == d[p..p0] + (d[p0..p1] + (d[p1..p2] + d[p2..p5]));
  }

  lemma {:induction false} MembersSound(d: seq<byte>, p: nat, streams: Streams, depth: nat, acc: seq<Member>)
    returns (ms: seq<TMember>)
    requires p <= |d| && RdMembers(d, p, streams, depth, acc).Parsed?
    ensures ms != [] && d[p..RdMembers(d, p, streams, depth, acc).next] == MembersText(ms)
    ensures forall i :: 0 <= i < |ms| ==> MemberOk(ms[i], streams, depth)
    ensures NamesNew(ms, acc)
    ensures RdMembers(d, p, streams, depth, acc).value == MembersValue(ms, streams, depth, acc)
    decreases |d| - p, 3
  {
    hide RdMember, MemberText, MemberOk, CharsValue, Value, TreeOk, CharsOk, HasMember, SetMember;
    var r := RdMembers(d, p, streams, depth, acc);
    var m := MemberSound(d, p, streams, depth, acc);
    MemberNameOk(m, streams, depth);
    var q := RdMember(d, p, streams, depth, acc).next;
    var name, value := CharsValue(m.name), Value(m.value, streams, depth);
    var acc' := SetMember(acc, name, value);
    if Peek(d, q) == COMMA {
      var tail := MembersSound(d, q + 1, streams, depth, acc');
      ms := [m] + tail;
      assert ms[1..] == tail;
      assert d[p..r.next] == d[p..q] + ([COMMA] + d[q + 1..r.next]);
      forall i | 0 <= i < |tail|
        ensures !HasMember(acc, CharsValue(tail[i].name)) && CharsValue(tail[i].name) != name
      {
        HasMemberAfterSet(acc, name, value, CharsValue(tail[i].name));
      }
    } else {
      ms := [m];
      assert ms[1..] == [];
      assert d[p..r.next] == d[p..q] + [CLOSE];
    }
  }

  lemma MemberNameOk(m: TMember, streams: Streams, depth: nat)
    requires MemberOk(m, streams, depth)
    ensures CharsOk(m.name) && TreeOk(m.value, streams, depth)
  {
  }

  lemma {:induction false} ObjectSound(d: seq<byte>, p: nat, streams: Streams, depth: nat) returns (t: Tree)
    requires RdObject(d, p, streams, depth).Parsed?
    ensures t.TObject? && TreeOk(t, streams, depth) && d[p..RdObject(d, p, streams, depth).next] == Text(t)
    ensures Object(RdObject(d, p, streams, depth).value) == Value(t, streams, depth)
    decreases |d| - p, 0
  {
    hide MemberOk, MembersText, RdMembers, CharsOk, CharsValue, Value, HasMember;
    var r := RdObject(d, p, streams, depth);
    var q := SkipSpace(d, p + 1);
    SpaceSound(d, p + 1);
    if Peek(d, q) == CLOSE {
      t := TObject(d[p + 1..q], []);
      assert d[p..r.next] == [OPEN] + (d[p + 1..q] + [CLOSE]);
      EmptyObjectValue(d[p + 1..q], streams, depth);
    } else {
      var ms := MembersSound(d, q, streams, depth + 1, []);
      t := TObject(d[p + 1..q], ms);
      assert d[p..r.next] == [OPEN] + (d[p + 1..q] + d[q..r.next]);
      ObjectTreeOk(t, streams, depth);
    }
  }

  lemma EmptyObjectValue(ws: seq<byte>, streams: Streams, depth: nat)
    requires AllSpace(ws) && depth < MAX_DEPTH
    ensures TreeOk(TObject(ws, []), streams, depth) && Value(TObject(ws, []), streams, depth) == Object([])
  {
  }

  lemma ObjectTreeOk(t: Tree, streams: Streams, depth: nat)
    requires t.TObject? && AllSpace(t.inner) && depth < MAX_DEPTH
    requires forall i :: 0 <= i < |t.members| ==> MemberOk(t.members[i], streams, depth + 1)
    requires NamesNew(t.members, [])
    ensures TreeOk(t, streams, depth)
    ensures Value(t, streams, depth) == Object(MembersValue(t.members, streams, depth + 1, []))
  {
  }

  /** Every accepted text has a derivation, which denotes the value returned. */
  lemma AcceptedIsGrammar(d: seq<byte>, streams: Streams) returns (lead: seq<byte>, t: Tree, trail: seq<byte>)
    requires ParseText(d, streams).Some?
    ensures |d| <= MAX_INPUT_BYTES && Derives(d, lead, t, trail, streams)
    ensures ParseText(d, streams).value == Value(t, streams, 0)
  {
    hide RdObject, Value, TreeOk, Text;
    var p := SkipSpace(d, 0);
    SpaceSound(d, 0);
    t := ObjectSound(d, p, streams, 0);
    var q := RdObject(d, p, streams, 0).next;
    SpaceSound(d, q);
    lead, trail := d[..p], d[q..];
    assert d[0..p] == lead && d[q..|d|] == trail;
    assert d == lead + (d[p..q] + trail);
  }

  // ---------------------------------------------------------------- the main statements

  /** A text is accepted with the value `v` exactly when it is short enough and the grammar derives it so. */
  lemma ParserMeetsGrammar(d: seq<byte>, v: Json, streams: Streams)
    ensures ParseText(d, streams) == Some(v) <==>
      && |d| <= MAX_INPUT_BYTES
      && exists lead, t, trail :: Derives(d, lead, t, trail, streams) && Value(t, streams, 0) == v
  {
    hide ParseText, Value, TreeOk, Text;
    if ParseText(d, streams) == Some(v) {
      var lead, t, trail := AcceptedIsGrammar(d, streams);
    }
    if |d| <= MAX_INPUT_BYTES {
      forall lead, t, trail | Derives(d, lead, t, trail, streams)
        ensures ParseText(d, streams) == Some(Value(t, streams, 0))
      {
        GrammarIsAccepted(d, lead, t, trail, streams);
      }
    }
  }

  /** However a text is derived, whatever its size, it denotes the same value. */
  lemma GrammarIsUnambiguous(
    d: seq<byte>, lead1: seq<byte>, t1: Tree, trail1: seq<byte>,
    lead2: seq<byte>, t2: Tree, trail2: seq<byte>, streams: Streams)
    requires Derives(d, lead1, t1, trail1, streams) && Derives(d, lead2, t2, trail2, streams)
    ensures Value(t1, streams, 0) == Value(t2, streams, 0)
  {
    hide RdObject, Value, TreeOk, Text, SkipSpace;
    DerivedIsRead(d, lead1, t1, trail1, streams);
    DerivedIsRead(d, lead2, t2, trail2, streams);
  }
}
