/**
 The JSON subset of FxJson: its values, the grammar of its texts, what the parser accepts at each
 position and what the serialiser writes. The parser and the serialiser proper are the methods of
 `JsonCodec`.
 */
module JsonFormat {
  import opened Bytes
  import opened Wrappers
  import opened Decimal

  const MAX_INPUT_BYTES := 0x1_0000
  const MAX_DEPTH := 16

  /** The integers that a double carries exactly. */
  type exact = i: int | -0x20_0000_0000_0000 <= i <= 0x20_0000_0000_0000

  /** A finite double: an exact integer, or some other number named by its bit pattern. */
  datatype Number = Whole(i: exact) | Fractional(bits: uint64)

  /**
   The stream conversions of the numbers that are not exact integers: reading a lexeme, which
   fails when the number is out of range, and printing.
   */
  datatype Streams = Streams(read: seq<byte> -> Option<Number>, write: uint64 -> seq<byte>)

  /** A member of an object. The members of an object are kept sorted by name, as a map iterates. */
  datatype Member = Member(name: seq<byte>, value: Json)

  datatype Json =
    | Null
    | Bool(b: bool)
    | Num(n: Number)
    | Str(s: seq<byte>)
    | Object(members: seq<Member>)

  predicate HasMember(ms: seq<Member>, name: seq<byte>) {
    exists i :: 0 <= i < |ms| && ms[i].name == name
  }

  /** Sets the member `name`, keeping the members sorted. */
  function SetMember(ms: seq<Member>, name: seq<byte>, value: Json): seq<Member> {
    if ms == [] || Less(name, ms[0].name) then [Member(name, value)] + ms
    else if name == ms[0].name then [Member(name, value)] + ms[1..]
    else [ms[0]] + SetMember(ms[1..], name, value)
  }

  predicate Sorted(ms: seq<Member>) {
    forall i, j :: 0 <= i < j < |ms| ==> Less(ms[i].name, ms[j].name)
  }

  /** A value whose objects are all sorted; any value that can be built with `SetMember` is. */
  predicate Canonical(v: Json) {
    v.Object? ==> Sorted(v.members) && forall i :: 0 <= i < |v.members| ==> Canonical(v.members[i].value)
  }

  /** How many objects are nested in each other. */
  function Depth(v: Json): nat {
    if v.Object? then 1 + DepthOf(v.members) else 0
  }

  function DepthOf(ms: seq<Member>): nat {
    if ms == [] then 0
    else
      var d, e := Depth(ms[0].value), DepthOf(ms[1..]);
      if d > e then d else e
  }

  // ---------------------------------------------------------------- characters

  const QUOTE: byte := 0x22
  const BACKSLASH: byte := 0x5C
  const COMMA: byte := 0x2C
  const COLON: byte := 0x3A
  const OPEN: byte := 0x7B
  const CLOSE: byte := 0x7D
  const MINUS: byte := 0x2D
  const ZERO: byte := 0x30
  const POINT: byte := 0x2E
  const LETTER_U: byte := 0x75
  const TRUE_TEXT: seq<byte> := [0x74, 0x72, 0x75, 0x65]
  const FALSE_TEXT: seq<byte> := [0x66, 0x61, 0x6C, 0x73, 0x65]
  const NULL_TEXT: seq<byte> := [0x6E, 0x75, 0x6C, 0x6C]

  predicate IsSpace(b: byte) {
    b in {0x20, 0x09, 0x0A, 0x0D}
  }

  /** The byte at a position, as `peek` sees it: NUL past the end. */
  function Peek(d: seq<byte>, p: nat): byte {
    if p < |d| then d[p] else 0
  }

  /** What a one-letter escape stands for. */
  function ShortEscape(letter: byte): Option<byte> {
    match letter
    case 0x22 => Some(0x22)
    case 0x5C => Some(0x5C)
    case 0x2F => Some(0x2F)
    case 0x62 => Some(0x08)
    case 0x66 => Some(0x0C)
    case 0x6E => Some(0x0A)
    case 0x72 => Some(0x0D)
    case 0x74 => Some(0x09)
    case _ => None
  }

  function HexDigit(b: byte): (r: Option<nat>)
    ensures r.Some? ==> r.value < 16
  {
    if 0x30 <= b <= 0x39 then Some(b - 0x30)
    else if 0x61 <= b <= 0x66 then Some(b - 0x61 + 10)
    else if 0x41 <= b <= 0x46 then Some(b - 0x41 + 10)
    else None
  }

  /** The UTF-8 form of a code point below 0x1_0000. */
  function Utf8(c: nat): seq<byte>
    requires c < 0x1_0000
  {
    if c < 0x80 then [c]
    else if c < 0x800 then [0xC0 + c / 0x40, 0x80 + c % 0x40]
    else [0xE0 + c / 0x1000, 0x80 + (c / 0x40) % 0x40, 0x80 + c % 0x40]
  }

  predicate IsSurrogate(c: nat) {
    0xD800 <= c <= 0xDFFF
  }

  // ---------------------------------------------------------------- the grammar

  /** One character of a string literal. */
  datatype Char = Raw(b: byte) | Short(letter: byte) | Hex(d3: byte, d2: byte, d1: byte, d0: byte)

  function HexValue(c: Char): (r: Option<nat>)
    requires c.Hex?
    ensures r.Some? ==> r.value < 0x1_0000
  {
    var a :- HexDigit(c.d3);
    var b :- HexDigit(c.d2);
    var e :- HexDigit(c.d1);
    var f :- HexDigit(c.d0);
    Some(((a * 16 + b) * 16 + e) * 16 + f)
  }

  predicate CharOk(c: Char) {
    match c
    case Raw(b) => b >= 0x20 && b != QUOTE && b != BACKSLASH
    case Short(l) => ShortEscape(l).Some?
    case Hex(_, _, _, _) => HexValue(c).Some? && !IsSurrogate(HexValue(c).value)
  }

  function CharText(c: Char): seq<byte> {
    match c
    case Raw(b) => [b]
    case Short(l) => [BACKSLASH, l]
    case Hex(a, b, e, f) => [BACKSLASH, LETTER_U, a, b, e, f]
  }

  /** What a character stands for; an illegal one stands for nothing. */
  function CharValue(c: Char): seq<byte> {
    match c
    case Raw(b) => [b]
    case Short(l) => if ShortEscape(l).None? then [] else [ShortEscape(l).value]
    case Hex(_, _, _, _) => if HexValue(c).None? then [] else Utf8(HexValue(c).value)
  }

  predicate CharsOk(cs: seq<Char>) {
    forall i :: 0 <= i < |cs| ==> CharOk(cs[i])
  }

  /** The characters and the closing quote. */
  function CharsText(cs: seq<Char>): seq<byte> {
    if cs == [] then [QUOTE] else CharText(cs[0]) + CharsText(cs[1..])
  }

  function CharsValue(cs: seq<Char>): seq<byte> {
    if cs == [] then [] else CharValue(cs[0]) + CharsValue(cs[1..])
  }

  predicate AllDigits(s: seq<byte>) {
    forall i :: 0 <= i < |s| ==> IsDigit(s[i])
  }

  predicate AllSpace(s: seq<byte>) {
    forall i :: 0 <= i < |s| ==> IsSpace(s[i])
  }

  /** The parts of a number; `fraction` and `exponent` include their leading mark, or are empty. */
  datatype Numeral = Numeral(negative: bool, digits: seq<byte>, fraction: seq<byte>, exponent: seq<byte>)

  predicate FractionOk(s: seq<byte>) {
    s == [] || (|s| >= 2 && s[0] == POINT && AllDigits(s[1..]))
  }

  predicate ExponentOk(s: seq<byte>) {
    s == [] ||
    (&& |s| >= 2 && s[0] in {0x65, 0x45}
     && (if s[1] in {0x2B, 0x2D} then |s| >= 3 && AllDigits(s[2..]) else AllDigits(s[1..])))
  }

  predicate NumeralOk(n: Numeral) {
    && n.digits != [] && AllDigits(n.digits)
    && (n.digits[0] == ZERO ==> |n.digits| == 1)
    && FractionOk(n.fraction) && ExponentOk(n.exponent)
  }

  function NumeralText(n: Numeral): seq<byte> {
    (if n.negative then [MINUS] else []) + (n.digits + (n.fraction + n.exponent))
  }

  /** The number that a numeral denotes; an exact integer is read exactly. */
  function NumeralValue(n: Numeral, streams: Streams): Option<Number>
    requires NumeralOk(n)
  {
    var m := NatOf(n.digits);
    if n.fraction == [] && n.exponent == [] && m <= 0x20_0000_0000_0000
    then Some(Whole(if n.negative then -(m as int) else m))
    else streams.read(NumeralText(n))
  }

  /** The derivation of a value. White space is written out wherever the grammar allows it. */
  datatype Tree =
    | TNull
    | TBool(b: bool)
    | TNum(numeral: Numeral)
    | TStr(chars: seq<Char>)
    | TObject(inner: seq<byte>, members: seq<TMember>)

  datatype TMember = TMember(
    before: seq<byte>, name: seq<Char>, afterName: seq<byte>,
    afterColon: seq<byte>, value: Tree, afterValue: seq<byte>)

  function Text(t: Tree): seq<byte> {
    match t
    case TNull => NULL_TEXT
    case TBool(b) => if b then TRUE_TEXT else FALSE_TEXT
    case TNum(n) => NumeralText(n)
    case TStr(cs) => [QUOTE] + CharsText(cs)
    case TObject(ws, ms) => [OPEN] + (ws + (if ms == [] then [CLOSE] else MembersText(ms)))
  }

  function MemberText(m: TMember): seq<byte> {
    m.before + (([QUOTE] + CharsText(m.name)) + (m.afterName + ([COLON] + (m.afterColon + (Text(m.value) + m.afterValue)))))
  }

  /** One or more members, separated by commas, and the closing brace. */
  function MembersText(ms: seq<TMember>): seq<byte>
    requires ms != []
  {
    MemberText(ms[0]) + (if |ms| == 1 then [CLOSE] else [COMMA] + MembersText(ms[1..]))
  }

  /**
   The rules that a derivation obeys beyond its shape: legal characters and numerals, numbers in
   range, distinct member names, and at most MAX_DEPTH objects open at a time, `depth` of which
   are open around this one.
   */
  predicate TreeOk(t: Tree, streams: Streams, depth: nat) {
    match t
    case TNull => true
    case TBool(_) => true
    case TNum(n) => NumeralOk(n) && NumeralValue(n, streams).Some?
    case TStr(cs) => CharsOk(cs)
    case TObject(ws, ms) =>
      && AllSpace(ws) && depth < MAX_DEPTH
      && (forall i :: 0 <= i < |ms| ==> MemberOk(ms[i], streams, depth + 1))
      && (forall i, j :: 0 <= i < j < |ms| ==> CharsValue(ms[i].name) != CharsValue(ms[j].name))
  }

  predicate MemberOk(m: TMember, streams: Streams, depth: nat) {
    && AllSpace(m.before) && CharsOk(m.name) && AllSpace(m.afterName) && AllSpace(m.afterColon)
    && TreeOk(m.value, streams, depth) && AllSpace(m.afterValue)
  }

  /** The value that a derivation denotes. */
  function Value(t: Tree, streams: Streams, depth: nat): Json
    requires TreeOk(t, streams, depth)
  {
    match t
    case TNull => Null
    case TBool(b) => Bool(b)
    case TNum(n) => Num(NumeralValue(n, streams).value)
    case TStr(cs) => Str(CharsValue(cs))
    case TObject(_, ms) => Object(MembersValue(ms, streams, depth + 1, []))
  }

  /** The members of `acc`, with those of `ms` set one after the other. */
  function MembersValue(ms: seq<TMember>, streams: Streams, depth: nat, acc: seq<Member>): seq<Member>
    requires forall i :: 0 <= i < |ms| ==> MemberOk(ms[i], streams, depth)
  {
    if ms == [] then acc
    else
      assert MemberOk(ms[0], streams, depth);
      MembersValue(ms[1..], streams, depth,
                   SetMember(acc, CharsValue(ms[0].name), Value(ms[0].value, streams, depth)))
  }

  /** `d` is a text of the grammar, with the derivation `t` of its object. */
  predicate Derives(d: seq<byte>, lead: seq<byte>, t: Tree, trail: seq<byte>, streams: Streams) {
    && t.TObject? && TreeOk(t, streams, 0)
    && AllSpace(lead) && AllSpace(trail)
    && d == lead + (Text(t) + trail)
  }

  // ---------------------------------------------------------------- what the parser accepts

  function SkipSpace(d: seq<byte>, p: nat): (q: nat)
    ensures p <= q && (p <= |d| ==> q <= |d|)
    decreases |d| - p
  {
    if p < |d| && IsSpace(d[p]) then SkipSpace(d, p + 1) else p
  }

  /** The bound on what has been read with `n` hex digits still to come. */
  function QuadBound(n: nat): nat
    requires n <= 4
  {
    match n
    case 4 => 1
    case 3 => 0x10
    case 2 => 0x100
    case 1 => 0x1000
    case _ => 0x1_0000
  }

  /** The last `n` digits of a group of four hex digits, after digits that spell `value`. */
  function RdHexQuad(d: seq<byte>, p: nat, n: nat, value: nat): (r: Parsed<nat>)
    requires n <= 4 && value < QuadBound(n)
    ensures r.Parsed? ==> r.next == p + n && (n > 0 ==> p + n <= |d|) && r.value < 0x1_0000
    decreases n
  {
    if n == 0 then Parsed(value, p)
    else if p >= |d| || HexDigit(d[p]).None? then Refused
    else RdHexQuad(d, p + 1, n - 1, value * 16 + HexDigit(d[p]).value)
  }

  /** An escape sequence, after its backslash. */
  function RdEscape(d: seq<byte>, p: nat): (r: Parsed<seq<byte>>)
    ensures r.Parsed? ==> p < r.next <= |d|
  {
    if p >= |d| then Refused
    else if d[p] == LETTER_U then
      var (code, q) :- RdHexQuad(d, p + 1, 4, 0);
      if IsSurrogate(code) then Refused else Parsed(Utf8(code), q)
    else if ShortEscape(d[p]).None? then Refused
    else Parsed([ShortEscape(d[p]).value], p + 1)
  }

  /** The rest of a string literal, after its opening quote. */
  function RdChars(d: seq<byte>, p: nat): (r: Parsed<seq<byte>>)
    ensures r.Parsed? ==> p < r.next <= |d|
    decreases |d| - p
  {
    if p >= |d| then Refused
    else if d[p] == QUOTE then Parsed([], p + 1)
    else if d[p] < 0x20 then Refused
    else if d[p] != BACKSLASH then
      var (tail, q) :- RdChars(d, p + 1);
      Parsed([d[p]] + tail, q)
    else
      var (head, q) :- RdEscape(d, p + 1);
      var (tail, q') :- RdChars(d, q);
      Parsed(head + tail, q')
  }

  function RdStr(d: seq<byte>, p: nat): (r: Parsed<seq<byte>>)
    ensures r.Parsed? ==> p < r.next <= |d|
  {
    if p < |d| && d[p] == QUOTE then RdChars(d, p + 1) else Refused
  }

  /** The position after a run of digits. */
  function SkipDigits(d: seq<byte>, p: nat): (q: nat)
    ensures p <= q && (p <= |d| ==> q <= |d|)
    ensures forall i :: p <= i < q ==> i < |d| && IsDigit(d[i])
    ensures !(q < |d| && IsDigit(d[q]))
    decreases |d| - p
  {
    if p < |d| && IsDigit(d[p]) then SkipDigits(d, p + 1) else p
  }

  /** A run of at least one digit. */
  function RdDigits(d: seq<byte>, p: nat): (r: Parsed<()>)
    ensures r.Parsed? ==> p < r.next <= |d|
  {
    if IsDigit(Peek(d, p)) then Parsed((), SkipDigits(d, p)) else Refused
  }

  /** The digits of the integer part: a zero alone, or digits that do not start with zero. */
  function RdInteger(d: seq<byte>, p: nat): (r: Parsed<()>)
    ensures r.Parsed? ==> p < r.next <= |d|
  {
    if Peek(d, p) == ZERO then Parsed((), p + 1) else RdDigits(d, p)
  }

  function RdFraction(d: seq<byte>, p: nat): (r: Parsed<()>)
    ensures r.Parsed? && p <= |d| ==> p <= r.next <= |d|
  {
    if Peek(d, p) == POINT then RdDigits(d, p + 1) else Parsed((), p)
  }

  function RdExponent(d: seq<byte>, p: nat): (r: Parsed<()>)
    ensures r.Parsed? && p <= |d| ==> p <= r.next <= |d|
  {
    if Peek(d, p) in {0x65, 0x45} then
      RdDigits(d, if Peek(d, p + 1) in {0x2B, 0x2D} then p + 2 else p + 1)
    else Parsed((), p)
  }

  /** A number: its numeral, cut out of the text. */
  function RdNumeral(d: seq<byte>, p: nat): (r: Parsed<Numeral>)
    ensures r.Parsed? ==> p < r.next <= |d|
  {
    var start := if Peek(d, p) == MINUS then p + 1 else p;
    var (_, p1) :- RdInteger(d, start);
    var (_, p2) :- RdFraction(d, p1);
    var (_, p3) :- RdExponent(d, p2);
    Parsed(Numeral(Peek(d, p) == MINUS, d[start..p1], d[p1..p2], d[p2..p3]), p3)
  }

  lemma DigitRun(d: seq<byte>, p: nat)
    requires p <= |d|
    ensures AllDigits(d[p..SkipDigits(d, p)])
  {
    var s := d[p..SkipDigits(d, p)];
    forall i | 0 <= i < |s|
      ensures IsDigit(s[i])
    {
      assert s[i] == d[p + i];
    }
  }

  lemma FractionCut(d: seq<byte>, p: nat)
    requires p <= |d| && RdFraction(d, p).Parsed?
    ensures FractionOk(d[p..RdFraction(d, p).next])
  {
    var q := RdFraction(d, p).next;
    if q != p {
      DigitRun(d, p + 1);
      assert d[p..q][1..] == d[p + 1..q];
    }
  }

  lemma ExponentCut(d: seq<byte>, p: nat)
    requires p <= |d| && RdExponent(d, p).Parsed?
    ensures ExponentOk(d[p..RdExponent(d, p).next])
  {
    var q := RdExponent(d, p).next;
    if q != p {
      var e := d[p..q];
      assert e[1] == d[p + 1];
      if Peek(d, p + 1) in {0x2B, 0x2D} {
        DigitRun(d, p + 2);
        assert e[2..] == d[p + 2..q];
      } else {
        DigitRun(d, p + 1);
        assert e[1..] == d[p + 1..q];
      }
    }
  }

  lemma RdNumeralOk(d: seq<byte>, p: nat)
    requires RdNumeral(d, p).Parsed?
    ensures NumeralOk(RdNumeral(d, p).value)
  {
    hide RdFraction, RdExponent, FractionOk, ExponentOk, AllDigits;
    var start := if Peek(d, p) == MINUS then p + 1 else p;
    var p1 := RdInteger(d, start).next;
    var p2 := RdFraction(d, p1).next;
    FractionCut(d, p1);
    ExponentCut(d, p2);
    if Peek(d, start) == ZERO {
      assert d[start..p1] == [ZERO];
      OneDigit();
    } else {
      DigitRun(d, start);
    }
  }

  lemma OneDigit()
    ensures AllDigits([ZERO])
  {
  }

  function RdNumber(d: seq<byte>, p: nat, streams: Streams): (r: Parsed<Number>)
    ensures r.Parsed? ==> p < r.next <= |d|
  {
    var (numeral, q) :- RdNumeral(d, p);
    RdNumeralOk(d, p);
    match NumeralValue(numeral, streams)
    case None => Refused
    case Some(n) => Parsed(n, q)
  }

  function RdLiteral(d: seq<byte>, p: nat, literal: seq<byte>): Parsed<()> {
    if p + |literal| <= |d| && d[p..p + |literal|] == literal then Parsed((), p + |literal|) else Refused
  }

  function RdValue(d: seq<byte>, p: nat, streams: Streams, depth: nat): (r: Parsed<Json>)
    ensures r.Parsed? ==> p < r.next <= |d|
    decreases |d| - p, 1
  {
    var c := Peek(d, p);
    if c == OPEN then
      var (ms, q) :- RdObject(d, p, streams, depth);
      Parsed(Object(ms), q)
    else if c == QUOTE then
      var (s, q) :- RdStr(d, p);
      Parsed(Str(s), q)
    else if c == 0x74 then
      var (_, q) :- RdLiteral(d, p, TRUE_TEXT);
      Parsed(Bool(true), q)
    else if c == 0x66 then
      var (_, q) :- RdLiteral(d, p, FALSE_TEXT);
      Parsed(Bool(false), q)
    else if c == 0x6E then
      var (_, q) :- RdLiteral(d, p, NULL_TEXT);
      Parsed(Null, q)
    else if c == MINUS || IsDigit(c) then
      var (n, q) :- RdNumber(d, p, streams);
      Parsed(Num(n), q)
    else Refused
  }

  function RdObject(d: seq<byte>, p: nat, streams: Streams, depth: nat): (r: Parsed<seq<Member>>)
    ensures r.Parsed? ==> p < r.next <= |d|
    decreases |d| - p, 0
  {
    if depth >= MAX_DEPTH || Peek(d, p) != OPEN then Refused
    else
      var q := SkipSpace(d, p + 1);
      if Peek(d, q) == CLOSE then Parsed([], q + 1)
      else RdMembers(d, q, streams, depth + 1, [])
  }

  /** One member: its name, which must be new, and its value. */
  function RdMember(d: seq<byte>, p: nat, streams: Streams, depth: nat, acc: seq<Member>): (r: Parsed<Member>)
    ensures r.Parsed? ==> p < r.next <= |d|
    decreases |d| - p, 2
  {
    var (name, p1) :- RdStr(d, SkipSpace(d, p));
    var p2 := SkipSpace(d, p1);
    if HasMember(acc, name) || Peek(d, p2) != COLON then Refused
    else
      var (value, p3) :- RdValue(d, SkipSpace(d, p2 + 1), streams, depth);
      Parsed(Member(name, value), SkipSpace(d, p3))
  }

  /** The remaining members, added to `acc`, and the closing brace. */
  function RdMembers(d: seq<byte>, p: nat, streams: Streams, depth: nat, acc: seq<Member>): (r: Parsed<seq<Member>>)
    ensures r.Parsed? ==> p < r.next <= |d|
    decreases |d| - p, 3
  {
    var (m, q) :- RdMember(d, p, streams, depth, acc);
    var acc' := SetMember(acc, m.name, m.value);
    if Peek(d, q) == COMMA then RdMembers(d, q + 1, streams, depth, acc')
    else if Peek(d, q) == CLOSE then Parsed(acc', q + 1)
    else Refused
  }

  /** The value of a request text, if the parser accepts it. */
  function ParseText(d: seq<byte>, streams: Streams): Option<Json> {
    if |d| > MAX_INPUT_BYTES then None
    else
      match RdObject(d, SkipSpace(d, 0), streams, 0)
      case Refused => None
      case Parsed(ms, q) => if SkipSpace(d, q) == |d| then Some(Object(ms)) else None
  }

  // ---------------------------------------------------------------- what the serialiser writes

  function EscapeOf(b: byte): Char {
    match b
    case 0x22 => Short(0x22)
    case 0x5C => Short(0x5C)
    case 0x08 => Short(0x62)
    case 0x0C => Short(0x66)
    case 0x0A => Short(0x6E)
    case 0x0D => Short(0x72)
    case 0x09 => Short(0x74)
    case _ => if b < 0x20 then Hex(ZERO, ZERO, ZERO + b / 16, HexLetter(b % 16)) else Raw(b)
  }

  function HexLetter(n: nat): byte
    requires n < 16
  {
    if n < 10 then 0x30 + n else 0x61 + n - 10
  }

  function EscapedText(s: seq<byte>): seq<byte> {
    if s == [] then [QUOTE] else CharText(EscapeOf(s[0])) + EscapedText(s[1..])
  }

  function NumberText(n: Number, streams: Streams): seq<byte> {
    match n
    case Whole(i) => if i < 0 then [MINUS] + DigitsOf(-i) else DigitsOf(i)
    case Fractional(bits) => streams.write(bits)
  }

  function Serialized(v: Json, streams: Streams): seq<byte> {
    match v
    case Null => NULL_TEXT
    case Bool(b) => if b then TRUE_TEXT else FALSE_TEXT
    case Num(n) => NumberText(n, streams)
    case Str(s) => [QUOTE] + EscapedText(s)
    case Object(ms) => [OPEN] + SerializedMembers(ms, streams)
  }

  /** The members separated by commas, and the closing brace. */
  function SerializedMembers(ms: seq<Member>, streams: Streams): seq<byte> {
    if ms == [] then [CLOSE]
    else SerializedMember(ms[0], streams)
         + (if |ms| == 1 then [CLOSE] else [COMMA] + SerializedMembers(ms[1..], streams))
  }

  function SerializedMember(m: Member, streams: Streams): seq<byte> {
    ([QUOTE] + EscapedText(m.name)) + ([COLON] + Serialized(m.value, streams))
  }
}
