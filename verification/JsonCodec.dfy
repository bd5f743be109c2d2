/**
 The recursive-descent parser and the serialiser of FxJson as they run: the parser advances a
 position and counts the open objects, the serialiser appends to a string.
 */
module JsonCodec {
  import opened Bytes
  import opened Wrappers
  import opened Decimal
  import opened JsonFormat
  import JsonGrammar

  /** The rest gives `head` and then what `next` gives. */
  lemma ContinuesAfter<T(!new)>(
    whole: Parsed<seq<T>>, done: seq<T>, rest: Parsed<seq<T>>, head: seq<T>, next: Parsed<seq<T>>)
    requires Continues(whole, done, rest)
    requires rest == if next.Parsed? then Parsed(head + next.value, next.next) else Refused
    ensures Continues(whole, done + head, next)
  {
    if next.Parsed? {
      assert done + (head + next.value) == (done + head) + next.value;
    }
  }

  class Parser {
    const text: seq<byte>
    const streams: Streams
    var position: nat
    var depth: nat

    ghost predicate Valid()
      reads this
    {
      position <= |text|
    }

    constructor (text: seq<byte>, streams: Streams)
      ensures Valid() && this.text == text && this.streams == streams
      ensures position == 0 && depth == 0
    {
      this.text := text;
      this.streams := streams;
      position := 0;
      depth := 0;
    }

    method SkipWhitespace()
      requires Valid()
      modifies this`position
      ensures Valid() && position == SkipSpace(text, old(position))
    {
      while position < |text| && IsSpace(text[position])
        invariant Valid() && SkipSpace(text, position) == SkipSpace(text, old(position))
        decreases |text| - position
      {
        position := position + 1;
      }
    }

    method Expect(wanted: byte) returns (ok: bool)
      requires Valid()
      modifies this`position
      ensures Valid() && ok == (old(position) < |text| && text[old(position)] == wanted)
      ensures position == if ok then old(position) + 1 else old(position)
    {
      if position >= |text| || text[position] != wanted {
        return false;
      }
      position := position + 1;
      ok := true;
    }

    method ParseLiteral(literal: seq<byte>) returns (ok: bool)
      requires Valid()
      modifies this`position
      ensures Valid() && Reads(RdLiteral(text, old(position), literal), ok, (), position)
    {
      ghost var start := position;
      var i := 0;
      while i < |literal|
        invariant 0 <= i <= |literal| && Valid() && position == start + i
        invariant text[start..position] == literal[..i]
      {
        if position >= |text| || text[position] != literal[i] {
          position := position - i;
          return false;
        }
        assert text[start..position + 1] == text[start..position] + [literal[i]];
        assert literal[..i + 1] == literal[..i] + [literal[i]];
        position := position + 1;
        i := i + 1;
      }
      ok := true;
    }

    method ParseHexQuad() returns (ok: bool, value: nat)
      requires Valid()
      modifies this`position
      ensures Valid() && Reads(RdHexQuad(text, old(position), 4, 0), ok, value, position)
    {
      value := 0;
      ghost var whole := RdHexQuad(text, position, 4, 0);
      var i := 0;
      while i < 4
        invariant 0 <= i <= 4 && Valid() && value < QuadBound(4 - i)
        invariant whole == RdHexQuad(text, position, 4 - i, value)
      {
        if position >= |text| {
          return false, value;
        }
        var digit := HexDigit(text[position]);
        if digit.None? {
          return false, value;
        }
        value := value * 16 + digit.value;
        position := position + 1;
        i := i + 1;
      }
      ok := true;
    }

    /** An escape sequence, after its backslash. */
    method ParseEscape() returns (ok: bool, out: seq<byte>)
      requires Valid()
      modifies this`position
      ensures Valid() && Reads(RdEscape(text, old(position)), ok, out, position)
    {
      hide RdHexQuad, Utf8;
      out := [];
      if position >= |text| {
        return false, out;
      }
      var escape := text[position];
      position := position + 1;
      if escape == LETTER_U {
        var code;
        ok, code := ParseHexQuad();
        if !ok || IsSurrogate(code) {
          return false, out;
        }
        out := Utf8(code);
      } else {
        var short := ShortEscape(escape);
        if short.None? {
          return false, out;
        }
        ok, out := true, [short.value];
      }
    }

    method ParseString() returns (ok: bool, out: seq<byte>)
      requires Valid()
      modifies this`position
      ensures Valid() && Reads(RdStr(text, old(position)), ok, out, position)
    {
      hide RdEscape;
      out := [];
      ok := Expect(QUOTE);
      if !ok {
        return;
      }
      ghost var start := position;
      while true
        invariant Valid() && Continues(RdChars(text, start), out, RdChars(text, position))
        decreases |text| - position
      {
        if position >= |text| {
          return false, out;
        }
        var c := text[position];
        if c == QUOTE {
          position := position + 1;
          assert out + [] == out;
          return true, out;
        }
        if c < 0x20 {
          return false, out;
        }
        ghost var before := position;
        if c != BACKSLASH {
          position := position + 1;
          ContinuesAfter(RdChars(text, start), out, RdChars(text, before), [c], RdChars(text, position));
          out := out + [c];
        } else {
          var bytes;
          position := position + 1;
          ok, bytes := ParseEscape();
          if !ok {
            return;
          }
          ContinuesAfter(RdChars(text, start), out, RdChars(text, before), bytes, RdChars(text, position));
          out := out + bytes;
        }
      }
    }

    method SkipDigitRun()
      requires Valid()
      modifies this`position
      ensures Valid() && position == SkipDigits(text, old(position))
    {
      while IsDigit(Peek(text, position))
        invariant Valid() && SkipDigits(text, position) == SkipDigits(text, old(position))
        decreases |text| - position
      {
        position := position + 1;
      }
    }

    method ParseInteger() returns (ok: bool)
      requires Valid()
      modifies this`position
      ensures Valid() && Reads(RdInteger(text, old(position)), ok, (), position)
    {
      ok := true;
      if Peek(text, position) == ZERO {
        position := position + 1;
      } else if IsDigit(Peek(text, position)) {
        SkipDigitRun();
      } else {
        ok := false;
      }
    }

    method ParseFraction() returns (ok: bool)
      requires Valid()
      modifies this`position
      ensures Valid() && Reads(RdFraction(text, old(position)), ok, (), position)
    {
      ok := true;
      if Peek(text, position) == POINT {
        position := position + 1;
        if !IsDigit(Peek(text, position)) {
          return false;
        }
        SkipDigitRun();
      }
    }

    method ParseExponent() returns (ok: bool)
      requires Valid()
      modifies this`position
      ensures Valid() && Reads(RdExponent(text, old(position)), ok, (), position)
    {
      ok := true;
      if Peek(text, position) in {0x65, 0x45} {
        position := position + 1;
        if Peek(text, position) in {0x2B, 0x2D} {
          position := position + 1;
        }
        if !IsDigit(Peek(text, position)) {
          return false;
        }
        SkipDigitRun();
      }
    }

    method ParseNumber() returns (ok: bool, value: Number)
      requires Valid()
      modifies this`position
      ensures Valid() && Reads(RdNumber(text, old(position), streams), ok, value, position)
    {
      hide RdInteger, RdFraction, RdExponent, NumeralValue, NumeralOk;
      value := Whole(0);
      var first := position;
      var negative := Peek(text, position) == MINUS;
      if negative {
        position := position + 1;
      }
      var start := position;
      ok := ParseInteger();
      if !ok {
        return;
      }
      var afterInteger := position;
      ok := ParseFraction();
      if !ok {
        return;
      }
      var afterFraction := position;
      ok := ParseExponent();
      if !ok {
        return;
      }
      var numeral := Numeral(negative, text[start..afterInteger], text[afterInteger..afterFraction],
                             text[afterFraction..position]);
      assert RdNumeral(text, first) == Parsed(numeral, position);
      RdNumeralOk(text, first);
      match NumeralValue(numeral, streams)
      case None => ok := false;
      case Some(n) => value := n;
    }

    method ParseValue() returns (ok: bool, value: Json)
      requires Valid()
      modifies this
      ensures Valid() && Reads(RdValue(text, old(position), streams, old(depth)), ok, value, position)
      ensures ok ==> depth == old(depth)
      decreases |text| - position, 1
    {
      hide RdStr, RdNumber, RdLiteral;
      value := Null;
      var c := Peek(text, position);
      if c == OPEN {
        var members;
        ok, members := ParseObject();
        value := Object(members);
      } else if c == QUOTE {
        var s;
        ok, s := ParseString();
        value := Str(s);
      } else if c == 0x74 {
        ok := ParseLiteral(TRUE_TEXT);
        value := Bool(true);
      } else if c == 0x66 {
        ok := ParseLiteral(FALSE_TEXT);
        value := Bool(false);
      } else if c == 0x6E {
        ok := ParseLiteral(NULL_TEXT);
      } else if c == MINUS || IsDigit(c) {
        var n;
        ok, n := ParseNumber();
        value := Num(n);
      } else {
        ok := false;
      }
    }

    method ParseMember(members: seq<Member>) returns (ok: bool, m: Member)
      requires Valid()
      modifies this
      ensures Valid() && Reads(RdMember(text, old(position), streams, old(depth), members), ok, m, position)
      ensures ok ==> depth == old(depth) && position > old(position)
      decreases |text| - position, 2
    {
      hide RdStr, HasMember;
      var name, value;
      m := Member([], Null);
      SkipWhitespace();
      ok, name := ParseString();
      if !ok {
        return;
      }
      if HasMember(members, name) {
        return false, m;
      }
      SkipWhitespace();
      ok := Expect(COLON);
      if !ok {
        return;
      }
      SkipWhitespace();
      ok, value := ParseValue();
      if !ok {
        return;
      }
      m := Member(name, value);
      SkipWhitespace();
    }

    method ParseObject() returns (ok: bool, result: seq<Member>)
      requires Valid()
      modifies this
      ensures Valid() && Reads(RdObject(text, old(position), streams, old(depth)), ok, result, position)
      ensures ok ==> depth == old(depth)
      decreases |text| - position, 0
    {
      hide RdMember, SetMember;
      result := [];
      depth := depth + 1;
      if depth > MAX_DEPTH {
        return false, result;
      }
      ok := Expect(OPEN);
      if !ok {
        return;
      }
      SkipWhitespace();
      if Peek(text, position) == CLOSE {
        position := position + 1;
        depth := depth - 1;
        return true, result;
      }
      ghost var whole := RdMembers(text, position, streams, depth, []);
      while true
        invariant Valid() && depth == old(depth) + 1 && position > old(position)
        invariant whole == RdMembers(text, position, streams, depth, result)
        decreases |text| - position
      {
        var m;
        ok, m := ParseMember(result);
        if !ok {
          return;
        }
        result := SetMember(result, m.name, m.value);
        var next := Peek(text, position);
        if next == COMMA {
          position := position + 1;
        } else if next == CLOSE {
          position := position + 1;
          depth := depth - 1;
          return true, result;
        } else {
          return false, result;
        }
      }
    }

    method ParseDocument() returns (ok: bool, value: Json)
      requires Valid() && position == 0 && depth == 0 && |text| <= MAX_INPUT_BYTES
      modifies this
      ensures ok == ParseText(text, streams).Some?
      ensures ok ==> ParseText(text, streams) == Some(value)
    {
      hide RdObject;
      value := Null;
      SkipWhitespace();
      ghost var start := position;
      if position >= |text| || text[position] != OPEN {
        NotAnObject(text, start, streams);
        return false, value;
      }
      var members;
      ok, members := ParseObject();
      if !ok {
        return;
      }
      value := Object(members);
      SkipWhitespace();
      ok := position == |text|;
    }
  }

  lemma NotAnObject(d: seq<byte>, p: nat, streams: Streams)
    requires p >= |d| || d[p] != OPEN
    ensures RdObject(d, p, streams, 0).Refused?
  {
  }

  /** Parses a request text; returns None where the source throws. */
  method ParseJsonObject(text: seq<byte>, streams: Streams) returns (r: Option<Json>)
    ensures r == ParseText(text, streams)
    ensures forall v :: r == Some(v) <==>
      && |text| <= 65536
      && exists lead, t, trail :: Derives(text, lead, t, trail, streams) && Value(t, streams, 0) == v
  {
    hide RdObject, TreeOk, Text, Value, ParseText;
    forall v
      ensures ParseText(text, streams) == Some(v) <==>
        && |text| <= MAX_INPUT_BYTES
        && exists lead, t, trail :: Derives(text, lead, t, trail, streams) && Value(t, streams, 0) == v
    {
      JsonGrammar.ParserMeetsGrammar(text, v, streams);
    }
    if |text| > MAX_INPUT_BYTES {
      return None;
    }
    var parser := new Parser(text, streams);
    var ok, value := parser.ParseDocument();
    r := if ok then Some(value) else None;
  }

  /** The output string of the serialiser. */
  class Output {
    var text: seq<byte>

    constructor ()
      ensures text == []
    {
      text := [];
    }

    method Append(s: seq<byte>)
      modifies this
      ensures text == old(text) + s
    {
      text := text + s;
    }

    method AppendEscaped(s: seq<byte>)
      modifies this
      ensures text == old(text) + ([QUOTE] + EscapedText(s))
    {
      hide EscapeOf, CharText;
      Append([QUOTE]);
      ghost var start := text;
      ghost var done: seq<byte> := [];
      for i := 0 to |s|
        invariant text == start + done && done + EscapedText(s[i..]) == EscapedText(s)
      {
        assert s[i..][0] == s[i] && s[i..][1..] == s[i + 1..];
        Append(CharText(EscapeOf(s[i])));
        done := done + CharText(EscapeOf(s[i]));
      }
      Append([QUOTE]);
    }

    method SerializeValue(v: Json, streams: Streams)
      modifies this
      ensures text == old(text) + Serialized(v, streams)
      decreases v, 0
    {
      hide EscapedText, NumberText, SerializedMembers;
      match v
      case Null => Append(NULL_TEXT);
      case Bool(b) => Append(if b then TRUE_TEXT else FALSE_TEXT);
      case Num(n) => Append(NumberText(n, streams));
      case Str(s) => AppendEscaped(s);
      case Object(members) =>
        Append([OPEN]);
        SerializeMembers(members, streams);
    }

    /** The members with their commas, and the closing brace. */
    method SerializeMembers(members: seq<Member>, streams: Streams)
      modifies this
      ensures text == old(text) + SerializedMembers(members, streams)
      decreases members, 0
    {
      hide EscapedText, Serialized, SerializedMember;
      ghost var whole := text + SerializedMembers(members, streams);
      assert members[0..] == members;
      var i := 0;
      while i < |members|
        invariant 0 <= i <= |members| && whole == text + StillToCome(members, i, streams)
      {
        assert members[i..][0] == members[i] && members[i..][1..] == members[i + 1..];
        ghost var comma := if i == 0 then [] else [COMMA];
        ghost var before, rest := text, StillToCome(members, i + 1, streams);
        assert StillToCome(members, i, streams) == comma + (SerializedMember(members[i], streams) + rest);
        if i != 0 {
          Append([COMMA]);
        }
        SerializeMember(members[i], streams);
        assert text == before + comma + SerializedMember(members[i], streams);
        assert text + rest == before + (comma + (SerializedMember(members[i], streams) + rest));
        i := i + 1;
      }
      Append([CLOSE]);
    }

    method SerializeMember(m: Member, streams: Streams)
      modifies this
      ensures text == old(text) + SerializedMember(m, streams)
      decreases m, 0
    {
      hide EscapedText, Serialized;
      AppendEscaped(m.name);
      Append([COLON]);
      SerializeValue(m.value, streams);
    }
  }

  /** What is still to be written of an object before its member `i`. */
  ghost function StillToCome(members: seq<Member>, i: nat, streams: Streams): seq<byte>
    requires i <= |members|
  {
    if i == |members| then [CLOSE]
    else (if i == 0 then [] else [COMMA]) + SerializedMembers(members[i..], streams)
  }

  method Serialize(v: Json, streams: Streams) returns (text: seq<byte>)
    ensures text == Serialized(v, streams)
  {
    var out := new Output();
    out.SerializeValue(v, streams);
    text := out.text;
  }
}
