/**
 What the characters of a JSON string literal stand for, against readings that do not use the
 functions of `JsonFormat`: UTF-8 by lead and continuation bytes, the one-letter escapes and the
 hex digits by a table of their spellings, and the texts of the serialiser as the shortest ones.
 */
module JsonCharacters {
  import opened Bytes
  import opened Wrappers
  import Decimal
  import opened JsonFormat

  // ---------------------------------------------------------------- UTF-8

  /** A byte of the form 10xxxxxx. */
  predicate IsContinuation(b: byte) {
    0x80 <= b <= 0xBF
  }

  /** How many bytes follow a lead byte; a continuation byte leads nothing. */
  function Followers(lead: byte): Option<nat> {
    if lead <= 0x7F then Some(0)
    else if 0xC0 <= lead <= 0xDF then Some(1)
    else if 0xE0 <= lead <= 0xEF then Some(2)
    else if 0xF0 <= lead <= 0xF7 then Some(3)
    else None
  }

  /** The bits that a lead byte with `n` followers contributes. */
  function LeadBits(lead: byte, n: nat): nat {
    match n
    case 0 => lead
    case 1 => lead as nat % 0x20
    case 2 => lead as nat % 0x10
    case _ => lead as nat % 8
  }

  /** Six more bits from each continuation byte. */
  function Continued(high: nat, s: seq<byte>): nat
    decreases |s|
  {
    if s == [] then high else Continued(high * 0x40 + s[0] as nat % 0x40, s[1..])
  }

  lemma ContinuedBySome(high: nat, s: seq<byte>)
    ensures |s| == 1 ==> Continued(high, s) == high * 0x40 + s[0] as nat % 0x40
    ensures |s| == 2 ==> Continued(high, s) == (high * 0x40 + s[0] as nat % 0x40) * 0x40 + s[1] as nat % 0x40
  {
    if |s| == 1 {
      assert s[1..] == [];
    } else if |s| == 2 {
      var next := high * 0x40 + s[0] as nat % 0x40;
      assert s[1..] == [s[1]] && [s[1]][1..] == [];
      assert Continued(next, [s[1]]) == Continued(next * 0x40 + s[1] as nat % 0x40, []);
    }
  }

  lemma ContinuedByNone(high: nat, s: seq<byte>)
    ensures s == [] ==> Continued(high, s) == high
  {
  }

  /** The least code point that needs `n` followers. */
  function Least(n: nat): nat {
    match n
    case 0 => 0
    case 1 => 0x80
    case 2 => 0x800
    case _ => 0x1_0000
  }

  /** `s` is the UTF-8 form of the code point `c`, and not an overlong one. */
  ghost predicate IsUtf8(s: seq<byte>, c: nat) {
    && s != []
    && Followers(s[0]) == Some(|s| - 1 as nat)
    && (forall i :: 1 <= i < |s| ==> IsContinuation(s[i]))
    && Continued(LeadBits(s[0], |s| - 1), s[1..]) == c
    && c >= Least(|s| - 1)
  }

  /** An escaped code point becomes its UTF-8 form. */
  lemma EscapeIsUtf8(c: nat)
    requires c < 0x1_0000
    ensures IsUtf8(Utf8(c), c)
  {
    hide Continued, LeadBits, Followers, IsContinuation;
    var s := Utf8(c);
    if c < 0x80 {
      NoFollower(c);
    }
    ContinuedByNone(LeadBits(s[0], |s| - 1), s[1..]);
    ContinuedBySome(LeadBits(s[0], |s| - 1), s[1..]);
    if 0x80 <= c < 0x800 {
      OneFollower(c);
    } else if c >= 0x800 {
      TwoFollowers(c);
    }
  }

  lemma NoFollower(c: nat)
    requires c < 0x80
    ensures Followers(c) == Some(0) && LeadBits(c, 0) == c
  {
  }

  lemma OneFollower(c: nat)
    requires 0x80 <= c < 0x800
    ensures var s := Utf8(c);
      && Followers(s[0]) == Some(1) && IsContinuation(s[1])
      && LeadBits(s[0], 1) * 0x40 + s[1] as nat % 0x40 == c
  {
    LowBitsKept(c / 0x40);
    LowBitsKept(c % 0x40);
  }

  lemma TwoFollowers(c: nat)
    requires 0x800 <= c < 0x1_0000
    ensures var s := Utf8(c);
      && Followers(s[0]) == Some(2) && IsContinuation(s[1]) && IsContinuation(s[2])
      && (LeadBits(s[0], 2) * 0x40 + s[1] as nat % 0x40) * 0x40 + s[2] as nat % 0x40 == c
  {
    LowBitsKept(c / 0x1000);
    LowBitsKept((c / 0x40) % 0x40);
    LowBitsKept(c % 0x40);
    assert c / 0x40 == (c / 0x1000) * 0x40 + (c / 0x40) % 0x40;
  }

  lemma LowBitsKept(x: nat)
    ensures x < 0x20 ==> (0xC0 + x) % 0x20 == x
    ensures x < 0x10 ==> (0xE0 + x) % 0x10 == x
    ensures x < 0x40 ==> (0x80 + x) % 0x40 == x
  {
  }

  /** No other bytes are the UTF-8 form of the code point. */
  lemma Utf8IsUnique(s: seq<byte>, c: nat)
    requires c < 0x1_0000 && IsUtf8(s, c)
    ensures s == Utf8(c)
  {
    hide Continued;
    var n := |s| - 1;
    ContinuedByNone(LeadBits(s[0], n), s[1..]);
    ContinuedBySome(LeadBits(s[0], n), s[1..]);
    if n == 1 {
      TwoBytes(s[0], s[1]);
    } else if n == 2 {
      ThreeBytes(s[0], s[1], s[2]);
    }
  }

  lemma TwoBytes(a: byte, b: byte)
    requires 0xC0 <= a <= 0xDF && IsContinuation(b)
    ensures var c := (a as nat % 0x20) * 0x40 + b as nat % 0x40;
      c < 0x800 && a == 0xC0 + c / 0x40 && b == 0x80 + c % 0x40
  {
  }

  lemma ThreeBytes(a: byte, b: byte, e: byte)
    requires 0xE0 <= a <= 0xEF && IsContinuation(b) && IsContinuation(e)
    ensures var c := ((a as nat % 0x10) * 0x40 + b as nat % 0x40) * 0x40 + e as nat % 0x40;
      a == 0xE0 + c / 0x1000 && b == 0x80 + (c / 0x40) % 0x40 && e == 0x80 + c % 0x40
  {
    var high := (a as nat % 0x10) * 0x40 + b as nat % 0x40;
    var c := high * 0x40 + e as nat % 0x40;
    assert c / 0x40 == high && c / 0x1000 == high / 0x40;
  }

  // ---------------------------------------------------------------- escapes

  const ESCAPE_LETTERS := "\"\\/bfnrt"
  const LOWER_DIGITS := "0123456789abcdef"
  const UPPER_DIGITS := "0123456789ABCDEF"

  /** Backspace, form feed, line feed, carriage return and tab for b, f, n, r, t; the others for themselves. */
  lemma ShortEscapesExactly(letter: byte, b: byte)
    ensures ShortEscape(letter) == Some(b) <==>
      exists i :: 0 <= i < |ESCAPE_LETTERS| && letter == ESCAPE_LETTERS[i] as int
        && b == ['"' as int, '\\' as int, '/' as int, 8, 12, 10, 13, 9][i]
  {
    if ShortEscape(letter) == Some(b) {
      var i :=
        if letter == '"' as int then 0 else if letter == '\\' as int then 1 else if letter == '/' as int then 2
        else if letter == 'b' as int then 3 else if letter == 'f' as int then 4 else if letter == 'n' as int then 5
        else if letter == 'r' as int then 6 else 7;
      assert letter == ESCAPE_LETTERS[i] as int;
    }
  }

  lemma HexDigitsExactly(b: byte, n: nat)
    ensures HexDigit(b) == Some(n) <==>
      n < 16 && (b == LOWER_DIGITS[n] as int || b == UPPER_DIGITS[n] as int)
  {
  }

  /** The number that four hex digits write, the most significant first. */
  ghost predicate Writes(c: Char, n: nat)
    requires c.Hex?
  {
    exists n3, n2, n1, n0 ::
      && HexDigit(c.d3) == Some(n3) && HexDigit(c.d2) == Some(n2)
      && HexDigit(c.d1) == Some(n1) && HexDigit(c.d0) == Some(n0)
      && n == 0x1000 * n3 + 0x100 * n2 + 0x10 * n1 + n0
  }

  lemma HexNumber(c: Char, n: nat)
    requires c.Hex?
    ensures Writes(c, n) <==> HexValue(c) == Some(n)
  {
    hide HexDigit;
    if HexValue(c) == Some(n) {
      assert HexDigit(c.d0) == Some(HexDigit(c.d0).value);
    }
  }

  /** A `\u` escape that is not a surrogate stands for the UTF-8 form of its number, and for nothing else. */
  lemma HexEscapesExactly(c: Char, s: seq<byte>)
    requires c.Hex?
    ensures CharOk(c) && CharValue(c) == s <==>
      exists n :: Writes(c, n) && !(0xD800 <= n <= 0xDFFF) && IsUtf8(s, n)
  {
    hide IsUtf8, Utf8, HexValue, Writes;
    if CharOk(c) && CharValue(c) == s {
      var n := HexValue(c).value;
      HexNumber(c, n);
      EscapeIsUtf8(n);
    }
    if n: nat :| Writes(c, n) && !(0xD800 <= n <= 0xDFFF) && IsUtf8(s, n) {
      HexNumber(c, n);
      Utf8IsUnique(s, n);
    }
  }

  /** The bytes that need an escape: the quote, the backslash and the control characters. */
  predicate NeedsEscape(b: byte) {
    b == '"' as int || b == '\\' as int || b < 0x20
  }

  lemma RawExactly(b: byte)
    ensures CharOk(Raw(b)) <==> !NeedsEscape(b)
  {
  }

  /** The serialiser writes a byte as it is unless that is not allowed, and never longer than need be. */
  lemma EscapeIsShortest(b: byte, c: Char)
    requires CharOk(c) && CharValue(c) == [b]
    ensures |CharText(EscapeOf(b))| <= |CharText(c)|
    ensures EscapeOf(b).Raw? <==> !NeedsEscape(b)
  {
  }

  // ---------------------------------------------------------------- punctuation, words and numbers

  /** The bytes of the grammar are those of JSON's own spelling. */
  lemma Spelling(b: byte)
    ensures NULL_TEXT == Ascii("null") && TRUE_TEXT == Ascii("true") && FALSE_TEXT == Ascii("false")
    ensures [OPEN, CLOSE, COLON, COMMA, QUOTE, BACKSLASH, MINUS, POINT, ZERO, LETTER_U] == Ascii("{}:,\"\\-.0u")
    ensures IsSpace(b) <==> b in {' ' as int, '\t' as int, '\n' as int, '\r' as int}
    ensures Decimal.IsDigit(b) <==> '0' as int <= b <= '9' as int
  {
  }

  /** Every further digit multiplies by ten and adds its place in "0123456789". */
  lemma DigitsArePositional(s: seq<byte>, n: nat)
    requires (forall i :: 0 <= i < |s| ==> Decimal.IsDigit(s[i])) && n < 10
    ensures Decimal.NatOf([]) == 0
    ensures Decimal.NatOf(s + [LOWER_DIGITS[n] as int]) == 10 * Decimal.NatOf(s) + n
  {
    var t := s + [LOWER_DIGITS[n] as int];
    assert t[..|t| - 1] == s;
  }

  /** The texts of the values that are no strings and no objects. */
  lemma ScalarsSpelled(b: bool, i: exact, streams: Streams)
    ensures Serialized(Null, streams) == Ascii("null")
    ensures Serialized(Bool(b), streams) == Ascii(if b then "true" else "false")
    ensures var digits := Decimal.DigitsOf(if i < 0 then -i else i);
      Serialized(Num(Whole(i)), streams) == Ascii(if i < 0 then "-" else "") + digits
      && Decimal.NatOf(digits) == (if i < 0 then -i else i)
  {
    Decimal.DigitsRoundTrip(if i < 0 then -i else i);
    Spelling(0);
    assert Ascii("") == [] && Ascii("-") == [MINUS];
  }
}
