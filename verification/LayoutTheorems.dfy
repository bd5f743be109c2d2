/**
 The decoder accepts exactly the datagrams that begin with a layout, and the message it gives is
 the one that the layout stands for. Each part has two lemmas: a laid-out part is read
 (`…IsRead`), and what was read was laid out (`…WasLaidOut`).
 */
module LayoutTheorems {
  import opened Bytes
  import opened Wrappers
  import opened WireFormat
  import opened WireRoundTrip
  import opened WireLocality
  import opened WireLayout

  // ---------------------------------------------------------------- flags

  lemma OptionalIsRead(o: Optional, n: nat, d: seq<byte>, p: nat)
    requires o.Wide(n) && At(d, p, o.Text())
    ensures SkipIf(o.Present?, d, p, n) == Parsed((), p + |o.Text()|)
    ensures o.Present? ==> Rd(d, p, n) == Parsed(FromLittleEndian(o.bytes), p + n)
  {
  }

  lemma OptionalWasLaidOut(present: bool, n: nat, d: seq<byte>, p: nat) returns (o: Optional)
    requires p <= |d|
    requires SkipIf(present, d, p, n).Parsed?
    ensures o.Present? == present && o.Wide(n) && At(d, p, o.Text())
    ensures SkipIf(present, d, p, n).next == p + |o.Text()| <= |d|
    ensures present ==> Rd(d, p, n) == Parsed(FromLittleEndian(o.bytes), p + n)
  {
    o := if present then Present(d[p..p + n]) else Absent;
  }

  /** The higher bits of a number are the bits of its half. */
  lemma HalfBits(f: nat)
    ensures Bit(f, 1) <==> f % 2 == 1
    ensures Bit(f, 2) == Bit(f / 2, 1) && Bit(f, 4) == Bit(f / 2, 2) && Bit(f, 8) == Bit(f / 2, 4)
    ensures Bit(f, 16) == Bit(f / 2, 8) && Bit(f, 32) == Bit(f / 2, 16) && Bit(f, 64) == Bit(f / 2, 32)
    ensures Bit(f, 128) == Bit(f / 2, 64)
  {
    assert f / 4 == f / 2 / 2;
    assert f / 8 == f / 2 / 4;
    assert f / 16 == f / 2 / 8;
    assert f / 32 == f / 2 / 16;
    assert f / 64 == f / 2 / 32;
    assert f / 128 == f / 2 / 64;
  }

  /** The flags of a byte are the bits of their sum, `low` bit by bit from the lowest. */
  lemma BitsOfSum(b1: bool, rest: nat)
    ensures var f := Weight(b1, 1) + 2 * rest;
      && Bit(f, 1) == b1 && Bit(f, 2) == Bit(rest, 1) && Bit(f, 4) == Bit(rest, 2) && Bit(f, 8) == Bit(rest, 4)
      && Bit(f, 16) == Bit(rest, 8) && Bit(f, 32) == Bit(rest, 16) && Bit(f, 64) == Bit(rest, 32)
      && Bit(f, 128) == Bit(rest, 64)
  {
    hide Bit;
    var f := Weight(b1, 1) + 2 * rest;
    assert f / 2 == rest && f % 2 == Weight(b1, 1);
    HalfBits(f);
  }

  lemma BitsOfWeights(b1: bool, b2: bool, b4: bool, b8: bool, b16: bool, b32: bool, b64: bool, b128: bool)
    ensures var f := Weight(b1, 1) + Weight(b2, 2) + Weight(b4, 4) + Weight(b8, 8)
                     + Weight(b16, 16) + Weight(b32, 32) + Weight(b64, 64) + Weight(b128, 128);
      && Bit(f, 1) == b1 && Bit(f, 2) == b2 && Bit(f, 4) == b4 && Bit(f, 8) == b8
      && Bit(f, 16) == b16 && Bit(f, 32) == b32 && Bit(f, 64) == b64 && Bit(f, 128) == b128
  {
    hide Bit;
    var f7 := Weight(b128, 1) + 2 * 0;
    var f6 := Weight(b64, 1) + 2 * f7;
    var f5 := Weight(b32, 1) + 2 * f6;
    var f4 := Weight(b16, 1) + 2 * f5;
    var f3 := Weight(b8, 1) + 2 * f4;
    var f2 := Weight(b4, 1) + 2 * f3;
    var f1 := Weight(b2, 1) + 2 * f2;
    BitsOfSum(b128, 0);
    BitsOfSum(b64, f7);
    BitsOfSum(b32, f6);
    BitsOfSum(b16, f5);
    BitsOfSum(b8, f4);
    BitsOfSum(b4, f3);
    BitsOfSum(b2, f2);
    BitsOfSum(b1, f1);
  }

  lemma WeightsOfBits(f: byte)
    ensures f == Weight(Bit(f, 1), 1) + Weight(Bit(f, 2), 2) + Weight(Bit(f, 4), 4) + Weight(Bit(f, 8), 8)
                 + Weight(Bit(f, 16), 16) + Weight(Bit(f, 32), 32) + Weight(Bit(f, 64), 64) + Weight(Bit(f, 128), 128)
  {
    hide Bit, Weight;
    HalfBits(f);
    HalfWeight(f, 1);
    HalfWeight(f, 2);
    HalfWeight(f, 4);
    HalfWeight(f, 8);
    HalfWeight(f, 16);
    HalfWeight(f, 32);
    HalfWeight(f, 64);
    HalfWeight(f, 128);
  }

  lemma HalfWeight(f: byte, w: nat)
    requires w in {1, 2, 4, 8, 16, 32, 64, 128}
    ensures Weight(Bit(f, w), w) == w * (f / w) - 2 * w * (f / (2 * w))
  {
    assert f / w / 2 == f / (2 * w);
  }

  // ---------------------------------------------------------------- scalars

  /** The sign of a number in two's complement is the top bit of its last byte. */
  lemma TopBit(body: seq<byte>)
    requires |body| > 0
    ensures 2 * FromLittleEndian(body) < Pow256(|body|) <==> body[|body| - 1] < 0x80
  {
    hide FromLittleEndian;
    var n := |body| - 1;
    var low, b := body[..n], body[n];
    assert body == low + [b];
    FromLittleEndianSnoc(low, b);
    FromLittleEndianBound(low);
    TopByte(FromLittleEndian(low), b, Pow256(n));
  }

  lemma TopByte(low: nat, b: byte, p: nat)
    requires low < p
    ensures 2 * (low + b * p) < 0x100 * p <==> b < 0x80
  {
    if b < 0x80 {
      assert b * p <= 0x7F * p;
    } else {
      assert b * p >= 0x80 * p;
    }
  }

  /** Reading `n` bytes reads the number that stands there. */
  lemma NumberIsRead(d: seq<byte>, p: nat, body: seq<byte>)
    requires At(d, p, body)
    ensures Rd(d, p, |body|) == Parsed(FromLittleEndian(body), p + |body|)
  {
  }

  lemma NumberWasLaidOut(d: seq<byte>, p: nat, n: nat)
    requires Rd(d, p, n).Parsed?
    ensures At(d, p, d[p..p + n])
    ensures Rd(d, p, n) == Parsed(FromLittleEndian(d[p..p + n]), p + n)
  {
  }

  lemma SignedIsRead(d: seq<byte>, p: nat, body: seq<byte>, t: SignedType, v: WireValue)
    requires At(d, p, body) && SignedMeans(body, t.Width(), t, v)
    ensures RdSigned(d, p, t) == Parsed(v, p + |body|)
  {
    TopBit(body);
    NumberIsRead(d, p, body);
    WordSizeIsPow256(t.Width());
  }

  lemma LengthIsRead(d: seq<byte>, p: nat, count: seq<byte>)
    requires |count| == 4 && At(d, p, count)
    ensures Rd(d, p, 4).Parsed? && Rd(d, p, 4).next == p + 4
    ensures var length := ToSigned(Rd(d, p, 4).value, 0x1_0000_0000);
      Announced(count) == if length <= 0 then 0 else length
  {
    TopBit(count);
    NumberIsRead(d, p, count);
    FromLittleEndianBound(count);
    Pow256Values();
  }

  lemma StringIsRead(d: seq<byte>, p: nat, body: seq<byte>, v: WireValue)
    requires At(d, p, body) && StringMeans(body, v)
    ensures RdString(d, p) == Parsed(body[4..], p + |body|) && v == String(body[4..])
  {
    hide Announced, Rd, FromLittleEndian;
    assert body == body[..4] + body[4..];
    AtSplit(d, p, body[..4], body[4..]);
    LengthIsRead(d, p, body[..4]);
  }

  lemma ScalarIsRead(d: seq<byte>, p: nat, code: nat, body: seq<byte>, v: WireValue)
    requires At(d, p, body) && ScalarMeans(code, body, v)
    ensures RdScalar(d, p, code) == Parsed(v, p + |body|)
  {
    hide At, FromLittleEndian, Rd, RdString, StringMeans, RdSigned, SignedMeans, Pow256;
    NumberIsRead(d, p, body);
    if code == 1 {
      assert body == [body[0]];
      At1(d, p, body[0]);
    } else if code == 2 {
      SignedIsRead(d, p, body, SByte, v);
    } else if code == 4 {
      SignedIsRead(d, p, body, Int16, v);
    } else if code == 6 {
      SignedIsRead(d, p, body, Int32, v);
    } else if code == 8 {
      SignedIsRead(d, p, body, Int64, v);
    } else if code == 12 {
      StringIsRead(d, p, body, v);
    } else if code == 13 {
      SignedIsRead(d, p, body, DateTime, v);
    }
  }

  lemma SignedWasLaidOut(d: seq<byte>, p: nat, t: SignedType)
    requires RdSigned(d, p, t).Parsed?
    ensures var r := RdSigned(d, p, t);
      r.next == p + t.Width() <= |d| && SignedMeans(d[p..r.next], t.Width(), t, r.value)
  {
    TopBit(d[p..p + t.Width()]);
    WordSizeIsPow256(t.Width());
  }

  lemma LengthWasLaidOut(d: seq<byte>, p: nat)
    requires Rd(d, p, 4).Parsed?
    ensures p + 4 <= |d| && Rd(d, p, 4).next == p + 4
    ensures var length := ToSigned(Rd(d, p, 4).value, 0x1_0000_0000);
      Announced(d[p..p + 4]) == if length <= 0 then 0 else length
  {
    LengthIsRead(d, p, d[p..p + 4]);
  }

  lemma StringWasLaidOut(d: seq<byte>, p: nat)
    requires RdString(d, p).Parsed?
    ensures var r := RdString(d, p);
      p <= r.next <= |d| && StringMeans(d[p..r.next], String(r.value))
  {
    hide Announced, FromLittleEndian;
    LengthWasLaidOut(d, p);
    var q := RdString(d, p).next;
    assert d[p..q][..4] == d[p..p + 4];
    assert d[p..q][4..] == d[p + 4..q];
  }

  lemma ScalarWasLaidOut(d: seq<byte>, p: nat, code: nat)
    requires p <= |d|
    requires RdScalar(d, p, code).Parsed?
    ensures var r := RdScalar(d, p, code);
      p <= r.next <= |d| && ScalarMeans(code, d[p..r.next], r.value)
  {
    hide FromLittleEndian, RdString, StringMeans, RdSigned, SignedMeans, Pow256;
    if code == 1 {
      NumberWasLaidOut(d, p, 1);
      At1(d, p, d[p]);
    } else if code == 2 {
      SignedWasLaidOut(d, p, SByte);
    } else if code == 4 {
      SignedWasLaidOut(d, p, Int16);
    } else if code == 6 {
      SignedWasLaidOut(d, p, Int32);
    } else if code == 8 {
      SignedWasLaidOut(d, p, Int64);
    } else if code == 12 {
      StringWasLaidOut(d, p);
    } else if code == 13 {
      SignedWasLaidOut(d, p, DateTime);
    }
  }

  // ---------------------------------------------------------------- variants and fields

  lemma {:induction false} ElementsAreRead(d: seq<byte>, p: nat, code: nat, bodies: seq<seq<byte>>, vs: seq<WireValue>)
    requires ElementsMean(code, bodies, vs) && At(d, p, Concat(bodies))
    ensures RdElements(d, p, code, |vs|) == Parsed(vs, p + |Concat(bodies)|)
    decreases |bodies|
  {
    hide At, RdScalar, ScalarMeans;
    if bodies == [] {
    } else {
      AtSplit(d, p, bodies[0], Concat(bodies[1..]));
      ScalarIsRead(d, p, code, bodies[0], vs[0]);
      ElementsAreRead(d, p + |bodies[0]|, code, bodies[1..], vs[1..]);
      assert [vs[0]] + vs[1..] == vs;
    }
  }

  lemma {:induction false} ElementsWereLaidOut(d: seq<byte>, p: nat, code: nat, n: nat) returns (bodies: seq<seq<byte>>)
    requires p <= |d|
    requires RdElements(d, p, code, n).Parsed?
    ensures ElementsMean(code, bodies, RdElements(d, p, code, n).value) && At(d, p, Concat(bodies))
    ensures RdElements(d, p, code, n).next == p + |Concat(bodies)| <= |d|
    decreases n
  {
    hide RdScalar, ScalarMeans;
    if n == 0 {
      bodies := [];
    } else {
      ScalarWasLaidOut(d, p, code);
      var q := RdScalar(d, p, code).next;
      var rest := ElementsWereLaidOut(d, q, code, n - 1);
      bodies := [d[p..q]] + rest;
      assert bodies[1..] == rest;
      AtSplit(d, p, d[p..q], Concat(rest));
    }
  }

  /** The bits of the type byte of a Variant. */
  lemma VariantMask(code: bits6)
    ensures !Bit(code, 0x40) && !Bit(code, 0x80) && code % 0x40 == code
    ensures !Bit(0x80 + code, 0x40) && Bit(0x80 + code, 0x80) && (0x80 + code) % 0x40 == code
  {
  }

  lemma VariantIsRead(d: seq<byte>, p: nat, l: VariantLayout, v: WireValue)
    requires VariantMeans(l, v) && At(d, p, VariantText(l))
    ensures RdVariant(d, p) == Parsed(v, p + |VariantText(l)|)
  {
    hide At, Rd, RdScalar, ScalarMeans, Announced, RdElements, Bit;
    VariantMask(l.code);
    match l
    case Single(code, body) =>
      AtSplit(d, p, [code], body);
      At1(d, p, code);
      ScalarIsRead(d, p + 1, code, body, v);
    case Several(code, count, bodies) =>
      AtSplit(d, p, [0x80 + code], count + Concat(bodies));
      AtSplit(d, p + 1, count, Concat(bodies));
      At1(d, p, 0x80 + code);
      LengthIsRead(d, p + 1, count);
      ElementsAreRead(d, p + 5, code, bodies, v.elements);
  }

  lemma ArrayWasLaidOut(d: seq<byte>, p: nat, code: bits6) returns (count: seq<byte>, bodies: seq<seq<byte>>)
    requires RdArray(d, p, code).Parsed?
    ensures |count| == 4 && VariantMeans(Several(code, count, bodies), RdArray(d, p, code).value)
    ensures At(d, p, count + Concat(bodies))
    ensures RdArray(d, p, code).next == p + |count + Concat(bodies)| <= |d|
  {
    hide RdScalar, ScalarMeans, Announced, FromLittleEndian;
    LengthWasLaidOut(d, p);
    count := d[p..p + 4];
    bodies := ElementsWereLaidOut(d, p + 4, code, Announced(count));
    AtSplit(d, p, count, Concat(bodies));
  }

  lemma VariantWasLaidOut(d: seq<byte>, p: nat) returns (l: VariantLayout)
    requires RdVariant(d, p).Parsed?
    ensures VariantMeans(l, RdVariant(d, p).value) && At(d, p, VariantText(l))
    ensures RdVariant(d, p).next == p + |VariantText(l)| <= |d|
  {
    hide Rd, RdScalar, ScalarMeans, RdArray, Bit;
    ByteWasLaidOut(d, p);
    var q := RdVariant(d, p).next;
    var code: bits6 := d[p] as nat % 0x40;
    TypeByte(d[p]);
    VariantMask(code);
    if Bit(d[p], 0x80) {
      var count, bodies := ArrayWasLaidOut(d, p + 1, code);
      l := Several(code, count, bodies);
      AtSplit(d, p, [d[p]], count + Concat(bodies));
    } else {
      ScalarWasLaidOut(d, p + 1, code);
      l := Single(code, d[p + 1..q]);
      AtSplit(d, p, [d[p]], d[p + 1..q]);
    }
  }

  lemma TypeByte(f: byte)
    requires !Bit(f, 0x40)
    ensures f == (if Bit(f, 0x80) then 0x80 else 0) + f % 0x40
  {
  }

  /** Each part of a DataValue is skipped in its turn. */
  lemma DataValueTailIsSkipped(d: seq<byte>, p: nat, l: FieldLayout, mask: nat)
    requires l.DataValueField?
    requires l.status.Wide(4) && l.sourceTime.Wide(8) && l.serverTime.Wide(8)
    requires l.sourcePicoseconds.Wide(2) && l.serverPicoseconds.Wide(2)
    requires Bit(mask, 2) == l.status.Present? && Bit(mask, 4) == l.sourceTime.Present?
    requires Bit(mask, 8) == l.serverTime.Present? && Bit(mask, 16) == l.sourcePicoseconds.Present?
    requires Bit(mask, 32) == l.serverPicoseconds.Present?
    requires At(d, p, DataValueTail(l))
    ensures SkipDataValueTail(d, p, mask) == Parsed((), p + |DataValueTail(l)|)
  {
    hide At, Bit, SkipIf, Optional.Text, Optional.Wide;
    var t1, t2, t3 := l.status.Text(), l.sourceTime.Text(), l.serverTime.Text();
    var t4, t5 := l.sourcePicoseconds.Text(), l.serverPicoseconds.Text();
    AtSplit(d, p, t1, t2 + (t3 + (t4 + t5)));
    OptionalIsRead(l.status, 4, d, p);
    AtSplit(d, p + |t1|, t2, t3 + (t4 + t5));
    OptionalIsRead(l.sourceTime, 8, d, p + |t1|);
    AtSplit(d, p + |t1| + |t2|, t3, t4 + t5);
    OptionalIsRead(l.serverTime, 8, d, p + |t1| + |t2|);
    AtSplit(d, p + |t1| + |t2| + |t3|, t4, t5);
    OptionalIsRead(l.sourcePicoseconds, 2, d, p + |t1| + |t2| + |t3|);
    OptionalIsRead(l.serverPicoseconds, 2, d, p + |t1| + |t2| + |t3| + |t4|);
  }

  lemma DataValueBits(l: FieldLayout)
    requires l.DataValueField?
    ensures var mask := DataValueMask(l);
      && Bit(mask, 1) == l.value.Given? && Bit(mask, 2) == l.status.Present?
      && Bit(mask, 4) == l.sourceTime.Present? && Bit(mask, 8) == l.serverTime.Present?
      && Bit(mask, 16) == l.sourcePicoseconds.Present? && Bit(mask, 32) == l.serverPicoseconds.Present?
  {
    hide Bit;
    BitsOfWeights(l.value.Given?, l.status.Present?, l.sourceTime.Present?, l.serverTime.Present?,
                  l.sourcePicoseconds.Present?, l.serverPicoseconds.Present?, l.unused % 2 == 1, l.unused / 2 == 1);
    assert 64 * l.unused == Weight(l.unused % 2 == 1, 64) + Weight(l.unused / 2 == 1, 128);
  }

  lemma FieldIsRead(d: seq<byte>, p: nat, l: FieldLayout, encoding: nat, v: WireValue)
    requires FieldMeans(l, encoding, v) && At(d, p, FieldText(l))
    ensures RdField(d, p, encoding) == Parsed(v, p + |FieldText(l)|)
  {
    hide At, Rd, RdVariant, Bit, VariantMeans, VariantText, SkipDataValueTail, DataValueTail, Optional.Wide, DataValueMask;
    if l.VariantField? {
      VariantIsRead(d, p, l.variant, v);
    } else {
      var mask := DataValueMask(l);
      DataValueBits(l);
      AtSplit(d, p, [mask], ValueText(l.value) + DataValueTail(l));
      AtSplit(d, p + 1, ValueText(l.value), DataValueTail(l));
      At1(d, p, mask);
      if l.value.Given? {
        VariantIsRead(d, p + 1, l.value.variant, v);
      }
      DataValueTailIsSkipped(d, p + 1 + |ValueText(l.value)|, l, mask);
    }
  }

  /** The parts that the mask announces stand where the decoder skips them. */
  lemma DataValueTailWasLaidOut(d: seq<byte>, p: nat, mask: byte, value: MaybeVariant) returns (l: FieldLayout)
    requires p <= |d|
    requires SkipDataValueTail(d, p, mask).Parsed?
    requires Bit(mask, 1) == value.Given?
    ensures l.DataValueField? && l.value == value
    ensures l.status.Wide(4) && l.sourceTime.Wide(8) && l.serverTime.Wide(8)
    ensures l.sourcePicoseconds.Wide(2) && l.serverPicoseconds.Wide(2)
    ensures DataValueMask(l) == mask
    ensures At(d, p, DataValueTail(l))
    ensures SkipDataValueTail(d, p, mask).next == p + |DataValueTail(l)| <= |d|
  {
    hide At, Bit, SkipIf, Optional.Text, Optional.Wide;
    var status := OptionalWasLaidOut(Bit(mask, 2), 4, d, p);
    var p1 := p + |status.Text()|;
    var sourceTime := OptionalWasLaidOut(Bit(mask, 4), 8, d, p1);
    var p2 := p1 + |sourceTime.Text()|;
    var serverTime := OptionalWasLaidOut(Bit(mask, 8), 8, d, p2);
    var p3 := p2 + |serverTime.Text()|;
    var sourcePicoseconds := OptionalWasLaidOut(Bit(mask, 16), 2, d, p3);
    var p4 := p3 + |sourcePicoseconds.Text()|;
    var serverPicoseconds := OptionalWasLaidOut(Bit(mask, 32), 2, d, p4);
    AtSplit(d, p3, sourcePicoseconds.Text(), serverPicoseconds.Text());
    AtSplit(d, p2, serverTime.Text(), sourcePicoseconds.Text() + serverPicoseconds.Text());
    AtSplit(d, p1, sourceTime.Text(), serverTime.Text() + (sourcePicoseconds.Text() + serverPicoseconds.Text()));
    WeightsOfBits(mask);
    var unused: bits2 := Weight(Bit(mask, 64), 1) + Weight(Bit(mask, 128), 2);
    l := DataValueField(value, status, sourceTime, serverTime, sourcePicoseconds, serverPicoseconds, unused);
    AtSplit(d, p, status.Text(), sourceTime.Text() + (serverTime.Text()
      + (sourcePicoseconds.Text() + serverPicoseconds.Text())));
  }

  lemma DataValueWasLaidOut(d: seq<byte>, p: nat) returns (l: FieldLayout)
    requires RdDataValue(d, p).Parsed?
    ensures l.DataValueField? && FieldMeans(l, 2, RdDataValue(d, p).value) && At(d, p, FieldText(l))
    ensures RdDataValue(d, p).next == p + |FieldText(l)| <= |d|
  {
    hide At, Rd, RdVariant, VariantMeans, VariantText, SkipDataValueTail, DataValueTail, Optional.Wide, DataValueMask, Bit;
    ByteWasLaidOut(d, p);
    var mask := d[p];
    var value := NoVariant;
    if Bit(mask, 1) {
      var variant := VariantWasLaidOut(d, p + 1);
      value := Given(variant);
    } else {
      AtNothing(d, p + 1);
    }
    l := DataValueTailWasLaidOut(d, p + 1 + |ValueText(value)|, mask, value);
    AtSplit(d, p + 1, ValueText(value), DataValueTail(l));
    AtSplit(d, p, [mask], ValueText(value) + DataValueTail(l));
  }

  lemma FieldWasLaidOut(d: seq<byte>, p: nat, encoding: nat) returns (l: FieldLayout)
    requires encoding in {0, 2, 3}
    requires RdField(d, p, encoding).Parsed?
    ensures FieldMeans(l, encoding, RdField(d, p, encoding).value) && At(d, p, FieldText(l))
    ensures RdField(d, p, encoding).next == p + |FieldText(l)| <= |d|
  {
    hide At, RdVariant, RdDataValue, VariantMeans, VariantText, DataValueMask, DataValueTail, ValueText;
    if encoding == 0 {
      var variant := VariantWasLaidOut(d, p);
      l := VariantField(variant);
    } else {
      l := DataValueWasLaidOut(d, p);
    }
  }

  lemma {:induction false} FieldsAreRead(d: seq<byte>, p: nat, ls: seq<FieldLayout>, encoding: nat, vs: seq<WireValue>)
    requires FieldsMean(ls, encoding, vs) && At(d, p, FieldsText(ls))
    ensures RdFields(d, p, encoding, |vs|) == Parsed(vs, p + |FieldsText(ls)|)
    decreases |ls|
  {
    hide At, RdField, FieldMeans, FieldText;
    if ls == [] {
    } else {
      AtSplit(d, p, FieldText(ls[0]), FieldsText(ls[1..]));
      FieldIsRead(d, p, ls[0], encoding, vs[0]);
      FieldsAreRead(d, p + |FieldText(ls[0])|, ls[1..], encoding, vs[1..]);
      assert [vs[0]] + vs[1..] == vs;
    }
  }

  lemma {:induction false} FieldsWereLaidOut(d: seq<byte>, p: nat, encoding: nat, n: nat) returns (ls: seq<FieldLayout>)
    requires p <= |d| && encoding in {0, 2, 3}
    requires RdFields(d, p, encoding, n).Parsed?
    ensures FieldsMean(ls, encoding, RdFields(d, p, encoding, n).value) && At(d, p, FieldsText(ls))
    ensures RdFields(d, p, encoding, n).next == p + |FieldsText(ls)| <= |d|
    decreases n
  {
    hide RdField, FieldMeans, FieldText;
    if n == 0 {
      ls := [];
    } else {
      var l := FieldWasLaidOut(d, p, encoding);
      var q := p + |FieldText(l)|;
      var rest := FieldsWereLaidOut(d, q, encoding, n - 1);
      ls := [l] + rest;
      assert ls[1..] == rest;
      AtSplit(d, p, FieldText(l), FieldsText(rest));
    }
  }

  // ---------------------------------------------------------------- DataSetMessages

  lemma DataSetBits(l: DataSetLayout)
    ensures var f := DataSetFlags(l);
      && (f / 2) % 4 == l.encoding && Bit(f, 8) == l.sequence.Present?
      && Bit(f, 16) == l.status.Present? && Bit(f, 32) == l.major.Present? && Bit(f, 64) == l.minor.Present?
      && Bit(f, 128) == l.second.SecondFlags?
  {
    hide Bit, Weight;
    var e: nat := l.encoding;
    TwoBits(e);
    BitsOfWeights(l.valid, e % 2 == 1, e / 2 == 1, l.sequence.Present?, l.status.Present?, l.major.Present?,
                  l.minor.Present?, l.second.SecondFlags?);
    EncodingBits(DataSetFlags(l));
  }

  lemma TwoBits(e: bits2)
    ensures 2 * e == Weight(e as nat % 2 == 1, 2) + Weight(e as nat / 2 == 1, 4)
    ensures e == Weight(e as nat % 2 == 1, 1) + Weight(e as nat / 2 == 1, 2)
  {
  }

  lemma EncodingBits(f: nat)
    ensures (f / 2) % 4 == Weight(Bit(f, 2), 1) + Weight(Bit(f, 4), 2)
  {
    assert f / 4 == f / 2 / 2;
  }

  lemma SecondBits(s: SecondFlags)
    requires s.SecondFlags?
    ensures var f := SecondText(s)[0];
      && f as nat % 16 == s.kind && Bit(f, 16) == s.timestamp.Present? && Bit(f, 32) == s.picoseconds.Present?
  {
    var f := SecondText(s)[0];
    assert f as nat / 16 == Weight(s.timestamp.Present?, 1) + Weight(s.picoseconds.Present?, 2) + 4 * s.unused;
    assert f / 32 == f / 16 / 2;
  }

  lemma FiveAreSkipped(d: seq<byte>, p: nat, time: Optional, pico: Optional, status: Optional, major: Optional,
                       minor: Optional, f1: nat, f2: nat)
    requires time.Wide(8) && pico.Wide(2) && status.Wide(2) && major.Wide(4) && minor.Wide(4)
    requires Bit(f2, 16) == time.Present? && Bit(f2, 32) == pico.Present?
    requires Bit(f1, 16) == status.Present? && Bit(f1, 32) == major.Present? && Bit(f1, 64) == minor.Present?
    requires At(d, p, time.Text() + (pico.Text() + (status.Text() + (major.Text() + minor.Text()))))
    ensures SkipDataSetExtras(d, p, f1, f2)
      == Parsed((), p + |time.Text()| + |pico.Text()| + |status.Text()| + |major.Text()| + |minor.Text()|)
  {
    hide At, Bit, SkipIf, Optional.Text, Optional.Wide;
    var t1, t2, t3, t4, t5 := time.Text(), pico.Text(), status.Text(), major.Text(), minor.Text();
    AtSplit(d, p, t1, t2 + (t3 + (t4 + t5)));
    OptionalIsRead(time, 8, d, p);
    AtSplit(d, p + |t1|, t2, t3 + (t4 + t5));
    OptionalIsRead(pico, 2, d, p + |t1|);
    AtSplit(d, p + |t1| + |t2|, t3, t4 + t5);
    OptionalIsRead(status, 2, d, p + |t1| + |t2|);
    AtSplit(d, p + |t1| + |t2| + |t3|, t4, t5);
    OptionalIsRead(major, 4, d, p + |t1| + |t2| + |t3|);
    OptionalIsRead(minor, 4, d, p + |t1| + |t2| + |t3| + |t4|);
  }

  lemma ExtrasAreSkipped(d: seq<byte>, p: nat, l: DataSetLayout, f1: nat, f2: nat)
    requires SecondIsLaidOut(l.second) && l.status.Wide(2) && l.major.Wide(4) && l.minor.Wide(4)
    requires Bit(f1, 16) == l.status.Present? && Bit(f1, 32) == l.major.Present? && Bit(f1, 64) == l.minor.Present?
    requires Bit(f2, 16) == (l.second.SecondFlags? && l.second.timestamp.Present?)
    requires Bit(f2, 32) == (l.second.SecondFlags? && l.second.picoseconds.Present?)
    requires At(d, p, ExtrasText(l))
    ensures SkipDataSetExtras(d, p, f1, f2) == Parsed((), p + |ExtrasText(l)|)
  {
    hide At, Bit, SkipDataSetExtras, Optional.Text, Optional.Wide;
    var time := if l.second.SecondFlags? then l.second.timestamp else Absent;
    var pico := if l.second.SecondFlags? then l.second.picoseconds else Absent;
    NothingAbsent();
    assert ExtrasText(l) == time.Text() + (pico.Text() + (l.status.Text() + (l.major.Text() + l.minor.Text())));
    FiveAreSkipped(d, p, time, pico, l.status, l.major, l.minor, f1, f2);
  }

  lemma NothingAbsent()
    ensures Absent.Text() == [] && forall n :: Absent.Wide(n)
  {
  }

  lemma KeyFrameIsRead(d: seq<byte>, p: nat, f1: nat, count: seq<byte>, ls: seq<FieldLayout>, vs: seq<WireValue>)
    requires KeyFrameMeans((f1 / 2) % 4, count, ls, vs)
    requires At(d, p, count + FieldsText(ls))
    ensures RdKeyFrame(d, p, f1) == Parsed(vs, p + |count + FieldsText(ls)|)
  {
    hide At, Rd, RdFields, FieldText, FieldMeans;
    AtSplit(d, p, count, FieldsText(ls));
    NumberIsRead(d, p, count);
    FieldsAreRead(d, p + 2, ls, (f1 / 2) % 4, vs);
  }

  lemma DataSetIsRead(d: seq<byte>, p: nat, l: DataSetLayout, m: DataSetMessage)
    requires DataSetMeans(l, m) && At(d, p, DataSetText(l))
    ensures RdDataSetMessage(d, p, m.dataSetWriterId) == Parsed(m, p + |DataSetText(l)|)
  {
    hide At, Rd, Bit, SkipDataSetExtras, RdKeyFrame, KeyFrameMeans, FieldsText, ExtrasText, Optional.Text,
      Optional.Wide, DataSetFlags, SecondText;
    var f1 := DataSetFlags(l);
    var t2, t3, t4, t5 := SecondText(l.second), l.sequence.Text(), ExtrasText(l), l.count + FieldsText(l.fields);
    var p2 := p + 1 + |t2|;
    var p3 := p2 + |t3|;
    AtSplit(d, p, [f1], t2 + (t3 + (t4 + t5)));
    AtSplit(d, p + 1, t2, t3 + (t4 + t5));
    AtSplit(d, p2, t3, t4 + t5);
    AtSplit(d, p3, t4, t5);
    At1(d, p, f1);
    DataSetBits(l);
    var f2: nat := SecondIsRead(d, p + 1, l.second);
    SequenceIsRead(d, p2, l.sequence, 0);
    ExtrasAreSkipped(d, p3, l, f1, f2);
    if IsKeepAlive(l.second) {
      NothingFollows(l.fields);
    } else {
      KeyFrameIsRead(d, p3 + |t4|, f1, l.count, l.fields, m.fields);
    }
  }

  lemma NothingFollows(ls: seq<FieldLayout>)
    requires ls == []
    ensures FieldsText(ls) == []
  {
  }

  /** The second flag byte as the decoder has it: 0 when it is not sent. */
  lemma SecondIsRead(d: seq<byte>, p: nat, s: SecondFlags) returns (f2: nat)
    requires SecondIsLaidOut(s) && At(d, p, SecondText(s))
    ensures (if s.SecondFlags? then Rd(d, p, 1) else Parsed(0, p)) == Parsed(f2, p + |SecondText(s)|)
    ensures f2 % 16 == if IsKeepAlive(s) then 3 else 0
    ensures Bit(f2, 16) == (s.SecondFlags? && s.timestamp.Present?)
    ensures Bit(f2, 32) == (s.SecondFlags? && s.picoseconds.Present?)
  {
    if s.SecondFlags? {
      f2 := SecondText(s)[0];
      SecondBits(s);
      At1(d, p, SecondText(s)[0]);
    } else {
      f2 := 0;
    }
  }

  lemma SequenceIsRead(d: seq<byte>, p: nat, o: Optional, absent: uint16)
    requires o.Wide(2) && At(d, p, o.Text())
    ensures RdIf(o.Present?, d, p, absent) == Parsed(o.Number(absent), p + |o.Text()|)
  {
    hide Rd, At;
    Pow256Values();
    if o.Present? {
      NumberIsRead(d, p, o.bytes);
    }
  }

  lemma ExtrasWereLaidOut(d: seq<byte>, p: nat, f1: nat, f2: nat)
    returns (time: Optional, pico: Optional, status: Optional, major: Optional, minor: Optional)
    requires p <= |d|
    requires SkipDataSetExtras(d, p, f1, f2).Parsed?
    ensures time.Wide(8) && pico.Wide(2) && status.Wide(2) && major.Wide(4) && minor.Wide(4)
    ensures time.Present? == Bit(f2, 16) && pico.Present? == Bit(f2, 32)
    ensures status.Present? == Bit(f1, 16) && major.Present? == Bit(f1, 32) && minor.Present? == Bit(f1, 64)
    ensures At(d, p, (time.Text() + pico.Text()) + (status.Text() + (major.Text() + minor.Text())))
    ensures SkipDataSetExtras(d, p, f1, f2).next
      == p + |time.Text()| + |pico.Text()| + |status.Text()| + |major.Text()| + |minor.Text()| <= |d|
  {
    hide At, Bit, SkipIf, Optional.Text, Optional.Wide;
    time := OptionalWasLaidOut(Bit(f2, 16), 8, d, p);
    var p1 := p + |time.Text()|;
    pico := OptionalWasLaidOut(Bit(f2, 32), 2, d, p1);
    var p2 := p1 + |pico.Text()|;
    status := OptionalWasLaidOut(Bit(f1, 16), 2, d, p2);
    var p3 := p2 + |status.Text()|;
    major := OptionalWasLaidOut(Bit(f1, 32), 4, d, p3);
    var p4 := p3 + |major.Text()|;
    minor := OptionalWasLaidOut(Bit(f1, 64), 4, d, p4);
    AtSplit(d, p3, major.Text(), minor.Text());
    AtSplit(d, p2, status.Text(), major.Text() + minor.Text());
    AtSplit(d, p, time.Text(), pico.Text());
    AtSplit(d, p, time.Text() + pico.Text(), status.Text() + (major.Text() + minor.Text()));
  }

  lemma KeyFrameWasLaidOut(d: seq<byte>, p: nat, f1: nat) returns (count: seq<byte>, ls: seq<FieldLayout>)
    requires p <= |d|
    requires RdKeyFrame(d, p, f1).Parsed?
    ensures KeyFrameMeans((f1 / 2) % 4, count, ls, RdKeyFrame(d, p, f1).value)
    ensures At(d, p, count + FieldsText(ls))
    ensures RdKeyFrame(d, p, f1).next == p + |count + FieldsText(ls)| <= |d|
  {
    hide RdFields, FieldText, FieldMeans;
    NumberWasLaidOut(d, p, 2);
    count := d[p..p + 2];
    ls := FieldsWereLaidOut(d, p + 2, (f1 / 2) % 4, FromLittleEndian(count));
    AtSplit(d, p, count, FieldsText(ls));
  }

  /** A flag byte of a DataSetMessage is made of what it announces. */
  lemma FlagsOfDataSet(f: byte, l: DataSetLayout)
    requires l.valid == Bit(f, 1) && l.encoding == (f as nat / 2) % 4 && l.sequence.Present? == Bit(f, 8)
    requires l.status.Present? == Bit(f, 16) && l.major.Present? == Bit(f, 32) && l.minor.Present? == Bit(f, 64)
    requires l.second.SecondFlags? == Bit(f, 128)
    ensures DataSetFlags(l) == f
  {
    hide Bit;
    WeightsOfBits(f);
    EncodingBits(f);
  }

  lemma FlagsOfSecond(f: byte, s: SecondFlags)
    requires s.SecondFlags? && s.kind == f as nat % 16 && s.unused == f as nat / 64
    requires s.timestamp.Present? == Bit(f, 16) && s.picoseconds.Present? == Bit(f, 32)
    ensures SecondText(s) == [f]
  {
    assert f as nat / 32 == f as nat / 16 / 2 && f as nat / 64 == f as nat / 32 / 2;
  }

  lemma ByteWasLaidOut(d: seq<byte>, p: nat)
    requires Rd(d, p, 1).Parsed?
    ensures p < |d| && At(d, p, [d[p]]) && Rd(d, p, 1) == Parsed(d[p] as nat, p + 1)
  {
    At1(d, p, d[p]);
  }

  lemma SequenceWasLaidOut(present: bool, d: seq<byte>, p: nat, absent: uint16) returns (o: Optional)
    requires p <= |d|
    requires RdIf(present, d, p, absent).Parsed?
    ensures o.Present? == present && o.Wide(2) && At(d, p, o.Text())
    ensures RdIf(present, d, p, absent) == Parsed(o.Number(absent), p + |o.Text()|) && p + |o.Text()| <= |d|
  {
    o := OptionalWasLaidOut(present, 2, d, p);
  }

  /** The second flag byte, from where the decoder looks for it. */
  lemma SecondWasLaidOut(d: seq<byte>, p: nat, present: bool) returns (f2: byte, text: seq<byte>)
    requires p <= |d|
    requires (if present then Rd(d, p, 1) else Parsed(0, p)).Parsed?
    ensures (if present then Rd(d, p, 1) else Parsed(0, p)) == Parsed(f2, p + |text|)
    ensures At(d, p, text) && text == (if present then [f2] else [])
    ensures !present ==> f2 == 0 && !Bit(f2, 16) && !Bit(f2, 32)
  {
    f2, text := 0, [];
    if present {
      ByteWasLaidOut(d, p);
      f2, text := d[p], [d[p]];
    }
  }

  /** The parts of a DataSetMessage, one after the other. */
  lemma DataSetParts(d: seq<byte>, p: nat, l: DataSetLayout)
    requires At(d, p, [DataSetFlags(l)]) && At(d, p + 1, SecondText(l.second))
    requires var p2 := p + 1 + |SecondText(l.second)|;
      var p3 := p2 + |l.sequence.Text()|;
      && At(d, p2, l.sequence.Text()) && At(d, p3, ExtrasText(l))
      && At(d, p3 + |ExtrasText(l)|, l.count + FieldsText(l.fields))
    ensures At(d, p, DataSetText(l))
  {
    hide At, DataSetFlags, SecondText, Optional.Text, ExtrasText, FieldsText;
    var f1, t2, t3, t4 := DataSetFlags(l), SecondText(l.second), l.sequence.Text(), ExtrasText(l);
    var t5 := l.count + FieldsText(l.fields);
    AtSplit(d, p + 1 + |t2| + |t3|, t4, t5);
    AtSplit(d, p + 1 + |t2|, t3, t4 + t5);
    AtSplit(d, p + 1, t2, t3 + (t4 + t5));
    AtSplit(d, p, [f1], t2 + (t3 + (t4 + t5)));
  }

  lemma DataSetWasLaidOut(d: seq<byte>, p: nat, writerId: uint16) returns (l: DataSetLayout)
    requires RdDataSetMessage(d, p, writerId).Parsed?
    ensures var r := RdDataSetMessage(d, p, writerId);
      && DataSetMeans(l, r.value) && r.value.dataSetWriterId == writerId
      && r.next == p + |DataSetText(l)| <= |d|
    ensures At(d, p, DataSetText(l))
  {
    hide At, Bit, SkipDataSetExtras, RdKeyFrame, KeyFrameMeans, FieldsText, Optional.Text, Optional.Wide,
      DataSetFlags, SecondText, FromLittleEndian;
    ByteWasLaidOut(d, p);
    var f1 := d[p];
    var f2, text := SecondWasLaidOut(d, p + 1, Bit(f1, 128));
    var p2 := p + 1 + |text|;
    var sequence := SequenceWasLaidOut(Bit(f1, 8), d, p2, 0);
    var p3 := p2 + |sequence.Text()|;
    var time, pico, status, major, minor := ExtrasWereLaidOut(d, p3, f1, f2);
    var p4 := SkipDataSetExtras(d, p3, f1, f2).next;
    var second := if Bit(f1, 128) then SecondFlags(f2 as nat % 16, time, pico, f2 as nat / 64) else NoSecondFlags;
    var count, fields := [], [];
    if f2 as nat % 16 != 3 {
      count, fields := KeyFrameWasLaidOut(d, p4, f1);
    } else {
      NothingStands(d, p4);
    }
    l := DataSetLayout(Bit(f1, 1), (f1 as nat / 2) % 4, second, sequence, status, major, minor, count, fields);
    FlagsOfDataSet(f1, l);
    if Bit(f1, 128) {
      FlagsOfSecond(f2, second);
    } else {
      NothingWithoutSecond(second);
    }
    NothingAbsent();
    assert ExtrasText(l) == (time.Text() + pico.Text()) + (status.Text() + (major.Text() + minor.Text()));
    DataSetParts(d, p, l);
  }

  lemma NothingWithoutSecond(s: SecondFlags)
    requires s.NoSecondFlags?
    ensures SecondText(s) == []
  {
  }

  lemma NothingStands(d: seq<byte>, p: nat)
    requires p <= |d|
    ensures FieldsText([]) == [] && At(d, p, [] + FieldsText([]))
  {
  }

  lemma {:induction false} DataSetsAreRead(d: seq<byte>, p: nat, ls: seq<DataSetLayout>, ms: seq<DataSetMessage>)
    requires DataSetsMean(ls, ms) && At(d, p, DataSetsText(ls))
    ensures RdDataSetMessages(d, p, WriterIds(ms)) == Parsed(ms, p + |DataSetsText(ls)|)
    decreases |ls|
  {
    hide At, RdDataSetMessage, DataSetMeans, DataSetText;
    if ls == [] {
    } else {
      AtSplit(d, p, DataSetText(ls[0]), DataSetsText(ls[1..]));
      DataSetIsRead(d, p, ls[0], ms[0]);
      DataSetsAreRead(d, p + |DataSetText(ls[0])|, ls[1..], ms[1..]);
      assert WriterIds(ms)[1..] == WriterIds(ms[1..]);
      assert [ms[0]] + ms[1..] == ms;
    }
  }

  ghost predicate HasWriters(ms: seq<DataSetMessage>, ids: seq<uint16>) {
    |ms| == |ids| && forall i :: 0 <= i < |ids| ==> ms[i].dataSetWriterId == ids[i]
  }

  lemma {:induction false} DataSetsWereLaidOut(d: seq<byte>, p: nat, ids: seq<uint16>) returns (ls: seq<DataSetLayout>)
    requires p <= |d|
    requires RdDataSetMessages(d, p, ids).Parsed?
    ensures var r := RdDataSetMessages(d, p, ids);
      && DataSetsMean(ls, r.value) && HasWriters(r.value, ids)
      && r.next == p + |DataSetsText(ls)| <= |d|
    ensures At(d, p, DataSetsText(ls))
    decreases |ids|
  {
    hide RdDataSetMessage, DataSetMeans, DataSetText;
    if ids == [] {
      ls := [];
    } else {
      var l := DataSetWasLaidOut(d, p, ids[0]);
      var q := p + |DataSetText(l)|;
      var rest := DataSetsWereLaidOut(d, q, ids[1..]);
      ls := [l] + rest;
      assert ls[1..] == rest;
      AtSplit(d, p, DataSetText(l), DataSetsText(rest));
    }
  }

  // ---------------------------------------------------------------- NetworkMessages

  ghost predicate Numbers(pairs: seq<seq<byte>>, ids: seq<uint16>) {
    && |ids| == |pairs|
    && forall i :: 0 <= i < |ids| ==> ids[i] == FromLittleEndian(pairs[i])
  }

  lemma {:induction false} PairsAreRead(d: seq<byte>, p: nat, pairs: seq<seq<byte>>)
    requires Pairs(pairs) && At(d, p, Concat(pairs))
    ensures var r := RdIds(d, p, |pairs|);
      r.Parsed? && r.next == p + |Concat(pairs)| && Numbers(pairs, r.value)
    decreases |pairs|
  {
    hide At, Rd;
    if pairs == [] {
    } else {
      Pow256Values();
      AtSplit(d, p, pairs[0], Concat(pairs[1..]));
      NumberIsRead(d, p, pairs[0]);
      PairsAreRead(d, p + 2, pairs[1..]);
    }
  }

  lemma {:induction false} PairsWereLaidOut(d: seq<byte>, p: nat, n: nat) returns (pairs: seq<seq<byte>>)
    requires p <= |d|
    requires RdIds(d, p, n).Parsed?
    ensures |pairs| == n && Pairs(pairs) && At(d, p, Concat(pairs))
    ensures RdIds(d, p, n).next == p + |Concat(pairs)| <= |d| && Numbers(pairs, RdIds(d, p, n).value)
    decreases n
  {
    if n == 0 {
      pairs := [];
    } else {
      NumberWasLaidOut(d, p, 2);
      Pow256Values();
      var rest := PairsWereLaidOut(d, p + 2, n - 1);
      pairs := [d[p..p + 2]] + rest;
      assert pairs[1..] == rest;
      AtSplit(d, p, d[p..p + 2], Concat(rest));
    }
  }

  /** What the decoder makes of the flag bytes. */
  function FlagsOf(l: MessageLayout): Flags {
    Flags(MainFlags(l),
          if l.extension.Extension? then l.extension.Text()[0] else 0,
          l.extension.Extension? && l.extension.more.More? && l.extension.more.promoted.Promoted?)
  }

  lemma MainBits(l: MessageLayout)
    ensures var f := MainFlags(l);
      && f as nat % 16 == 1 && Bit(f, 16) == l.publisherId.Present? && Bit(f, 32) == l.group.GroupLayout?
      && Bit(f, 64) == l.payload.PayloadLayout? && Bit(f, 128) == l.extension.Extension?
  {
    hide Bit;
    BitsOfWeights(true, false, false, false, l.publisherId.Present?, l.group.GroupLayout?,
                  l.payload.PayloadLayout?, l.extension.Extension?);
  }

  /** The lowest three bits, as a number. */
  lemma LowBits(f: nat)
    ensures f % 8 == Weight(Bit(f, 1), 1) + Weight(Bit(f, 2), 2) + Weight(Bit(f, 4), 4)
  {
    assert f % 4 == f % 2 + 2 * (f / 2 % 2) && f / 4 == f / 2 / 2;
    assert f % 8 == f % 4 + 4 * (f / 4 % 2);
  }

  lemma ExtensionBits(e: Extension)
    requires e.Extension?
    ensures var f := e.Text()[0];
      && f as nat % 8 == e.idType && Bit(f, 8) == e.classId.Present? && !Bit(f, 16)
      && Bit(f, 32) == e.timestamp.Present? && Bit(f, 64) == e.picoseconds.Present? && Bit(f, 128) == e.more.More?
  {
    LowNumber(e.idType, e.classId.Present?, false, e.timestamp.Present?, e.picoseconds.Present?, e.more.More?);
  }

  /** Three bits that are a number, below five flags. */
  lemma LowNumber(t: bits3, b8: bool, b16: bool, b32: bool, b64: bool, b128: bool)
    ensures var f := t + Weight(b8, 8) + Weight(b16, 16) + Weight(b32, 32) + Weight(b64, 64) + Weight(b128, 128);
      && f % 8 == t && Bit(f, 8) == b8 && Bit(f, 16) == b16 && Bit(f, 32) == b32 && Bit(f, 64) == b64
      && Bit(f, 128) == b128
  {
    hide Bit, Weight;
    LowBits(t);
    var f := t + Weight(b8, 8) + Weight(b16, 16) + Weight(b32, 32) + Weight(b64, 64) + Weight(b128, 128);
    BitsOfWeights(Bit(t, 1), Bit(t, 2), Bit(t, 4), b8, b16, b32, b64, b128);
    assert t == Weight(Bit(t, 1), 1) + Weight(Bit(t, 2), 2) + Weight(Bit(t, 4), 4);
    LowBits(f);
  }

  lemma MoreBits(more: More)
    requires more.More?
    ensures var f := Weight(more.promoted.Promoted?, 2) + 32 * more.unused;
      !Bit(f, 1) && (f / 4) % 8 == 0 && Bit(f, 2) == more.promoted.Promoted?
  {
    var f := Weight(more.promoted.Promoted?, 2) + 32 * more.unused;
    assert f / 4 == 8 * more.unused;
    assert f / 2 == Weight(more.promoted.Promoted?, 1) + 16 * more.unused;
  }

  lemma FlagsAreRead(d: seq<byte>, p: nat, l: MessageLayout)
    requires At(d, p, [MainFlags(l)]) && At(d, p + 1, l.extension.Text())
    ensures RdFlags(d, p) == Parsed(FlagsOf(l), p + 1 + |l.extension.Text()|)
  {
    hide At, Bit, Rd, MainFlags;
    MainBits(l);
    At1(d, p, MainFlags(l));
    var e := l.extension;
    if e.Extension? {
      var f := e.Text()[0];
      ExtensionBits(e);
      AtSplit(d, p + 1, [f], e.Text()[1..]);
      assert e.Text() == [f] + e.Text()[1..];
      At1(d, p + 1, f);
      if e.more.More? {
        MoreBits(e.more);
        assert e.Text()[1..] == [e.Text()[1]];
        At1(d, p + 2, e.Text()[1]);
      }
    }
  }

  lemma PublisherIsRead(d: seq<byte>, p: nat, l: MessageLayout, prior: NetworkMessage, m: NetworkMessage)
    requires PublisherMeans(l, prior, m) && At(d, p, l.publisherId.Text())
    ensures RdPublisherId(d, p, FlagsOf(l), PublisherId(prior.publisherIdType, prior.publisherId))
      == Parsed(PublisherId(m.publisherIdType, m.publisherId), p + |l.publisherId.Text()|)
  {
    hide At, Bit, Rd, MainFlags, Extension.Text;
    MainBits(l);
    if l.publisherId.Present? {
      NumberIsRead(d, p, l.publisherId.bytes);
      if l.extension.Extension? {
        ExtensionBits(l.extension);
      }
    }
  }

  lemma GroupBits(l: GroupLayout)
    requires l.GroupLayout?
    ensures var f := l.Flags();
      && Bit(f, 1) == l.id.Present? && Bit(f, 2) == l.version.Present?
      && Bit(f, 4) == l.number.Present? && Bit(f, 8) == l.sequence.Present?
  {
    hide Bit;
    var u: nat := l.unused;
    LowBits(u);
    LowBits(u / 2);
    HalfBits(u);
    assert u == u % 8 + 8 * (u / 8) && u / 2 / 4 == u / 8;
    BitsOfWeights(l.id.Present?, l.version.Present?, l.number.Present?, l.sequence.Present?,
                  Bit(u, 1), Bit(u, 2), Bit(u, 4), u / 8 == 1);
  }

  lemma GroupIsRead(d: seq<byte>, p: nat, l: GroupLayout, prior: NetworkMessage, m: NetworkMessage)
    requires GroupMeans(l, prior, m) && At(d, p, l.Text())
    ensures RdGroupHeader(d, p, l.GroupLayout?, prior)
      == Parsed(Group(m.writerGroupIdEnabled, m.writerGroupId, m.groupSequenceNumberEnabled, m.groupSequenceNumber),
                p + |l.Text()|)
  {
    hide At, Bit, Rd, SkipIf, RdIf, Optional.Text, Optional.Wide, Optional.Number, GroupLayout.Flags;
    if l.GroupLayout? {
      var f := l.Flags();
      var t1, t2, t3, t4 := l.id.Text(), l.version.Text(), l.number.Text(), l.sequence.Text();
      GroupBits(l);
      AtSplit(d, p, [f], t1 + (t2 + (t3 + t4)));
      At1(d, p, f);
      AtSplit(d, p + 1, t1, t2 + (t3 + t4));
      SequenceIsRead(d, p + 1, l.id, prior.writerGroupId);
      AtSplit(d, p + 1 + |t1|, t2, t3 + t4);
      OptionalIsRead(l.version, 4, d, p + 1 + |t1|);
      AtSplit(d, p + 1 + |t1| + |t2|, t3, t4);
      OptionalIsRead(l.number, 2, d, p + 1 + |t1| + |t2|);
      SequenceIsRead(d, p + 1 + |t1| + |t2| + |t3|, l.sequence, prior.groupSequenceNumber);
    }
  }

  lemma PayloadHeaderIsRead(d: seq<byte>, p: nat, l: PayloadLayout, ms: seq<DataSetMessage>)
    requires WritersMean(l, ms) && At(d, p, l.Text())
    ensures RdPayloadHeader(d, p, l.PayloadLayout?) == Parsed(WriterIds(ms), p + |l.Text()|)
  {
    hide At, Rd;
    if l.PayloadLayout? {
      AtSplit(d, p, [|l.ids| as byte], Concat(l.ids));
      At1(d, p, |l.ids|);
      PairsAreRead(d, p + 1, l.ids);
      assert RdIds(d, p + 1, |l.ids|).value == WriterIds(ms);
    } else {
      assert WriterIds(ms) == [0];
    }
  }

  lemma ExtendedHeaderIsSkipped(d: seq<byte>, p: nat, l: MessageLayout)
    requires l.extension.LaidOut()
    requires At(d, p, l.extension.TimeText() + l.extension.PromotedText())
    ensures SkipExtendedHeader(d, p, FlagsOf(l)) == Parsed((), p + |l.extension.TimeText() + l.extension.PromotedText()|)
  {
    hide At, Bit, SkipIf, Rd, Optional.Text, Optional.Wide, Extension.Text;
    var e := l.extension;
    if e.Extension? {
      ExtensionBits(e);
      var t1, t2 := e.timestamp.Text(), e.picoseconds.Text();
      AtSplit(d, p, t1 + t2, e.PromotedText());
      AtSplit(d, p, t1, t2);
      OptionalIsRead(e.timestamp, 8, d, p);
      OptionalIsRead(e.picoseconds, 2, d, p + |t1|);
      if FlagsOf(l).promoted {
        PromotedIsSkipped(d, p + |t1| + |t2|, e.more.promoted);
      }
    } else {
      NoBits(d, p);
    }
  }

  lemma PromotedIsSkipped(d: seq<byte>, p: nat, l: Promoted)
    requires l.Promoted? && |l.size| == 2 && |l.bytes| == FromLittleEndian(l.size)
    requires At(d, p, l.size + l.bytes)
    ensures SkipPromoted(d, p) == Parsed((), p + |l.size + l.bytes|)
  {
    AtSplit(d, p, l.size, l.bytes);
    NumberIsRead(d, p, l.size);
  }

  lemma NoBits(d: seq<byte>, p: nat)
    ensures !Bit(0, 8) && !Bit(0, 16) && !Bit(0, 32) && !Bit(0, 64)
    ensures forall n: nat :: SkipIf(false, d, p, n) == Parsed((), p)
  {
  }

  /** The parts of the header, one after the other. */
  ghost predicate HeaderParts(d: seq<byte>, l: MessageLayout) {
    var e := l.extension;
    var p1 := 1 + |e.Text()|;
    var p2 := p1 + |l.publisherId.Text()|;
    var p3 := p2 + |e.ClassIdText()|;
    var p4 := p3 + |l.group.Text()|;
    var p5 := p4 + |l.payload.Text()|;
    && At(d, 0, [MainFlags(l)]) && At(d, 1, e.Text()) && At(d, p1, l.publisherId.Text())
    && At(d, p2, e.ClassIdText()) && At(d, p3, l.group.Text()) && At(d, p4, l.payload.Text())
    && At(d, p5, e.TimeText() + e.PromotedText())
  }

  lemma HeaderInParts(d: seq<byte>, l: MessageLayout)
    ensures At(d, 0, HeaderText(l)) <==> HeaderParts(d, l)
  {
    hide At, MainFlags, Extension.Text, Extension.ClassIdText, Extension.TimeText, Extension.PromotedText,
      GroupLayout.Text, PayloadLayout.Text, Optional.Text;
    var e := l.extension;
    var t0: seq<byte>, t1, t2, t3 := [MainFlags(l)], e.Text(), l.publisherId.Text(), e.ClassIdText();
    var t4, t5, t6 := l.group.Text(), l.payload.Text(), e.TimeText() + e.PromotedText();
    AtSplit(d, 0, t0, t1 + (t2 + (t3 + (t4 + (t5 + t6)))));
    AtSplit(d, 1, t1, t2 + (t3 + (t4 + (t5 + t6))));
    AtSplit(d, 1 + |t1|, t2, t3 + (t4 + (t5 + t6)));
    AtSplit(d, 1 + |t1| + |t2|, t3, t4 + (t5 + t6));
    AtSplit(d, 1 + |t1| + |t2| + |t3|, t4, t5 + t6);
    AtSplit(d, 1 + |t1| + |t2| + |t3| + |t4|, t5, t6);
  }

  /** The header that a message has when it comes with the writers of `ms`. */
  function HeaderOf(m: NetworkMessage): Header {
    Header(PublisherId(m.publisherIdType, m.publisherId),
           Group(m.writerGroupIdEnabled, m.writerGroupId, m.groupSequenceNumberEnabled, m.groupSequenceNumber),
           WriterIds(m.messages))
  }

  lemma HeaderIsRead(d: seq<byte>, l: MessageLayout, prior: NetworkMessage, m: NetworkMessage)
    requires l.extension.LaidOut() && PublisherMeans(l, prior, m) && GroupMeans(l.group, prior, m)
    requires WritersMean(l.payload, m.messages)
    requires At(d, 0, HeaderText(l))
    ensures RdHeader(d, 0, prior) == Parsed(HeaderOf(m), |HeaderText(l)|)
  {
    hide At, Bit, MainFlags, Extension.Text, GroupLayout.Text, PayloadLayout.Text, Optional.Text, Optional.Wide,
      RdFlags, RdPublisherId, RdGroupHeader, RdPayloadHeader, SkipExtendedHeader, SkipIf, PublisherMeans, GroupMeans,
      WritersMean, Extension.TimeText, Extension.PromotedText;
    var e := l.extension;
    var p1 := 1 + |e.Text()|;
    var p2 := p1 + |l.publisherId.Text()|;
    var p3 := p2 + |e.ClassIdText()|;
    var p4 := p3 + |l.group.Text()|;
    var p5 := p4 + |l.payload.Text()|;
    HeaderInParts(d, l);
    MainBits(l);
    FlagsAreRead(d, 0, l);
    PublisherIsRead(d, p1, l, prior, m);
    ClassIdIsSkipped(d, p2, l);
    GroupIsRead(d, p3, l.group, prior, m);
    PayloadHeaderIsRead(d, p4, l.payload, m.messages);
    ExtendedHeaderIsSkipped(d, p5, l);
  }

  lemma ClassIdIsSkipped(d: seq<byte>, p: nat, l: MessageLayout)
    requires l.extension.LaidOut() && At(d, p, l.extension.ClassIdText())
    ensures SkipIf(Bit(FlagsOf(l).ext1, 8), d, p, 16) == Parsed((), p + |l.extension.ClassIdText()|)
  {
    hide At, Bit, SkipIf, Optional.Text, Optional.Wide, Extension.Text;
    if l.extension.Extension? {
      ExtensionBits(l.extension);
      OptionalIsRead(l.extension.classId, 16, d, p);
    } else {
      NoBits(d, p);
    }
  }

  lemma SizesAreRead(d: seq<byte>, p: nat, sizes: seq<seq<byte>>, n: nat)
    requires SizesLaidOut(sizes, n) && At(d, p, Concat(sizes))
    ensures n > 1 ==> RdIds(d, p, n).Parsed? && RdIds(d, p, n).next == p + |Concat(sizes)|
    ensures n <= 1 ==> |Concat(sizes)| == 0
  {
    hide At, RdIds, Concat;
    PairsAreRead(d, p, sizes);
    NothingToConcat(sizes);
  }

  lemma PayloadIsRead(d: seq<byte>, p: nat, sizes: seq<seq<byte>>, ls: seq<DataSetLayout>, ms: seq<DataSetMessage>)
    requires SizesLaidOut(sizes, |ms|) && DataSetsMean(ls, ms)
    requires At(d, p, Concat(sizes) + DataSetsText(ls))
    ensures RdPayload(d, p, WriterIds(ms)) == Parsed(ms, p + |Concat(sizes) + DataSetsText(ls)|)
  {
    hide At, DataSetsMean, DataSetsText, Concat, RdIds, RdDataSetMessages, SizesLaidOut, WriterIds;
    AtSplit(d, p, Concat(sizes), DataSetsText(ls));
    SizesAreRead(d, p, sizes, |ms|);
    DataSetsAreRead(d, p + |Concat(sizes)|, ls, ms);
  }

  lemma NothingToConcat(bodies: seq<seq<byte>>)
    ensures bodies == [] ==> Concat(bodies) == []
  {
  }

  /** A laid-out datagram is accepted, and the decoder gives the message it stands for. */
  lemma LayoutIsRead(d: seq<byte>, l: MessageLayout, prior: NetworkMessage, m: NetworkMessage)
    requires Means(l, prior, m) && At(d, 0, MessageText(l))
    ensures RdMessage(d, prior) == Parsed(m, |MessageText(l)|)
  {
    hide At, RdHeader, HeaderText, PublisherMeans, GroupMeans, WritersMean, SizesLaidOut, Extension.LaidOut,
      DataSetsMean, RdPayload, DataSetsText, Concat;
    var header, payload := HeaderText(l), Concat(l.sizes) + DataSetsText(l.dataSets);
    AtSplit(d, 0, header, payload);
    HeaderIsRead(d, l, prior, m);
    PayloadIsRead(d, |header|, l.sizes, l.dataSets, m.messages);
  }

  lemma PayloadWasLaidOut(d: seq<byte>, p: nat, ids: seq<uint16>)
    returns (sizes: seq<seq<byte>>, ls: seq<DataSetLayout>)
    requires p <= |d|
    requires RdPayload(d, p, ids).Parsed?
    ensures var r := RdPayload(d, p, ids);
      && SizesLaidOut(sizes, |ids|) && DataSetsMean(ls, r.value) && HasWriters(r.value, ids)
      && r.next == p + |Concat(sizes) + DataSetsText(ls)| <= |d|
    ensures At(d, p, Concat(sizes) + DataSetsText(ls))
  {
    hide At, DataSetsMean, DataSetsText, Concat, RdIds, RdDataSetMessages;
    sizes := [];
    if |ids| > 1 {
      sizes := PairsWereLaidOut(d, p, |ids|);
    }
    NothingToConcat(sizes);
    var q := p + |Concat(sizes)|;
    ls := DataSetsWereLaidOut(d, q, ids);
    AtNothing(d, p);
    AtSplit(d, p, Concat(sizes), DataSetsText(ls));
  }

  lemma AtNothing(d: seq<byte>, p: nat)
    requires p <= |d|
    ensures At(d, p, [])
  {
  }

  // The header, from what the decoder read.

  lemma MoreWasLaidOut(f: byte, promoted: Promoted) returns (more: More)
    requires !Bit(f, 1) && (f as nat / 4) % 8 == 0 && Bit(f, 2) == promoted.Promoted?
    ensures more.More? && more.promoted == promoted
    ensures Weight(promoted.Promoted?, 2) + 32 * more.unused == f
  {
    assert f as nat / 32 == f as nat / 4 / 8 && f as nat / 4 == f as nat / 2 / 2;
    more := More(promoted, f as nat / 32);
  }

  lemma FirstExtensionByte(f: byte, idType: bits3, classId: bool, timestamp: bool, picoseconds: bool, more: bool)
    requires idType == f as nat % 8 && classId == Bit(f, 8) && !Bit(f, 16) && timestamp == Bit(f, 32)
    requires picoseconds == Bit(f, 64) && more == Bit(f, 128)
    ensures f == idType + Weight(classId, 8) + Weight(timestamp, 32) + Weight(picoseconds, 64) + Weight(more, 128)
  {
    hide Bit;
    WeightsOfBits(f);
    LowBits(f);
  }

  lemma MainByte(f: byte, l: MessageLayout)
    requires f as nat % 16 == 1
    requires l.publisherId.Present? == Bit(f, 16) && l.group.GroupLayout? == Bit(f, 32)
    requires l.payload.PayloadLayout? == Bit(f, 64) && l.extension.Extension? == Bit(f, 128)
    ensures MainFlags(l) == f
  {
    hide Bit;
    WeightsOfBits(f);
    LowBits(f);
    assert f as nat % 8 == 1 && f as nat % 16 == f as nat % 8 + 8 * (f as nat / 8 % 2);
    EighthBit(f);
  }

  lemma EighthBit(f: nat)
    ensures Bit(f, 8) <==> f % 16 >= 8
  {
  }

  lemma GroupByte(f: byte, l: GroupLayout)
    requires l.GroupLayout? && l.unused == f as nat / 16
    requires l.id.Present? == Bit(f, 1) && l.version.Present? == Bit(f, 2)
    requires l.number.Present? == Bit(f, 4) && l.sequence.Present? == Bit(f, 8)
    ensures l.Flags() == f
  {
    hide Bit;
    LowBits(f);
    EighthBit(f);
    assert f as nat % 16 == f as nat % 8 + 8 * (f as nat / 8 % 2);
  }

  lemma GroupWasLaidOut(d: seq<byte>, p: nat, present: bool, prior: NetworkMessage) returns (l: GroupLayout)
    requires p <= |d|
    requires RdGroupHeader(d, p, present, prior).Parsed?
    ensures l.GroupLayout? == present && l.LaidOut() && At(d, p, l.Text())
    ensures RdGroupHeader(d, p, present, prior).next == p + |l.Text()| <= |d|
    ensures var g := RdGroupHeader(d, p, present, prior).value;
      && g.idEnabled == (present && l.id.Present?) && g.sequenceEnabled == (present && l.sequence.Present?)
      && g.id == (if present then l.id.Number(prior.writerGroupId) else prior.writerGroupId)
      && g.sequence == (if present then l.sequence.Number(prior.groupSequenceNumber) else prior.groupSequenceNumber)
  {
    hide At, Bit, Rd, SkipIf, RdIf, Optional.Text, Optional.Wide, Optional.Number, GroupLayout.Flags;
    if present {
      ByteWasLaidOut(d, p);
      var f := d[p];
      var id := SequenceWasLaidOut(Bit(f, 1), d, p + 1, prior.writerGroupId);
      var p2 := p + 1 + |id.Text()|;
      var version := OptionalWasLaidOut(Bit(f, 2), 4, d, p2);
      var p3 := p2 + |version.Text()|;
      var number := OptionalWasLaidOut(Bit(f, 4), 2, d, p3);
      var p4 := p3 + |number.Text()|;
      var sequence := SequenceWasLaidOut(Bit(f, 8), d, p4, prior.groupSequenceNumber);
      l := GroupLayout(id, version, number, sequence, f as nat / 16);
      GroupByte(f, l);
      AtSplit(d, p3, number.Text(), sequence.Text());
      AtSplit(d, p2, version.Text(), number.Text() + sequence.Text());
      AtSplit(d, p + 1, id.Text(), version.Text() + (number.Text() + sequence.Text()));
      AtSplit(d, p, [f], id.Text() + (version.Text() + (number.Text() + sequence.Text())));
    } else {
      l := NoGroup;
      AtNothing(d, p);
    }
  }

  lemma PayloadHeaderWasLaidOut(d: seq<byte>, p: nat, present: bool) returns (l: PayloadLayout)
    requires p <= |d|
    requires RdPayloadHeader(d, p, present).Parsed?
    ensures l.PayloadLayout? == present && l.LaidOut() && At(d, p, l.Text())
    ensures RdPayloadHeader(d, p, present).next == p + |l.Text()| <= |d|
    ensures var ids := RdPayloadHeader(d, p, present).value;
      if present then Numbers(l.ids, ids) else ids == [0]
  {
    hide At, RdIds;
    if present {
      ByteWasLaidOut(d, p);
      var ids := PairsWereLaidOut(d, p + 1, d[p]);
      l := PayloadLayout(ids);
      AtSplit(d, p, [d[p]], Concat(ids));
    } else {
      l := NoPayloadHeader;
      AtNothing(d, p);
    }
  }

  /** The extended flag bytes `text` that follow the flag byte `main`, and what they announce. */
  ghost predicate ExtendedFlags(main: byte, text: seq<byte>, flags: Flags) {
    && flags.main == main && main as nat % 16 == 1
    && (if !Bit(main, 128) then text == [] && flags.ext1 == 0 && !flags.promoted
        else
          && 1 <= |text| <= 2 && flags.ext1 == text[0] && (|text| == 2 <==> Bit(text[0], 128))
          && (if |text| == 1 then !flags.promoted else MoreFlags(text[1], flags.promoted)))
  }

  ghost predicate MoreFlags(f: byte, promoted: bool) {
    !Bit(f, 1) && (f as nat / 4) % 8 == 0 && promoted == Bit(f, 2)
  }

  lemma FlagsWereLaidOut(d: seq<byte>) returns (text: seq<byte>)
    requires RdFlags(d, 0).Parsed?
    ensures |d| > 0 && At(d, 0, [d[0]]) && At(d, 1, text)
    ensures RdFlags(d, 0).next == 1 + |text| <= |d|
    ensures ExtendedFlags(d[0], text, RdFlags(d, 0).value)
  {
    hide At, Rd, Bit;
    ByteWasLaidOut(d, 0);
    text := [];
    AtNothing(d, 1);
    if Bit(d[0], 128) {
      ByteWasLaidOut(d, 1);
      text := [d[1]];
      if Bit(d[1], 128) {
        ByteWasLaidOut(d, 2);
        text := [d[1], d[2]];
        AtSplit(d, 1, [d[1]], [d[2]]);
        assert [d[1]] + [d[2]] == text;
      }
    }
  }

  lemma PublisherWasLaidOut(d: seq<byte>, p: nat, flags: Flags, prior: PublisherId) returns (o: Optional)
    requires p <= |d|
    requires RdPublisherId(d, p, flags, prior).Parsed?
    ensures o.Present? == Bit(flags.main, 16) && At(d, p, o.Text())
    ensures RdPublisherId(d, p, flags, prior).next == p + |o.Text()| <= |d|
    ensures var r, t := RdPublisherId(d, p, flags, prior).value, flags.ext1 % 8;
      if o.Present? then
        && t <= 3 && o.Wide(IdWidth(t)) && r.id == FromLittleEndian(o.bytes)
        && r.idType == [IdByte, IdUInt16, IdUInt32, IdUInt64][t]
      else r == prior
  {
    hide Bit;
    if Bit(flags.main, 16) {
      var width := IdWidth(flags.ext1 % 8);
      NumberWasLaidOut(d, p, width);
      o := Present(d[p..p + width]);
    } else {
      o := Absent;
    }
  }

  lemma ExtendedHeaderWasLaidOut(d: seq<byte>, p: nat, flags: Flags)
    returns (time: Optional, pico: Optional, promoted: Promoted)
    requires p <= |d|
    requires SkipExtendedHeader(d, p, flags).Parsed?
    ensures time.Present? == Bit(flags.ext1, 32) && time.Wide(8) && pico.Present? == Bit(flags.ext1, 64) && pico.Wide(2)
    ensures promoted.Promoted? == flags.promoted && !Bit(flags.ext1, 16)
    ensures promoted.Promoted? ==> |promoted.size| == 2 && |promoted.bytes| == FromLittleEndian(promoted.size)
    ensures var text := time.Text() + pico.Text() + if promoted.Promoted? then promoted.size + promoted.bytes else [];
      At(d, p, text) && SkipExtendedHeader(d, p, flags).next == p + |text| <= |d|
  {
    hide Bit, SkipIf, At, Optional.Text, Optional.Wide, FromLittleEndian;
    time := OptionalWasLaidOut(Bit(flags.ext1, 32), 8, d, p);
    var p1 := p + |time.Text()|;
    pico := OptionalWasLaidOut(Bit(flags.ext1, 64), 2, d, p1);
    var p2 := p1 + |pico.Text()|;
    promoted := NoPromoted;
    AtNothing(d, p2);
    AtSplit(d, p, time.Text(), pico.Text());
    if flags.promoted {
      promoted := PromotedWasLaidOut(d, p2);
      AtSplit(d, p, time.Text() + pico.Text(), promoted.size + promoted.bytes);
    } else {
      assert time.Text() + pico.Text() + [] == time.Text() + pico.Text();
    }
  }

  lemma PromotedWasLaidOut(d: seq<byte>, p: nat) returns (l: Promoted)
    requires SkipPromoted(d, p).Parsed?
    ensures l.Promoted? && |l.size| == 2 && |l.bytes| == FromLittleEndian(l.size)
    ensures At(d, p, l.size + l.bytes) && SkipPromoted(d, p).next == p + |l.size + l.bytes| <= |d|
  {
    NumberWasLaidOut(d, p, 2);
    var size := d[p..p + 2];
    l := Promoted(size, d[p + 2..p + 2 + FromLittleEndian(size)]);
    AtSplit(d, p, l.size, l.bytes);
  }

  /** The extension with the given parts has the flag bytes that announce them. */
  lemma ExtensionOf(main: byte, text: seq<byte>, flags: Flags, classId: Optional, time: Optional, pico: Optional,
                    promoted: Promoted) returns (e: Extension)
    requires ExtendedFlags(main, text, flags)
    requires classId.Present? == Bit(flags.ext1, 8) && time.Present? == Bit(flags.ext1, 32)
    requires pico.Present? == Bit(flags.ext1, 64) && promoted.Promoted? == flags.promoted && !Bit(flags.ext1, 16)
    requires classId.Wide(16) && time.Wide(8) && pico.Wide(2)
    requires promoted.Promoted? ==> |promoted.size| == 2 && |promoted.bytes| == FromLittleEndian(promoted.size)
    ensures e.Extension? == Bit(main, 128) && e.LaidOut() && e.Text() == text
    ensures e.IdType() == flags.ext1 % 8 && e.ClassIdText() == classId.Text()
    ensures e.TimeText() + e.PromotedText()
      == time.Text() + pico.Text() + if promoted.Promoted? then promoted.size + promoted.bytes else []
  {
    hide Bit, Optional.Wide, FromLittleEndian;
    if Bit(main, 128) {
      var more := NoMore;
      if |text| == 2 {
        more := MoreWasLaidOut(text[1], promoted);
      }
      var f: nat := flags.ext1;
      e := Extension(f % 8, classId, time, pico, more);
      FirstExtensionByte(text[0], f % 8, classId.Present?, time.Present?, pico.Present?, more.More?);
    } else {
      NoBits([], 0);
      e := NoExtension;
    }
  }

  /** The header was laid out, whatever payload `sizes` and `dataSets` follows it. */
  lemma HeaderWasLaidOut(d: seq<byte>, prior: NetworkMessage, ms: seq<DataSetMessage>,
                         sizes: seq<seq<byte>>, dataSets: seq<DataSetLayout>) returns (l: MessageLayout)
    requires RdHeader(d, 0, prior).Parsed? && HasWriters(ms, RdHeader(d, 0, prior).value.ids)
    ensures l.sizes == sizes && l.dataSets == dataSets && l.extension.LaidOut()
    ensures var m := Assemble(RdHeader(d, 0, prior).value, ms);
      PublisherMeans(l, prior, m) && GroupMeans(l.group, prior, m) && WritersMean(l.payload, ms)
    ensures At(d, 0, HeaderText(l)) && RdHeader(d, 0, prior).next == |HeaderText(l)| <= |d|
  {
    hide At, Bit, Optional.Text, Optional.Wide, Optional.Number, RdFlags, RdPublisherId, RdGroupHeader,
      RdPayloadHeader, SkipExtendedHeader, SkipIf, GroupLayout.Text, PayloadLayout.Text, Extension.Text,
      Extension.TimeText, Extension.PromotedText, Extension.ClassIdText, Extension.LaidOut, Extension.IdType,
      FromLittleEndian, MainFlags, IdWidth;
    var text := FlagsWereLaidOut(d);
    var flags, p1 := RdFlags(d, 0).value, 1 + |text|;
    var publisher := PublisherWasLaidOut(d, p1, flags, PublisherId(prior.publisherIdType, prior.publisherId));
    var p2 := p1 + |publisher.Text()|;
    var classId := OptionalWasLaidOut(Bit(flags.ext1, 8), 16, d, p2);
    var p3 := p2 + |classId.Text()|;
    var group := GroupWasLaidOut(d, p3, Bit(flags.main, 32), prior);
    var p4 := p3 + |group.Text()|;
    var payload := PayloadHeaderWasLaidOut(d, p4, Bit(flags.main, 64));
    var p5 := p4 + |payload.Text()|;
    var time, pico, promoted := ExtendedHeaderWasLaidOut(d, p5, flags);
    var extension := ExtensionOf(d[0], text, flags, classId, time, pico, promoted);
    l := MessageLayout(extension, publisher, group, payload, sizes, dataSets);
    MainByte(d[0], l);
    HeaderInParts(d, l);
  }

  /** What the decoder accepts is laid out, and the layout stands for the message it gives. */
  lemma MessageWasLaidOut(d: seq<byte>, prior: NetworkMessage) returns (l: MessageLayout)
    requires RdMessage(d, prior).Parsed?
    ensures Means(l, prior, RdMessage(d, prior).value) && At(d, 0, MessageText(l))
    ensures RdMessage(d, prior).next == |MessageText(l)|
  {
    hide At, RdHeader, HeaderText, PublisherMeans, GroupMeans, WritersMean, SizesLaidOut, Extension.LaidOut,
      DataSetsMean, RdPayload, DataSetsText, Concat;
    var header, p := RdHeader(d, 0, prior).value, RdHeader(d, 0, prior).next;
    HeaderLocal(d, d, |d|, prior);
    var sizes, dataSets := PayloadWasLaidOut(d, p, header.ids);
    var ms := RdPayload(d, p, header.ids).value;
    l := HeaderWasLaidOut(d, prior, ms, sizes, dataSets);
    AtSplit(d, 0, HeaderText(l), Concat(l.sizes) + DataSetsText(l.dataSets));
  }

  /**
   The decoder meets the layout: a datagram is accepted as `m`, read up to `q`, exactly when it
   begins with a layout that is `q` bytes long and stands for `m`.
   */
  lemma DecoderMeetsLayout(d: seq<byte>, prior: NetworkMessage, m: NetworkMessage, q: nat)
    ensures RdMessage(d, prior) == Parsed(m, q)
      <==> exists l :: Means(l, prior, m) && At(d, 0, MessageText(l)) && q == |MessageText(l)|
  {
    hide Means, MessageText, At, RdMessage;
    if RdMessage(d, prior) == Parsed(m, q) {
      var l := MessageWasLaidOut(d, prior);
    }
    if l: MessageLayout :| Means(l, prior, m) && At(d, 0, MessageText(l)) && q == |MessageText(l)| {
      LayoutIsRead(d, l, prior, m);
    }
  }

  /** The datagram begins with a layout that stands for the message. */
  ghost predicate StandsFor(d: seq<byte>, prior: NetworkMessage, m: NetworkMessage) {
    exists l :: Means(l, prior, m) && At(d, 0, MessageText(l))
  }

  /** What is decoded is the one message that the datagram stands for; if there is none it is refused. */
  lemma DecodedExactly(d: seq<byte>, prior: NetworkMessage)
    ensures RdMessage(d, prior).Parsed? ==> StandsFor(d, prior, RdMessage(d, prior).value)
    ensures forall m :: StandsFor(d, prior, m) ==> RdMessage(d, prior).Parsed? && RdMessage(d, prior).value == m
  {
    hide Means, MessageText, At, RdMessage;
    if RdMessage(d, prior).Parsed? {
      var l := MessageWasLaidOut(d, prior);
    }
    forall m | StandsFor(d, prior, m)
      ensures RdMessage(d, prior).Parsed? && RdMessage(d, prior).value == m
    {
      var l :| Means(l, prior, m) && At(d, 0, MessageText(l));
      LayoutIsRead(d, l, prior, m);
    }
  }

  /** Into a fresh object, what is not sent is received as zero, and the publisher id as one of two bytes. */
  lemma NothingSentIsZero(l: MessageLayout, m: NetworkMessage)
    requires Means(l, FreshMessage, m)
    ensures l.publisherId.Absent? ==> m.publisherId == 0 && m.publisherIdType == IdUInt16
    ensures !m.writerGroupIdEnabled ==> m.writerGroupId == 0
    ensures !m.groupSequenceNumberEnabled ==> m.groupSequenceNumber == 0
    ensures l.payload.NoPayloadHeader? ==> |m.messages| == 1 && m.messages[0].dataSetWriterId == 0
  {
    hide FromLittleEndian, DataSetsMean, SizesLaidOut;
  }

  // ---------------------------------------------------------------- parts that carry nothing

  /** The layout without the parts that the decoder skips. */
  function BareField(l: FieldLayout): FieldLayout {
    if l.VariantField? then l
    else DataValueField(l.value, Absent, Absent, Absent, Absent, Absent, 0)
  }

  function BareDataSet(l: DataSetLayout): DataSetLayout {
    l.(status := Absent, major := Absent, minor := Absent,
       second := if IsKeepAlive(l.second) then SecondFlags(3, Absent, Absent, 0) else NoSecondFlags,
       fields := seq(|l.fields|, i requires 0 <= i < |l.fields| => BareField(l.fields[i])))
  }

  function BareGroup(l: GroupLayout): GroupLayout {
    if l.NoGroup? then l else l.(version := Absent, number := Absent, unused := 0)
  }

  function Bare(l: MessageLayout): MessageLayout {
    l.(extension := if l.extension.NoExtension? then NoExtension
                    else Extension(l.extension.idType, Absent, Absent, Absent, NoMore),
       group := BareGroup(l.group),
       dataSets := seq(|l.dataSets|, i requires 0 <= i < |l.dataSets| => BareDataSet(l.dataSets[i])))
  }

  lemma BareDataSetMeans(l: DataSetLayout, m: DataSetMessage)
    requires DataSetMeans(l, m)
    ensures DataSetMeans(BareDataSet(l), m)
  {
    hide ValueMeans, VariantMeans, FromLittleEndian;
  }

  lemma BareMeans(l: MessageLayout, prior: NetworkMessage, m: NetworkMessage)
    requires Means(l, prior, m)
    ensures Means(Bare(l), prior, m)
  {
    hide DataSetMeans, WritersMean, SizesLaidOut, BareDataSet, FromLittleEndian, IdWidth, Optional.Wide, Optional.Number;
    NothingAbsent();
    forall i | 0 <= i < |l.dataSets|
      ensures DataSetMeans(Bare(l).dataSets[i], m.messages[i])
    {
      BareDataSetMeans(l.dataSets[i], m.messages[i]);
    }
  }

  /**
   The timestamps, picoseconds, status codes and versions, the class id, the group version, the
   message number and the promoted fields make no difference to the message that is received.
   */
  lemma OptionalPartsCarryNothing(d: seq<byte>, e: seq<byte>, l: MessageLayout, prior: NetworkMessage)
    requires At(d, 0, MessageText(l)) && At(e, 0, MessageText(Bare(l)))
    requires exists m :: Means(l, prior, m)
    ensures RdMessage(d, prior).Parsed? && RdMessage(e, prior).Parsed?
    ensures RdMessage(e, prior).value == RdMessage(d, prior).value
  {
    hide Means, MessageText, At, RdMessage, Bare;
    var m: NetworkMessage :| Means(l, prior, m);
    BareMeans(l, prior, m);
    LayoutIsRead(d, l, prior, m);
    LayoutIsRead(e, Bare(l), prior, m);
  }
}
