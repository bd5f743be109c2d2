/**
 What the encoder writes is read back. Each lemma takes a datagram `d` in which the encoding of
 some part stands at position `p`, so that the parts compose without moving any bytes.
 */
module WireRoundTrip {
  import opened Bytes
  import opened Wrappers
  import opened WireFormat

  /** A number within the range of its declared type. */
  predicate InRange(v: WireValue) {
    match v
    case Signed(t, i) => -(WordSize(t.Width()) as int) <= 2 * i < WordSize(t.Width())
    case Unsigned(t, u) => u < WordSize(t.Width())
    case _ => true
  }

  /** A scalar that survives the wire. */
  predicate WellFormedScalar(v: WireValue) {
    && InRange(v)
    && (v.String? ==> |v.text| < 0x8000_0000)
    && !v.Foreign?
    && !v.Array?
  }

  /** A field that survives the wire: a scalar, or a flat homogeneous array that the decoder accepts. */
  predicate WellFormedValue(v: WireValue) {
    if v.Array? then
      && v.elementType < 0x40
      && |v.elements| <= MAX_DECODED_ARRAY_LENGTH
      && forall i :: 0 <= i < |v.elements| ==>
           WellFormedScalar(v.elements[i]) && TypeCode(v.elements[i]) == v.elementType
    else WellFormedScalar(v)
  }

  predicate WellFormedDataSet(m: DataSetMessage) {
    && !m.keepAlive
    && (!m.sequenceNumberEnabled ==> m.sequenceNumber == 0)
    && |m.fields| <= 0xFFFF
    && forall i :: 0 <= i < |m.fields| ==> WellFormedValue(m.fields[i])
  }

  lemma At1(d: seq<byte>, p: nat, b: byte)
    requires At(d, p, [b])
    ensures Rd(d, p, 1) == Parsed(b as nat, p + 1)
  {
    assert d[p..p + 1] == [b];
    assert FromLittleEndian([b]) == b + 0x100 * FromLittleEndian([]);
  }

  lemma AtLittleEndian(d: seq<byte>, p: nat, v: nat, n: nat)
    requires v < Pow256(n) && At(d, p, LittleEndian(v, n))
    ensures Rd(d, p, n) == Parsed(v, p + n)
  {
    LittleEndianRoundTrip(v, n);
  }

  lemma AtUint16(d: seq<byte>, p: nat, v: uint16)
    requires At(d, p, LittleEndian(v, 2))
    ensures Rd(d, p, 2) == Parsed(v as nat, p + 2)
  {
    Pow256Values();
    AtLittleEndian(d, p, v, 2);
  }

  lemma StringRoundTrip(d: seq<byte>, p: nat, s: seq<byte>)
    requires |s| < 0x8000_0000 && At(d, p, EncString(s))
    ensures RdString(d, p) == Parsed(s, p + |EncString(s)|)
  {
    hide LittleEndian, FromLittleEndian, Pow256;
    Pow256Values();
    AtSplit(d, p, LittleEndian(|s|, 4), s);
    AtLittleEndian(d, p, |s|, 4);
  }

  lemma SignedRoundTrip(d: seq<byte>, p: nat, t: SignedType, i: int64)
    requires InRange(Signed(t, i))
    requires At(d, p, LittleEndian(ToUnsigned(i, WordSize(t.Width())), t.Width()))
    ensures RdSigned(d, p, t) == Parsed(Signed(t, i), p + t.Width())
  {
    hide LittleEndian, FromLittleEndian, Pow256;
    var m := WordSize(t.Width());
    WordSizeIsPow256(t.Width());
    TwosComplement(i, m);
    AtLittleEndian(d, p, ToUnsigned(i, m), t.Width());
  }

  lemma ScalarRoundTrip(d: seq<byte>, p: nat, v: WireValue)
    requires WellFormedScalar(v)
    requires EncScalar(v).Some? && At(d, p, EncScalar(v).value)
    ensures RdScalar(d, p, TypeCode(v)) == Parsed(v, p + |EncScalar(v).value|)
  {
    hide LittleEndian, FromLittleEndian, Pow256;
    Pow256Values();
    match v
    case Null =>
    case Boolean(b) => At1(d, p, if b then 1 else 0);
    case Signed(t, i) => SignedRoundTrip(d, p, t, i);
    case Unsigned(t, u) =>
      WordSizeIsPow256(t.Width());
      AtLittleEndian(d, p, u, t.Width());
    case Float(b) => AtLittleEndian(d, p, b, 4);
    case Double(b) => AtLittleEndian(d, p, b, 8);
    case String(s) => StringRoundTrip(d, p, s);
  }

  lemma {:induction false} ElementsRoundTrip(d: seq<byte>, p: nat, t: byte, vs: seq<WireValue>)
    requires forall i :: 0 <= i < |vs| ==> WellFormedScalar(vs[i])
    requires EncElements(t, vs).Some? && At(d, p, EncElements(t, vs).value)
    ensures RdElements(d, p, t, |vs|) == Parsed(vs, p + |EncElements(t, vs).value|)
    decreases |vs|
  {
    hide At, Rd, LittleEndian, FromLittleEndian, Pow256, EncScalar, RdScalar;
    if vs == [] {
    } else {
      var head, tail := EncScalar(vs[0]).value, EncElements(t, vs[1..]).value;
      AtSplit(d, p, head, tail);
      ScalarRoundTrip(d, p, vs[0]);
      ElementsRoundTrip(d, p + |head|, t, vs[1..]);
      assert [vs[0]] + vs[1..] == vs;
    }
  }

  lemma VariantRoundTrip(d: seq<byte>, p: nat, v: WireValue)
    requires WellFormedValue(v)
    requires EncVariant(v).Some? && At(d, p, EncVariant(v).value)
    ensures RdVariant(d, p) == Parsed(v, p + |EncVariant(v).value|)
  {
    hide At, Rd, LittleEndian, FromLittleEndian, Pow256, EncScalar, RdScalar;
    if v.Array? {
      var n := |v.elements|;
      var body := EncElements(v.elementType, v.elements).value;
      Pow256Values();
      AtSplit(d, p, [ArrayMask(v.elementType)] + LittleEndian(n, 4), body);
      AtSplit(d, p, [ArrayMask(v.elementType)], LittleEndian(n, 4));
      At1(d, p, ArrayMask(v.elementType));
      AtLittleEndian(d, p + 1, n, 4);
      ElementsRoundTrip(d, p + 5, v.elementType, v.elements);
    } else {
      AtSplit(d, p, [TypeCode(v)], EncScalar(v).value);
      At1(d, p, TypeCode(v));
      ScalarRoundTrip(d, p + 1, v);
    }
  }

  lemma {:induction false} FieldsRoundTrip(d: seq<byte>, p: nat, vs: seq<WireValue>)
    requires forall i :: 0 <= i < |vs| ==> WellFormedValue(vs[i])
    requires EncFields(vs).Some? && At(d, p, EncFields(vs).value)
    ensures RdFields(d, p, 0, |vs|) == Parsed(vs, p + |EncFields(vs).value|)
    decreases |vs|
  {
    hide At, Rd, LittleEndian, FromLittleEndian, Pow256, EncVariant, RdVariant;
    if vs == [] {
    } else {
      var head, tail := EncVariant(vs[0]).value, EncFields(vs[1..]).value;
      AtSplit(d, p, head, tail);
      VariantRoundTrip(d, p, vs[0]);
      FieldsRoundTrip(d, p + |head|, vs[1..]);
      assert [vs[0]] + vs[1..] == vs;
    }
  }

  lemma DataSetRoundTrip(d: seq<byte>, p: nat, m: DataSetMessage)
    requires WellFormedDataSet(m)
    requires EncDataSetMessage(m).Some? && At(d, p, EncDataSetMessage(m).value)
    ensures RdDataSetMessage(d, p, m.dataSetWriterId) == Parsed(m, p + |EncDataSetMessage(m).value|)
  {
    hide At, Rd, LittleEndian, FromLittleEndian, Pow256, EncFields, RdFields;
    var fields := EncFields(m.fields).value;
    var flag: seq<byte> := [if m.sequenceNumberEnabled then 9 else 1];
    var sequence := if m.sequenceNumberEnabled then LittleEndian(m.sequenceNumber, 2) else [];
    var count := LittleEndian(|m.fields|, 2);
    AtSplit(d, p, EncDataSetHeader(m), fields);
    AtSplit(d, p, flag + sequence, count);
    AtSplit(d, p, flag, sequence);
    At1(d, p, flag[0]);
    if m.sequenceNumberEnabled {
      AtUint16(d, p + 1, m.sequenceNumber);
    }
    AtUint16(d, p + 1 + |sequence|, |m.fields|);
    FieldsRoundTrip(d, p + 1 + |sequence| + 2, m.fields);
  }

  function WriterIds(ms: seq<DataSetMessage>): (ids: seq<uint16>)
    ensures |ids| == |ms|
    ensures forall i :: 0 <= i < |ms| ==> ids[i] == ms[i].dataSetWriterId
  {
    if ms == [] then [] else [ms[0].dataSetWriterId] + WriterIds(ms[1..])
  }

  lemma {:induction false} WriterIdsRoundTrip(d: seq<byte>, p: nat, ms: seq<DataSetMessage>)
    requires At(d, p, EncWriterIds(ms))
    ensures RdIds(d, p, |ms|) == Parsed(WriterIds(ms), p + |EncWriterIds(ms)|)
    decreases |ms|
  {
    if ms == [] {
    } else {
      var head := LittleEndian(ms[0].dataSetWriterId, 2);
      AtSplit(d, p, head, EncWriterIds(ms[1..]));
      AtUint16(d, p, ms[0].dataSetWriterId);
      WriterIdsRoundTrip(d, p + 2, ms[1..]);
    }
  }

  lemma {:induction false} SizesAreSkipped(d: seq<byte>, p: nat, bodies: seq<seq<byte>>)
    requires EncSizes(bodies).Some? && At(d, p, EncSizes(bodies).value)
    ensures RdIds(d, p, |bodies|).Parsed?
    ensures RdIds(d, p, |bodies|).next == p + |EncSizes(bodies).value|
    decreases |bodies|
  {
    if bodies == [] {
    } else {
      AtSplit(d, p, LittleEndian(|bodies[0]|, 2), EncSizes(bodies[1..]).value);
      AtUint16(d, p, |bodies[0]|);
      SizesAreSkipped(d, p + 2, bodies[1..]);
    }
  }

  lemma {:induction false} BodiesRoundTrip(d: seq<byte>, p: nat, ms: seq<DataSetMessage>)
    requires forall i :: 0 <= i < |ms| ==> WellFormedDataSet(ms[i])
    requires EncBodies(ms).Some? && At(d, p, Concat(EncBodies(ms).value))
    ensures RdDataSetMessages(d, p, WriterIds(ms)) == Parsed(ms, p + |Concat(EncBodies(ms).value)|)
    decreases |ms|
  {
    hide At, Rd, LittleEndian, FromLittleEndian, Pow256, EncDataSetMessage, RdDataSetMessage;
    if ms == [] {
    } else {
      var bodies := EncBodies(ms).value;
      assert bodies[1..] == EncBodies(ms[1..]).value;
      AtSplit(d, p, bodies[0], Concat(bodies[1..]));
      DataSetRoundTrip(d, p, ms[0]);
      BodiesRoundTrip(d, p + |bodies[0]|, ms[1..]);
      assert WriterIds(ms)[1..] == WriterIds(ms[1..]);
      assert [ms[0]] + ms[1..] == ms;
    }
  }

  lemma PayloadRoundTrip(d: seq<byte>, p: nat, ms: seq<DataSetMessage>)
    requires forall i :: 0 <= i < |ms| ==> WellFormedDataSet(ms[i])
    requires EncPayload(ms).Some? && At(d, p, EncPayload(ms).value)
    ensures RdPayload(d, p, WriterIds(ms)) == Parsed(ms, p + |EncPayload(ms).value|)
  {
    hide At, Rd, LittleEndian, FromLittleEndian, Pow256, EncBodies, EncSizes, Concat, RdDataSetMessages, RdIds;
    var bodies := EncBodies(ms).value;
    var sizes := if |ms| > 1 then EncSizes(bodies).value else [];
    AtSplit(d, p, sizes, Concat(bodies));
    if |ms| > 1 {
      SizesAreSkipped(d, p, bodies);
    }
    BodiesRoundTrip(d, p + |sizes|, ms);
  }

  lemma FlagsRoundTrip(d: seq<byte>, p: nat, m: NetworkMessage)
    requires At(d, p, EncFlags(m) + EncPublisherId(m))
    requires m.publisherId < WordSize(m.publisherIdType.Width())
    ensures var flags := RdFlags(d, p);
      && flags.Parsed?
      && flags.next <= p + |EncFlags(m) + EncPublisherId(m)|
      && Bit(flags.value.main, 16) && Bit(flags.value.main, 64)
      && Bit(flags.value.main, 32) == HasGroupHeader(m)
      && flags.value.ext1 == m.publisherIdType.Code() as nat && !flags.value.promoted
      && (forall prior :: RdPublisherId(d, flags.next, flags.value, prior)
           == Parsed(PublisherId(m.publisherIdType, m.publisherId), p + |EncFlags(m) + EncPublisherId(m)|))
  {
    hide At, Rd, LittleEndian, FromLittleEndian, Pow256;
    var t := m.publisherIdType;
    var ext: seq<byte> := if t.IdByte? then [] else [t.Code()];
    var id := LittleEndian(m.publisherId, t.Width());
    AtSplit(d, p, EncFlags(m), EncPublisherId(m));
    AtSplit(d, p + 1, ext, id);
    At1(d, p, EncFlags(m)[0]);
    if !t.IdByte? {
      At1(d, p + 1, t.Code());
    }
    WordSizeIsPow256(t.Width());
    AtLittleEndian(d, p + 1 + |ext|, m.publisherId, t.Width());
  }

  /** The message as a receiving object `prior` sees it: numbers that are not sent keep their old value. */
  function Received(m: NetworkMessage, prior: NetworkMessage): NetworkMessage {
    m.(writerGroupId := if m.writerGroupIdEnabled then m.writerGroupId else prior.writerGroupId,
       groupSequenceNumber := if m.groupSequenceNumberEnabled then m.groupSequenceNumber
                              else prior.groupSequenceNumber)
  }

  lemma GroupRoundTrip(d: seq<byte>, p: nat, m: NetworkMessage, prior: NetworkMessage)
    requires At(d, p, EncGroupHeader(m))
    ensures RdGroupHeader(d, p, HasGroupHeader(m), prior)
      == Parsed(Group(m.writerGroupIdEnabled, Received(m, prior).writerGroupId,
                      m.groupSequenceNumberEnabled, Received(m, prior).groupSequenceNumber),
                p + |EncGroupHeader(m)|)
  {
    if HasGroupHeader(m) {
      var flags: byte := (if m.writerGroupIdEnabled then 1 else 0) + (if m.groupSequenceNumberEnabled then 8 else 0);
      var id := if m.writerGroupIdEnabled then LittleEndian(m.writerGroupId, 2) else [];
      var sequence := if m.groupSequenceNumberEnabled then LittleEndian(m.groupSequenceNumber, 2) else [];
      AtSplit(d, p, [flags] + id, sequence);
      AtSplit(d, p, [flags], id);
      At1(d, p, flags);
      if m.writerGroupIdEnabled {
        AtUint16(d, p + 1, m.writerGroupId);
      }
      if m.groupSequenceNumberEnabled {
        AtUint16(d, p + 1 + |id|, m.groupSequenceNumber);
      }
    }
  }

  lemma PayloadHeaderRoundTrip(d: seq<byte>, p: nat, ms: seq<DataSetMessage>)
    requires 1 <= |ms| <= 255 && At(d, p, EncPayloadHeader(ms))
    ensures RdPayloadHeader(d, p, true) == Parsed(WriterIds(ms), p + |EncPayloadHeader(ms)|)
  {
    AtSplit(d, p, [|ms| as byte], EncWriterIds(ms));
    At1(d, p, |ms|);
    WriterIdsRoundTrip(d, p + 1, ms);
  }

  /** A NetworkMessage that the wire carries faithfully. */
  predicate WellFormedMessage(m: NetworkMessage) {
    && 1 <= |m.messages| <= 255
    && m.publisherId < WordSize(m.publisherIdType.Width())
    && forall i :: 0 <= i < |m.messages| ==> WellFormedDataSet(m.messages[i])
  }

  /** Decoding at the start of a datagram that begins with an encoding gives the message back. */
  lemma MessageRoundTrip(d: seq<byte>, m: NetworkMessage, prior: NetworkMessage)
    requires WellFormedMessage(m)
    requires EncMessage(m).Some? && At(d, 0, EncMessage(m).value)
    ensures RdMessage(d, prior) == Parsed(Received(m, prior), |EncMessage(m).value|)
  {
    hide At, Rd, LittleEndian, FromLittleEndian, Pow256, EncFlags, EncPublisherId, EncGroupHeader,
      EncPayloadHeader, EncPayload, RdFlags, RdPublisherId, RdGroupHeader, RdPayloadHeader, RdPayload;
    var flags, id, group, header := EncFlags(m), EncPublisherId(m), EncGroupHeader(m), EncPayloadHeader(m.messages);
    var payload := EncPayload(m.messages).value;
    var p2 := |flags| + |id|;
    assert flags + (id + (group + (header + payload))) == (flags + id) + (group + (header + payload));
    AtSplit(d, 0, flags + id, group + (header + payload));
    AtSplit(d, p2, group, header + payload);
    AtSplit(d, p2 + |group|, header, payload);
    FlagsRoundTrip(d, 0, m);
    GroupRoundTrip(d, p2, m, prior);
    PayloadHeaderRoundTrip(d, p2 + |group|, m.messages);
    PayloadRoundTrip(d, p2 + |group| + |header|, m.messages);
    var f := RdFlags(d, 0).value;
    assert !Bit(f.ext1, 8) && !Bit(f.ext1, 16) && !Bit(f.ext1, 32) && !Bit(f.ext1, 64);
    assert RdHeader(d, 0, prior).Parsed?;
  }
}
