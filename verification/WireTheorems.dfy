/**
 The promises of the UADP codec, over all messages and all datagrams: what is encoded is decoded,
 the decoder is local, and every accepted datagram can be re-encoded to one that means the same.
 */
module WireTheorems {
  import opened Bytes
  import opened Wrappers
  import opened WireFormat
  import opened WireRoundTrip
  import opened WireLocality

  // ------------------------------------------------------------------ when the encoder succeeds

  predicate EncodableScalar(v: WireValue) {
    !v.Foreign? && !v.Array?
  }

  predicate EncodableValue(v: WireValue) {
    if v.Array? then
      && |v.elements| <= 0xFF_FFFF
      && forall i :: 0 <= i < |v.elements| ==>
           EncodableScalar(v.elements[i]) && TypeCode(v.elements[i]) == v.elementType
    else EncodableScalar(v)
  }

  predicate EncodableDataSet(m: DataSetMessage) {
    forall i :: 0 <= i < |m.fields| ==> EncodableValue(m.fields[i])
  }

  lemma {:induction false} ElementsEncodable(t: byte, vs: seq<WireValue>)
    ensures EncElements(t, vs).Some? <==>
      forall i :: 0 <= i < |vs| ==> EncodableScalar(vs[i]) && TypeCode(vs[i]) == t
  {
    if vs == [] {
    } else {
      ElementsEncodable(t, vs[1..]);
      assert vs == [vs[0]] + vs[1..];
    }
  }

  lemma VariantEncodable(v: WireValue)
    ensures EncVariant(v).Some? <==> EncodableValue(v)
  {
    if v.Array? {
      ElementsEncodable(v.elementType, v.elements);
    }
  }

  lemma {:induction false} FieldsEncodable(vs: seq<WireValue>)
    ensures EncFields(vs).Some? <==> forall i :: 0 <= i < |vs| ==> EncodableValue(vs[i])
  {
    hide EncVariant, EncodableValue;
    if vs == [] {
    } else {
      VariantEncodable(vs[0]);
      FieldsEncodable(vs[1..]);
      assert vs == [vs[0]] + vs[1..];
    }
  }

  lemma {:induction false} BodiesEncodable(ms: seq<DataSetMessage>)
    ensures EncBodies(ms).Some? <==> forall i :: 0 <= i < |ms| ==> EncodableDataSet(ms[i])
    ensures EncBodies(ms).Some? ==>
      forall i :: 0 <= i < |ms| ==> EncDataSetMessage(ms[i]) == Some(EncBodies(ms).value[i])
  {
    hide EncFields, EncodableValue, EncDataSetHeader;
    if ms == [] {
    } else {
      FieldsEncodable(ms[0].fields);
      BodiesEncodable(ms[1..]);
      assert ms == [ms[0]] + ms[1..];
    }
  }

  lemma {:induction false} SizesEncodable(bodies: seq<seq<byte>>)
    ensures EncSizes(bodies).Some? <==> forall i :: 0 <= i < |bodies| ==> |bodies[i]| <= 0xFFFF
  {
    if bodies == [] {
    } else {
      SizesEncodable(bodies[1..]);
      assert bodies == [bodies[0]] + bodies[1..];
    }
  }

  /** A DataSetMessage whose body can be announced in the size array of a multi-message payload. */
  predicate SmallBody(m: DataSetMessage) {
    EncDataSetMessage(m).Some? && |EncDataSetMessage(m).value| <= 0xFFFF
  }

  /** The encoder throws on exactly the messages that break one of these rules. */
  lemma EncoderSucceeds(m: NetworkMessage)
    ensures EncMessage(m).Some? <==>
      && 1 <= |m.messages| <= 255
      && (forall i :: 0 <= i < |m.messages| ==> EncodableDataSet(m.messages[i]))
      && (|m.messages| > 1 ==> forall i :: 0 <= i < |m.messages| ==> SmallBody(m.messages[i]))
  {
    hide EncodableDataSet, EncDataSetMessage;
    BodiesEncodable(m.messages);
    if EncBodies(m.messages).Some? {
      SizesEncodable(EncBodies(m.messages).value);
    }
  }

  // ------------------------------------------------------------------ round trip and injectivity

  /** Numbers that are switched off are zero, as a fresh object has them. */
  predicate DisabledNumbersZero(m: NetworkMessage) {
    && (!m.writerGroupIdEnabled ==> m.writerGroupId == 0)
    && (!m.groupSequenceNumberEnabled ==> m.groupSequenceNumber == 0)
  }

  /** The encoder succeeds on every well-formed message whose bodies fit, and decoding gives it back. */
  lemma WireRoundTrips(m: NetworkMessage)
    requires WellFormedMessage(m) && DisabledNumbersZero(m)
    requires |m.messages| > 1 ==> forall i :: 0 <= i < |m.messages| ==> SmallBody(m.messages[i])
    ensures EncMessage(m).Some?
    ensures RdMessage(EncMessage(m).value, FreshMessage) == Parsed(m, |EncMessage(m).value|)
  {
    hide EncMessage, RdMessage, SmallBody;
    EncoderSucceeds(m);
    forall i | 0 <= i < |m.messages|
      ensures EncodableDataSet(m.messages[i])
    {
    }
    MessageRoundTrip(EncMessage(m).value, m, FreshMessage);
  }

  lemma EncodingIsInjective(m: NetworkMessage, n: NetworkMessage)
    requires WellFormedMessage(m) && DisabledNumbersZero(m)
    requires WellFormedMessage(n) && DisabledNumbersZero(n)
    requires EncMessage(m).Some? && EncMessage(m) == EncMessage(n)
    ensures m == n
  {
    hide EncMessage, RdMessage;
    MessageRoundTrip(EncMessage(m).value, m, FreshMessage);
    MessageRoundTrip(EncMessage(n).value, n, FreshMessage);
  }

  // ------------------------------------------------------------------ locality

  /** An accepted datagram is accepted alike with any other bytes after those consumed. */
  lemma DecoderIgnoresTail(d: seq<byte>, e: seq<byte>, prior: NetworkMessage)
    requires RdMessage(d, prior).Parsed?
    requires SamePrefix(d, e, RdMessage(d, prior).next)
    ensures RdMessage(e, prior) == RdMessage(d, prior)
  {
    hide RdMessage;
    MessageLocal(d, e, RdMessage(d, prior).next, prior);
  }

  /** An accepted datagram is refused when it is cut anywhere before the last byte consumed. */
  lemma DecoderRefusesPrefixes(d: seq<byte>, k: nat, prior: NetworkMessage)
    requires RdMessage(d, prior).Parsed? && k < RdMessage(d, prior).next
    ensures RdMessage(d, prior).next <= |d| && RdMessage(d[..k], prior).Refused?
  {
    hide RdMessage;
    MessageLocal(d, d, |d|, prior);
    MessageLocal(d, d[..k], k, prior);
  }

  /** No strict prefix of an encoding is a datagram. */
  lemma EncodingHasNoAcceptedPrefix(m: NetworkMessage, k: nat, prior: NetworkMessage)
    requires WellFormedMessage(m) && EncMessage(m).Some? && k < |EncMessage(m).value|
    ensures RdMessage(EncMessage(m).value[..k], prior).Refused?
  {
    hide EncMessage, RdMessage;
    MessageRoundTrip(EncMessage(m).value, m, prior);
    DecoderRefusesPrefixes(EncMessage(m).value, k, prior);
  }

  // ------------------------------------------------------------------ normalisation

  /** What the decoder reads as a scalar is well formed and encodes into no more bytes. */
  lemma ScalarNormalises(d: seq<byte>, p: nat, t: nat)
    requires p <= |d| && RdScalar(d, p, t).Parsed?
    ensures var r := RdScalar(d, p, t);
      && WellFormedScalar(r.value) && TypeCode(r.value) as nat == t
      && EncScalar(r.value).Some? && p + |EncScalar(r.value).value| <= r.next <= |d|
  {
    hide LittleEndian, FromLittleEndian, Pow256, RdSigned, RdUnsigned;
    Pow256Values();
    match t
    case 2 => SignedNormalises(d, p, SByte);
    case 3 => UnsignedNormalises(d, p, Byte);
    case 4 => SignedNormalises(d, p, Int16);
    case 5 => UnsignedNormalises(d, p, UInt16);
    case 6 => SignedNormalises(d, p, Int32);
    case 7 => UnsignedNormalises(d, p, UInt32);
    case 8 => SignedNormalises(d, p, Int64);
    case 9 => UnsignedNormalises(d, p, UInt64);
    case 13 => SignedNormalises(d, p, DateTime);
    case _ =>
  }

  lemma SignedNormalises(d: seq<byte>, p: nat, t: SignedType)
    requires p <= |d| && RdSigned(d, p, t).Parsed?
    ensures var r := RdSigned(d, p, t);
      && WellFormedScalar(r.value) && TypeCode(r.value) == t.Code()
      && EncScalar(r.value).Some? && p + |EncScalar(r.value).value| <= r.next <= |d|
  {
    hide LittleEndian, FromLittleEndian, Pow256;
    Pow256Values();
  }

  lemma UnsignedNormalises(d: seq<byte>, p: nat, t: UnsignedType)
    requires p <= |d| && RdUnsigned(d, p, t).Parsed?
    ensures var r := RdUnsigned(d, p, t);
      && WellFormedScalar(r.value) && TypeCode(r.value) == t.Code()
      && EncScalar(r.value).Some? && p + |EncScalar(r.value).value| <= r.next <= |d|
  {
    hide LittleEndian, FromLittleEndian, Pow256;
    Pow256Values();
  }

  lemma {:induction false} ElementsNormalise(d: seq<byte>, p: nat, t: byte, n: nat)
    requires p <= |d| && RdElements(d, p, t, n).Parsed?
    ensures var r := RdElements(d, p, t, n);
      && (forall i :: 0 <= i < n ==> WellFormedScalar(r.value[i]) && TypeCode(r.value[i]) == t)
      && EncElements(t, r.value).Some? && p + |EncElements(t, r.value).value| <= r.next <= |d|
    decreases n
  {
    hide RdScalar, EncScalar;
    if n == 0 {
    } else {
      ScalarNormalises(d, p, t);
      ElementsNormalise(d, RdScalar(d, p, t).next, t, n - 1);
    }
  }

  lemma VariantNormalises(d: seq<byte>, p: nat)
    requires p <= |d| && RdVariant(d, p).Parsed?
    ensures var r := RdVariant(d, p);
      WellFormedValue(r.value) && EncVariant(r.value).Some? && p + |EncVariant(r.value).value| <= r.next <= |d|
  {
    hide RdScalar, EncScalar, Pow256, LittleEndian, FromLittleEndian, WellFormedScalar;
    var mask := Rd(d, p, 1).value;
    Pow256Values();
    if Bit(mask, 0x80) {
      var t: byte := mask % 0x40;
      var raw := Rd(d, p + 1, 4);
      var length := ToSigned(raw.value, 0x1_0000_0000);
      if length > 0 {
        ElementsNormalise(d, raw.next, t, length);
      }
    } else {
      ScalarNormalises(d, p + 1, mask % 0x40);
      assert WellFormedScalar(RdScalar(d, p + 1, mask % 0x40).value);
      NotArray(RdScalar(d, p + 1, mask % 0x40).value);
    }
  }

  lemma NotArray(v: WireValue)
    requires WellFormedScalar(v)
    ensures !v.Array?
  {
  }

  lemma FieldNormalises(d: seq<byte>, p: nat, encoding: nat)
    requires p <= |d| && RdField(d, p, encoding).Parsed?
    ensures var r := RdField(d, p, encoding);
      WellFormedValue(r.value) && EncVariant(r.value).Some? && p + |EncVariant(r.value).value| <= r.next <= |d|
  {
    hide RdVariant, Rd;
    if encoding == 0 {
      VariantNormalises(d, p);
    } else {
      RdLocal(d, d, |d|, p, 1);
      var mask := Rd(d, p, 1);
      if Bit(mask.value, 1) {
        VariantNormalises(d, p + 1);
      }
    }
  }

  lemma {:induction false} FieldsNormalise(d: seq<byte>, p: nat, encoding: nat, n: nat)
    requires p <= |d| && RdFields(d, p, encoding, n).Parsed?
    ensures var r := RdFields(d, p, encoding, n);
      && (forall i :: 0 <= i < n ==> WellFormedValue(r.value[i]))
      && EncFields(r.value).Some? && p + |EncFields(r.value).value| <= r.next <= |d|
    decreases n
  {
    hide RdField, EncVariant, WellFormedValue;
    if n == 0 {
    } else {
      FieldNormalises(d, p, encoding);
      FieldsNormalise(d, RdField(d, p, encoding).next, encoding, n - 1);
    }
  }

  /** The message as the encoder writes it, which is never as a keep-alive. */
  function Revived(m: DataSetMessage): DataSetMessage {
    m.(keepAlive := false)
  }

  /** A key frame never grows; a keep-alive message becomes an empty key frame of at most five bytes. */
  lemma DataSetNormalises(d: seq<byte>, p: nat, id: uint16)
    requires p <= |d| && RdDataSetMessage(d, p, id).Parsed?
    ensures var r := RdDataSetMessage(d, p, id);
      && r.value.dataSetWriterId == id
      && WellFormedDataSet(Revived(r.value))
      && EncDataSetMessage(r.value).Some?
      && p < r.next <= |d|
      && (if r.value.keepAlive then |EncDataSetMessage(r.value).value| <= 5
          else p + |EncDataSetMessage(r.value).value| <= r.next)
  {
    hide Rd, RdFields, EncFields, Pow256, EncDataSetHeader, WellFormedValue, SkipDataSetExtras;
    DataSetLocal(d, d, |d|, p, id);
    var r := RdDataSetMessage(d, p, id);
    RdLocal(d, d, |d|, p, 1);
    var flags1 := Rd(d, p, 1).value;
    RdLocal(d, d, |d|, p + 1, 1);
    var flags2 := if Bit(flags1, 128) then Rd(d, p + 1, 1) else Parsed(0, p + 1);
    RdLocal(d, d, |d|, flags2.next, 2);
    var sequence := RdIf(Bit(flags1, 8), d, flags2.next, 0);
    ExtrasLocal(d, d, |d|, sequence.next, flags1, flags2.value);
    DataSetHeaderSize(r.value);
    Pow256Values();
    if r.value.keepAlive {
      assert EncFields([]) == Some([]) by { EmptyFields(); }
    } else {
      var q := SkipDataSetExtras(d, sequence.next, flags1, flags2.value).next;
      RdLocal(d, d, |d|, q, 2);
      FieldsNormalise(d, q + 2, (flags1 / 2) % 4, Rd(d, q, 2).value);
    }
  }

  lemma DataSetHeaderSize(m: DataSetMessage)
    ensures |EncDataSetHeader(m)| == 3 + (if m.sequenceNumberEnabled then 2 else 0)
  {
  }

  lemma EmptyFields()
    ensures EncFields([]) == Some([])
  {
  }

  /** Each DataSetMessage of an accepted payload is well formed, up to keep-alive, and small. */
  lemma {:induction false} DataSetsNormalise(d: seq<byte>, p: nat, ids: seq<uint16>)
    requires p <= |d| && RdDataSetMessages(d, p, ids).Parsed?
    ensures var ms := RdDataSetMessages(d, p, ids).value;
      forall i :: 0 <= i < |ids| ==>
        && WellFormedDataSet(Revived(ms[i])) && EncDataSetMessage(ms[i]).Some?
        && |EncDataSetMessage(ms[i]).value| <= (if ms[i].keepAlive then 5 else |d| - p)
    decreases |ids|
  {
    hide RdDataSetMessage, EncDataSetMessage, WellFormedDataSet, Revived;
    if ids == [] {
    } else {
      DataSetNormalises(d, p, ids[0]);
      DataSetsNormalise(d, RdDataSetMessage(d, p, ids[0]).next, ids[1..]);
    }
  }

  lemma {:induction false} IdsCount(d: seq<byte>, p: nat, present: bool)
    requires p <= |d| && RdPayloadHeader(d, p, present).Parsed?
    ensures 1 <= |RdPayloadHeader(d, p, present).value| <= 255
  {
    Pow256Values();
  }

  /** An accepted header reads at least one byte and names 1 to 255 messages and an id that fits. */
  lemma HeaderFits(d: seq<byte>, prior: NetworkMessage)
    requires prior.publisherId < WordSize(prior.publisherIdType.Width())
    requires RdHeader(d, 0, prior).Parsed?
    ensures var h := RdHeader(d, 0, prior);
      && 1 <= |h.value.ids| <= 255 && 1 <= h.next <= |d|
      && h.value.publisher.id < WordSize(h.value.publisher.idType.Width())
      && (!h.value.group.idEnabled ==> h.value.group.id == prior.writerGroupId)
      && (!h.value.group.sequenceEnabled ==> h.value.group.sequence == prior.groupSequenceNumber)
  {
    hide Rd, RdGroupHeader, RdPayloadHeader, SkipExtendedHeader, Pow256;
    var flags := RdFlags(d, 0);
    var main, ext1 := flags.value.main, flags.value.ext1;
    var priorId := PublisherId(prior.publisherIdType, prior.publisherId);
    var id := RdPublisherId(d, flags.next, flags.value, priorId);
    FlagsLocal(d, d, |d|, 0);
    RdLocal(d, d, |d|, 0, 1);
    PublisherLocal(d, d, |d|, flags.next, flags.value, priorId);
    var classId := SkipIf(Bit(ext1, 8), d, id.next, 16);
    GroupLocal(d, d, |d|, classId.next, Bit(main, 32), prior);
    GroupKeepsPrior(d, classId.next, Bit(main, 32), prior);
    var group := RdGroupHeader(d, classId.next, Bit(main, 32), prior);
    PayloadHeaderLocal(d, d, |d|, group.next, Bit(main, 64));
    IdsCount(d, group.next, Bit(main, 64));
    HeaderLocal(d, d, |d|, prior);
    ExtendedLocal(d, d, |d|, RdPayloadHeader(d, group.next, Bit(main, 64)).next, flags.value);
    if Bit(main, 16) {
      WordSizeIsPow256(id.value.idType.Width());
      RdFits(d, flags.next, id.value.idType.Width());
    }
  }

  lemma RdFits(d: seq<byte>, p: nat, n: nat)
    ensures Rd(d, p, n).Parsed? ==> Rd(d, p, n).value < Pow256(n)
  {
  }

  lemma GroupKeepsPrior(d: seq<byte>, p: nat, present: bool, prior: NetworkMessage)
    requires RdGroupHeader(d, p, present, prior).Parsed?
    ensures var g := RdGroupHeader(d, p, present, prior).value;
      && (!g.idEnabled ==> g.id == prior.writerGroupId)
      && (!g.sequenceEnabled ==> g.sequence == prior.groupSequenceNumber)
  {
    hide Rd, Pow256;
  }

  /** The message with every keep-alive turned into an empty key frame. */
  function AllRevived(ms: seq<DataSetMessage>): (r: seq<DataSetMessage>)
    ensures |r| == |ms|
    ensures forall i :: 0 <= i < |ms| ==> r[i] == Revived(ms[i])
  {
    if ms == [] then [] else [Revived(ms[0])] + AllRevived(ms[1..])
  }

  lemma {:induction false} RevivalDoesNotShow(ms: seq<DataSetMessage>)
    ensures EncBodies(AllRevived(ms)) == EncBodies(ms)
    ensures EncWriterIds(AllRevived(ms)) == EncWriterIds(ms)
  {
    hide EncFields, LittleEndian;
    if ms == [] {
    } else {
      RevivalDoesNotShow(ms[1..]);
      assert AllRevived(ms)[1..] == AllRevived(ms[1..]);
      assert EncDataSetMessage(Revived(ms[0])) == EncDataSetMessage(ms[0]);
    }
  }

  lemma RevivedMessageEncodesAlike(m: NetworkMessage)
    ensures EncMessage(m.(messages := AllRevived(m.messages))) == EncMessage(m)
  {
    hide EncBodies, EncWriterIds, EncSizes, Concat, LittleEndian;
    RevivalDoesNotShow(m.messages);
    var r := m.(messages := AllRevived(m.messages));
    assert EncPayload(r.messages) == EncPayload(m.messages);
    assert EncPayloadHeader(r.messages) == EncPayloadHeader(m.messages);
    assert EncFlags(r) == EncFlags(m) && EncPublisherId(r) == EncPublisherId(m) && EncGroupHeader(r) == EncGroupHeader(m);
  }

  /** The receive buffer of the UDP receiver; no datagram is longer. */
  const RECEIVE_BUFFER := 65536

  /**
   Whatever liberties an accepted datagram takes (DataValue fields, timestamps, promoted fields,
   version fields, negative lengths), its message can be encoded, and decoding that encoding into
   the same object gives the message again, with keep-alives become empty key frames.
   */
  lemma Normalisation(d: seq<byte>, prior: NetworkMessage)
    requires |d| <= RECEIVE_BUFFER
    requires prior.publisherId < WordSize(prior.publisherIdType.Width())
    requires RdMessage(d, prior).Parsed?
    ensures var m := RdMessage(d, prior).value;
      && EncMessage(m).Some?
      && RdMessage(EncMessage(m).value, prior)
           == Parsed(m.(messages := AllRevived(m.messages)), |EncMessage(m).value|)
  {
    hide RdHeader, RdPayload, EncMessage, EncDataSetMessage, WellFormedDataSet, Revived, EncodableDataSet;
    var h := RdHeader(d, 0, prior);
    var ids := h.value.ids;
    HeaderFits(d, prior);
    PayloadNormalises(d, h.next, ids);
    var m := RdMessage(d, prior).value;
    forall i | 0 <= i < |m.messages|
      ensures EncodableDataSet(m.messages[i]) && SmallBody(m.messages[i])
    {
      BodyEncodable(m.messages[i]);
    }
    EncoderSucceeds(m);
    RevivedMessageEncodesAlike(m);
    var revived := m.(messages := AllRevived(m.messages));
    NormalRoundTrip(revived, prior);
  }

  lemma BodyEncodable(m: DataSetMessage)
    requires EncDataSetMessage(m).Some?
    ensures EncodableDataSet(m)
  {
    FieldsEncodable(m.fields);
  }

  lemma NormalRoundTrip(m: NetworkMessage, prior: NetworkMessage)
    requires WellFormedMessage(m) && EncMessage(m).Some? && Received(m, prior) == m
    ensures RdMessage(EncMessage(m).value, prior) == Parsed(m, |EncMessage(m).value|)
  {
    hide EncMessage, RdMessage;
    MessageRoundTrip(EncMessage(m).value, m, prior);
  }

  lemma PayloadNormalises(d: seq<byte>, p: nat, ids: seq<uint16>)
    requires p <= |d| && RdPayload(d, p, ids).Parsed?
    ensures var ms := RdPayload(d, p, ids).value;
      && |ms| == |ids|
      && forall i :: 0 <= i < |ids| ==>
        && WellFormedDataSet(Revived(ms[i])) && EncDataSetMessage(ms[i]).Some?
        && |EncDataSetMessage(ms[i]).value| <= (if ms[i].keepAlive then 5 else |d| - p)
  {
    hide RdIds, RdDataSetMessages, EncDataSetMessage, WellFormedDataSet, Revived;
    IdsLocal(d, d, |d|, p, |ids|);
    var q := if |ids| > 1 then RdIds(d, p, |ids|).next else p;
    DataSetsNormalise(d, q, ids);
  }

  /** The re-encoded datagram means the same exactly when the original carried no keep-alive. */
  lemma NormalisationIsFaithful(d: seq<byte>, prior: NetworkMessage)
    requires |d| <= RECEIVE_BUFFER
    requires prior.publisherId < WordSize(prior.publisherIdType.Width())
    requires RdMessage(d, prior).Parsed?
    ensures var m := RdMessage(d, prior).value;
      && EncMessage(m).Some?
      && (RdMessage(EncMessage(m).value, prior) == Parsed(m, |EncMessage(m).value|)
          <==> forall i :: 0 <= i < |m.messages| ==> !m.messages[i].keepAlive)
  {
    hide RdMessage, EncMessage;
    Normalisation(d, prior);
    var m := RdMessage(d, prior).value;
    var r := m.(messages := AllRevived(m.messages));
    if forall i :: 0 <= i < |m.messages| ==> !m.messages[i].keepAlive {
      assert r.messages == m.messages;
    } else {
      var i :| 0 <= i < |m.messages| && m.messages[i].keepAlive;
      assert r.messages[i] != m.messages[i];
    }
  }

  // ------------------------------------------------------------------ equality of wire values

  predicate IsNaN32(b: uint32) {
    (b / 0x80_0000) % 0x100 == 0xFF && b % 0x80_0000 != 0
  }

  predicate IsNaN64(b: uint64) {
    (b / 0x10_0000_0000_0000) % 0x800 == 0x7FF && b % 0x10_0000_0000_0000 != 0
  }

  /** Equality of floating-point numbers on their patterns: NaN equals nothing, the zeros are equal. */
  predicate FloatsEqual32(a: uint32, b: uint32) {
    !IsNaN32(a) && !IsNaN32(b) && (a == b || (a % 0x8000_0000 == 0 && b % 0x8000_0000 == 0))
  }

  predicate FloatsEqual64(a: uint64, b: uint64) {
    && !IsNaN64(a) && !IsNaN64(b)
    && (a == b || (a % 0x8000_0000_0000_0000 == 0 && b % 0x8000_0000_0000_0000 == 0))
  }

  /** The comparison that the source offers on wire values. */
  predicate ValuesEqual(a: WireValue, b: WireValue)
    decreases a
  {
    match (a, b)
    case (Null, Null) => true
    case (Boolean(x), Boolean(y)) => x == y
    case (Signed(s, x), Signed(t, y)) => s == t && x == y
    case (Unsigned(s, x), Unsigned(t, y)) => s == t && x == y
    case (Float(x), Float(y)) => FloatsEqual32(x, y)
    case (Double(x), Double(y)) => FloatsEqual64(x, y)
    case (String(x), String(y)) => x == y
    case (Array(s, x), Array(t, y)) =>
      s == t && |x| == |y| && forall i :: 0 <= i < |x| ==> ValuesEqual(x[i], y[i])
    case _ => false
  }

  /** A value with no NaN and no unsupported type in it. */
  predicate Comparable(v: WireValue) {
    match v
    case Float(b) => !IsNaN32(b)
    case Double(b) => !IsNaN64(b)
    case Foreign(_) => false
    case Array(_, vs) => forall i :: 0 <= i < |vs| ==> Comparable(vs[i])
    case _ => true
  }

  lemma {:induction false} EqualToItself(v: WireValue)
    ensures ValuesEqual(v, v) <==> Comparable(v)
  {
    if v.Array? {
      forall i | 0 <= i < |v.elements|
        ensures ValuesEqual(v.elements[i], v.elements[i]) <==> Comparable(v.elements[i])
      {
        EqualToItself(v.elements[i]);
      }
    }
  }

  /**
   In the comparison of the source, a field comes back from the wire equal to itself exactly when
   it holds no NaN: the bits do come back, but NaN is not equal to NaN.
   */
  lemma FieldComesBackEqual(v: WireValue)
    requires WellFormedValue(v)
    ensures EncVariant(v).Some? && RdVariant(EncVariant(v).value, 0).Parsed?
    ensures ValuesEqual(v, RdVariant(EncVariant(v).value, 0).value) <==> Comparable(v)
  {
    VariantEncodable(v);
    VariantRoundTrip(EncVariant(v).value, 0, v);
    EqualToItself(v);
  }
}
