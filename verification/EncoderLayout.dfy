/**
 What the encoder writes, in terms of the layout: the plain one, with no part that it could leave
 out, every flag bit that nothing uses at zero, and sizes that are those of the DataSetMessages.
 */
module EncoderLayout {
  import opened Bytes
  import opened Wrappers
  import opened WireFormat
  import opened WireRoundTrip
  import opened WireLayout
  import opened LayoutTheorems
  import WireTheorems

  // ---------------------------------------------------------------- the plain layout

  /** A Boolean is 0 or 1, and the length of a string is not negative. */
  predicate PlainScalar(code: nat, body: seq<byte>) {
    && (code == 1 ==> |body| == 1 && body[0] <= 1)
    && (code == 12 ==> |body| >= 4 && body[3] < 0x80)
  }

  predicate PlainVariant(l: VariantLayout) {
    match l
    case Single(code, body) => PlainScalar(code, body)
    case Several(code, count, bodies) =>
      |count| == 4 && count[3] < 0x80 && forall i :: 0 <= i < |bodies| ==> PlainScalar(code, bodies[i])
  }

  predicate PlainField(l: FieldLayout) {
    l.VariantField? && PlainVariant(l.variant)
  }

  predicate PlainDataSet(l: DataSetLayout) {
    && l.valid && l.encoding == 0 && l.second.NoSecondFlags?
    && l.status.Absent? && l.major.Absent? && l.minor.Absent?
    && forall i :: 0 <= i < |l.fields| ==> PlainField(l.fields[i])
  }

  /** The extended flags are there only for a publisher id of more than one byte. */
  predicate PlainExtension(e: Extension) {
    if e.NoExtension? then true
    else e.idType != 0 && e.classId.Absent? && e.timestamp.Absent? && e.picoseconds.Absent? && e.more.NoMore?
  }

  predicate PlainGroup(l: GroupLayout) {
    l.GroupLayout? ==>
      && l.version.Absent? && l.number.Absent? && l.unused == 0
      && (l.id.Present? || l.sequence.Present?)
  }

  /** The k-th size is the length of the k-th DataSetMessage. */
  predicate SizesTell(sizes: seq<seq<byte>>, ls: seq<DataSetLayout>) {
    |sizes| <= |ls| && forall k :: 0 <= k < |sizes| ==> FromLittleEndian(sizes[k]) == |DataSetText(ls[k])|
  }

  predicate Plain(l: MessageLayout) {
    && l.publisherId.Present? && PlainExtension(l.extension) && PlainGroup(l.group) && l.payload.PayloadLayout?
    && SizesTell(l.sizes, l.dataSets)
    && forall k :: 0 <= k < |l.dataSets| ==> PlainDataSet(l.dataSets[k])
  }

  // ---------------------------------------------------------------- scalars and variants

  lemma WholeText(e: seq<byte>)
    ensures At(e, 0, e) && e[0..|e|] == e
  {
  }

  lemma PlainLength(n: nat)
    requires n < 0x8000_0000
    ensures LittleEndian(n, 4)[3] < 0x80 && Announced(LittleEndian(n, 4)) == n
  {
    Pow256Values();
    LittleEndianRoundTrip(n, 4);
    TopBit(LittleEndian(n, 4));
  }

  lemma EncodedScalar(v: WireValue)
    requires WellFormedScalar(v) && EncScalar(v).Some?
    ensures ScalarMeans(TypeCode(v), EncScalar(v).value, v) && PlainScalar(TypeCode(v), EncScalar(v).value)
  {
    hide RdScalar, ScalarMeans, LittleEndian, FromLittleEndian;
    var e := EncScalar(v).value;
    WholeText(e);
    ScalarRoundTrip(e, 0, v);
    ScalarWasLaidOut(e, 0, TypeCode(v));
    if v.String? {
      PlainLength(|v.text|);
      assert e[3] == LittleEndian(|v.text|, 4)[3];
    }
  }

  lemma {:induction false} EncodedElements(t: byte, vs: seq<WireValue>) returns (bodies: seq<seq<byte>>)
    requires forall i :: 0 <= i < |vs| ==> WellFormedScalar(vs[i])
    requires EncElements(t, vs).Some?
    ensures ElementsMean(t, bodies, vs) && Concat(bodies) == EncElements(t, vs).value
    ensures forall i :: 0 <= i < |bodies| ==> PlainScalar(t, bodies[i])
    decreases |vs|
  {
    hide ScalarMeans, PlainScalar, EncScalar, WellFormedScalar;
    bodies := [];
    if vs != [] {
      EncodedScalar(vs[0]);
      var rest := EncodedElements(t, vs[1..]);
      bodies := [EncScalar(vs[0]).value] + rest;
      assert bodies[1..] == rest;
    }
  }

  lemma EncodedVariant(v: WireValue) returns (l: VariantLayout)
    requires WellFormedValue(v) && EncVariant(v).Some?
    ensures VariantMeans(l, v) && VariantText(l) == EncVariant(v).value && PlainVariant(l)
  {
    hide ScalarMeans, PlainScalar, EncScalar, LittleEndian, Announced;
    if v.Array? {
      var bodies := EncodedElements(v.elementType, v.elements);
      PlainLength(|v.elements|);
      l := Several(v.elementType, LittleEndian(|v.elements|, 4), bodies);
    } else {
      EncodedScalar(v);
      l := Single(TypeCode(v), EncScalar(v).value);
    }
  }

  lemma {:induction false} EncodedFields(vs: seq<WireValue>) returns (ls: seq<FieldLayout>)
    requires forall i :: 0 <= i < |vs| ==> WellFormedValue(vs[i])
    requires EncFields(vs).Some?
    ensures FieldsMean(ls, 0, vs) && FieldsText(ls) == EncFields(vs).value
    ensures forall i :: 0 <= i < |ls| ==> PlainField(ls[i])
    decreases |vs|
  {
    hide VariantMeans, PlainVariant, EncVariant, WellFormedValue, VariantText;
    ls := [];
    if vs != [] {
      var l := EncodedVariant(vs[0]);
      var rest := EncodedFields(vs[1..]);
      ls := [VariantField(l)] + rest;
      assert ls[1..] == rest;
    }
  }

  // ---------------------------------------------------------------- messages

  lemma NumberText(n: nat, width: nat)
    requires n < Pow256(width)
    ensures FromLittleEndian(LittleEndian(n, width)) == n && |LittleEndian(n, width)| == width
  {
    LittleEndianRoundTrip(n, width);
  }

  /** A number of two bytes that is written if `enabled`. */
  function Enabled(enabled: bool, n: uint16): Optional {
    if enabled then Present(LittleEndian(n, 2)) else Absent
  }

  lemma EnabledText(enabled: bool, n: uint16, absent: uint16)
    ensures var o := Enabled(enabled, n);
      && o.Present? == enabled && o.Wide(2) && o.Number(absent) == (if enabled then n else absent)
      && o.Text() == (if enabled then LittleEndian(n, 2) else [])
  {
    Pow256Values();
    NumberText(n, 2);
  }

  lemma EncodedDataSet(m: DataSetMessage) returns (l: DataSetLayout)
    requires WellFormedDataSet(m) && EncDataSetMessage(m).Some?
    ensures DataSetMeans(l, m) && DataSetText(l) == EncDataSetMessage(m).value && PlainDataSet(l)
  {
    hide FieldMeans, PlainField, EncFields, FieldsText, LittleEndian, FromLittleEndian, Optional.Text, Optional.Wide,
      Optional.Number;
    var fields := EncodedFields(m.fields);
    Pow256Values();
    NumberText(|m.fields|, 2);
    EnabledText(m.sequenceNumberEnabled, m.sequenceNumber, 0);
    NothingAbsent();
    var count, sequence := LittleEndian(|m.fields|, 2), Enabled(m.sequenceNumberEnabled, m.sequenceNumber);
    l := DataSetLayout(true, 0, NoSecondFlags, sequence, Absent, Absent, Absent, count, fields);
    assert DataSetText(l) == [DataSetFlags(l)] + sequence.Text() + count + FieldsText(fields);
  }

  lemma {:induction false} EncodedDataSets(ms: seq<DataSetMessage>) returns (ls: seq<DataSetLayout>)
    requires forall i :: 0 <= i < |ms| ==> WellFormedDataSet(ms[i])
    requires EncBodies(ms).Some?
    ensures DataSetsMean(ls, ms) && DataSetsText(ls) == Concat(EncBodies(ms).value)
    ensures forall k :: 0 <= k < |ls| ==> PlainDataSet(ls[k])
    ensures forall k :: 0 <= k < |ls| ==> DataSetText(ls[k]) == EncBodies(ms).value[k]
    decreases |ms|
  {
    hide DataSetMeans, PlainDataSet, EncDataSetMessage, WellFormedDataSet, DataSetText;
    ls := [];
    if ms != [] {
      var l := EncodedDataSet(ms[0]);
      var rest := EncodedDataSets(ms[1..]);
      ls := [l] + rest;
      assert ls[1..] == rest;
      assert EncBodies(ms).value[1..] == EncBodies(ms[1..]).value;
    }
  }

  lemma {:induction false} EncodedSizes(bodies: seq<seq<byte>>) returns (sizes: seq<seq<byte>>)
    requires EncSizes(bodies).Some?
    ensures |sizes| == |bodies| && Pairs(sizes) && Concat(sizes) == EncSizes(bodies).value
    ensures forall k :: 0 <= k < |bodies| ==> FromLittleEndian(sizes[k]) == |bodies[k]|
    decreases |bodies|
  {
    sizes := [];
    if bodies != [] {
      Pow256Values();
      NumberText(|bodies[0]|, 2);
      var rest := EncodedSizes(bodies[1..]);
      sizes := [LittleEndian(|bodies[0]|, 2)] + rest;
      assert sizes[1..] == rest;
    }
  }

  lemma EncodedPayload(ms: seq<DataSetMessage>) returns (sizes: seq<seq<byte>>, ls: seq<DataSetLayout>)
    requires forall i :: 0 <= i < |ms| ==> WellFormedDataSet(ms[i])
    requires EncPayload(ms).Some?
    ensures SizesLaidOut(sizes, |ms|) && DataSetsMean(ls, ms) && SizesTell(sizes, ls)
    ensures Concat(sizes) + DataSetsText(ls) == EncPayload(ms).value
    ensures forall k :: 0 <= k < |ls| ==> PlainDataSet(ls[k])
  {
    hide DataSetMeans, PlainDataSet, EncBodies, EncSizes, WellFormedDataSet, DataSetText, FromLittleEndian, DataSetsText;
    ls := EncodedDataSets(ms);
    sizes := [];
    if |ms| > 1 {
      sizes := EncodedSizes(EncBodies(ms).value);
    }
  }

  lemma {:induction false} EncodedWriters(ms: seq<DataSetMessage>) returns (ids: seq<seq<byte>>)
    ensures |ids| == |ms| && Pairs(ids) && Concat(ids) == EncWriterIds(ms)
    ensures forall i :: 0 <= i < |ms| ==> ms[i].dataSetWriterId == FromLittleEndian(ids[i])
    decreases |ms|
  {
    ids := [];
    if ms != [] {
      Pow256Values();
      NumberText(ms[0].dataSetWriterId, 2);
      var rest := EncodedWriters(ms[1..]);
      ids := [LittleEndian(ms[0].dataSetWriterId, 2)] + rest;
      assert ids[1..] == rest;
    }
  }

  lemma EncodedGroup(m: NetworkMessage, prior: NetworkMessage) returns (l: GroupLayout)
    ensures GroupMeans(l, prior, Received(m, prior)) && PlainGroup(l) && l.Text() == EncGroupHeader(m)
    ensures l.GroupLayout? == HasGroupHeader(m)
  {
    hide LittleEndian, FromLittleEndian, Optional.Text, Optional.Wide, Optional.Number;
    l := NoGroup;
    if HasGroupHeader(m) {
      EnabledText(m.writerGroupIdEnabled, m.writerGroupId, prior.writerGroupId);
      EnabledText(m.groupSequenceNumberEnabled, m.groupSequenceNumber, prior.groupSequenceNumber);
      NothingAbsent();
      var id := Enabled(m.writerGroupIdEnabled, m.writerGroupId);
      var sequence := Enabled(m.groupSequenceNumberEnabled, m.groupSequenceNumber);
      l := GroupLayout(id, Absent, Absent, sequence, 0);
      assert l.Text() == [l.Flags()] + id.Text() + sequence.Text();
    }
  }

  lemma EncodedPublisher(m: NetworkMessage) returns (e: Extension, id: Optional)
    requires m.publisherId < WordSize(m.publisherIdType.Width())
    ensures PlainExtension(e) && e.LaidOut() && id.Present? && e.Extension? == !m.publisherIdType.IdByte?
    ensures e.Text() + id.Text() == EncPublisherId(m) && e.ClassIdText() == [] && e.TimeText() + e.PromotedText() == []
    ensures forall l: MessageLayout, prior ::
      l.extension == e && l.publisherId == id ==> PublisherMeans(l, prior, m)
  {
    hide LittleEndian, FromLittleEndian;
    var t := m.publisherIdType;
    WordSizeIsPow256(t.Width());
    NumberText(m.publisherId, t.Width());
    e := if t.IdByte? then NoExtension else Extension(t.Code(), Absent, Absent, Absent, NoMore);
    id := Present(LittleEndian(m.publisherId, t.Width()));
  }

  lemma EncodedHeader(m: NetworkMessage, prior: NetworkMessage, sizes: seq<seq<byte>>, ls: seq<DataSetLayout>)
    returns (l: MessageLayout)
    requires 1 <= |m.messages| <= 255 && m.publisherId < WordSize(m.publisherIdType.Width())
    ensures l.sizes == sizes && l.dataSets == ls && l.extension.LaidOut()
    ensures PublisherMeans(l, prior, Received(m, prior)) && GroupMeans(l.group, prior, Received(m, prior))
    ensures WritersMean(l.payload, m.messages)
    ensures l.publisherId.Present? && PlainExtension(l.extension) && PlainGroup(l.group) && l.payload.PayloadLayout?
    ensures HeaderText(l)
      == EncFlags(m) + (EncPublisherId(m) + (EncGroupHeader(m) + EncPayloadHeader(m.messages)))
  {
    hide LittleEndian, FromLittleEndian, PlainExtension, PlainGroup, GroupMeans, GroupLayout.Text, Extension.Text,
      Extension.LaidOut, Extension.TimeText, Extension.PromotedText, Extension.ClassIdText, Optional.Text,
      EncPublisherId, EncGroupHeader;
    var e, id := EncodedPublisher(m);
    var group := EncodedGroup(m, prior);
    var ids := EncodedWriters(m.messages);
    l := MessageLayout(e, id, group, PayloadLayout(ids), sizes, ls);
    PublisherOfReceived(l, m, prior);
    assert l.payload.Text() == EncPayloadHeader(m.messages);
    assert [MainFlags(l)] == EncFlags(m);
    assert HeaderText(l) == [MainFlags(l)] + (e.Text() + id.Text() + e.ClassIdText()
      + (group.Text() + (l.payload.Text() + (e.TimeText() + e.PromotedText()))));
  }

  lemma PublisherOfReceived(l: MessageLayout, m: NetworkMessage, prior: NetworkMessage)
    requires PublisherMeans(l, prior, m)
    ensures PublisherMeans(l, prior, Received(m, prior))
  {
  }

  /** What the encoder writes for a well-formed message is the plain layout of the message. */
  lemma EncoderMeetsLayout(m: NetworkMessage, prior: NetworkMessage) returns (l: MessageLayout)
    requires WellFormedMessage(m) && EncMessage(m).Some?
    ensures Means(l, prior, Received(m, prior)) && MessageText(l) == EncMessage(m).value && Plain(l)
  {
    hide EncFlags, EncPublisherId, EncGroupHeader, EncPayloadHeader, EncPayload, PublisherMeans, GroupMeans,
      WritersMean, SizesLaidOut, DataSetsMean, PlainExtension, PlainGroup, PlainDataSet, SizesTell, HeaderText,
      Extension.LaidOut, WellFormedDataSet, DataSetsText, Concat;
    var sizes, ls := EncodedPayload(m.messages);
    l := EncodedHeader(m, prior, sizes, ls);
  }

  // ---------------------------------------------------------------- splitting the payload

  /** Where each body of a concatenation begins, when the concatenation begins at `p`. */
  function Starts(p: nat, bodies: seq<seq<byte>>): (starts: seq<nat>)
    ensures |starts| == |bodies| + 1 && starts[0] == p && starts[|bodies|] == p + |Concat(bodies)|
    ensures forall k :: 0 <= k < |bodies| ==> starts[k + 1] == starts[k] + |bodies[k]|
    decreases |bodies|
  {
    if bodies == [] then [p] else [p] + Starts(p + |bodies[0]|, bodies[1..])
  }

  lemma {:induction false} BodiesStand(d: seq<byte>, p: nat, bodies: seq<seq<byte>>)
    requires At(d, p, Concat(bodies))
    ensures forall k :: 0 <= k < |bodies| ==> At(d, Starts(p, bodies)[k], bodies[k])
    decreases |bodies|
  {
    hide At;
    if bodies != [] {
      AtSplit(d, p, bodies[0], Concat(bodies[1..]));
      BodiesStand(d, p + |bodies[0]|, bodies[1..]);
    }
  }

  lemma {:induction false} SizesStand(d: seq<byte>, p: nat, bodies: seq<seq<byte>>)
    requires EncSizes(bodies).Some? && At(d, p, EncSizes(bodies).value)
    ensures |EncSizes(bodies).value| == 2 * |bodies|
    ensures forall k :: 0 <= k < |bodies| ==> Rd(d, p + 2 * k, 2) == Parsed(|bodies[k]|, p + 2 * k + 2)
    decreases |bodies|
  {
    hide At, Rd;
    if bodies != [] {
      AtSplit(d, p, LittleEndian(|bodies[0]|, 2), EncSizes(bodies[1..]).value);
      AtUint16(d, p, |bodies[0]|);
      SizesStand(d, p + 2, bodies[1..]);
      forall k | 0 < k < |bodies|
        ensures Rd(d, p + 2 * k, 2) == Parsed(|bodies[k]|, p + 2 * k + 2)
      {
        assert Rd(d, (p + 2) + 2 * (k - 1), 2) == Parsed(|bodies[1..][k - 1]|, (p + 2) + 2 * (k - 1) + 2);
      }
    }
  }

  /** The bytes from `from` to `to` are the encoding of `m`, and the decoder that starts there stops at `to`. */
  ghost predicate BodyStands(d: seq<byte>, from: nat, to: nat, m: DataSetMessage) {
    && from <= to <= |d|
    && EncDataSetMessage(m) == Some(d[from..to])
    && (WellFormedDataSet(m) ==> RdDataSetMessage(d, from, m.dataSetWriterId) == Parsed(m, to))
  }

  /** The number at `p` is the distance between where the body of `m` begins and where it ends. */
  ghost predicate SizeStands(d: seq<byte>, p: nat, from: nat, to: nat, m: DataSetMessage) {
    BodyStands(d, from, to, m) && Rd(d, p, 2) == Parsed(to - from, p + 2)
  }

  /** The numbers at `p` are the lengths of the bodies that follow them and fill the datagram. */
  ghost predicate Splits(d: seq<byte>, p: nat, ms: seq<DataSetMessage>, starts: seq<nat>) {
    && |starts| == |ms| + 1 && starts[0] == p + 2 * |ms| && starts[|ms|] == |d|
    && forall k :: 0 <= k < |ms| ==> SizeStands(d, p + 2 * k, starts[k], starts[k + 1], ms[k])
  }

  lemma HeaderOfEncoded(m: NetworkMessage, prior: NetworkMessage)
    requires EncMessage(m).Some?
    ensures var header := RdHeader(EncMessage(m).value, 0, prior);
      && header.Parsed?
      && At(EncMessage(m).value, header.next, EncPayload(m.messages).value)
      && header.next + |EncPayload(m.messages).value| == |EncMessage(m).value|
  {
    hide At, RdHeader, HeaderText, EncPayload, EncPayloadHeader, EncGroupHeader, EncFlags, PublisherMeans, GroupMeans,
      WritersMean, Extension.LaidOut, LittleEndian;
    var width := m.publisherIdType.Width();
    var n := m.(publisherId := m.publisherId % WordSize(width));
    var d, payload := EncMessage(m).value, EncPayload(m.messages).value;
    SmallerIsItself(m.publisherId, WordSize(width));
    assert EncPublisherId(n) == EncPublisherId(m);
    SameFlags(n, m);
    var l := EncodedHeader(n, prior, [], []);
    assert d == HeaderText(l) + payload;
    WholeText(d);
    AtSplit(d, 0, HeaderText(l), payload);
    HeaderIsRead(d, l, prior, Received(n, prior));
  }

  lemma SmallerIsItself(n: nat, modulus: nat)
    requires modulus > 0
    ensures (n % modulus) % modulus == n % modulus && n % modulus < modulus
  {
  }

  lemma SameFlags(n: NetworkMessage, m: NetworkMessage)
    requires n == m.(publisherId := n.publisherId)
    ensures EncFlags(n) == EncFlags(m) && EncGroupHeader(n) == EncGroupHeader(m)
  {
  }

  /**
   A receiver can split the payload of every encoded message with several DataSetMessages by the
   numbers that follow the header: the k-th is the length of the k-th body, which is the distance
   between where the decoder starts on that body and where it stops.
   */
  lemma SizesSplitThePayload(m: NetworkMessage, prior: NetworkMessage) returns (starts: seq<nat>)
    requires EncMessage(m).Some? && |m.messages| > 1
    ensures var d := EncMessage(m).value;
      RdHeader(d, 0, prior).Parsed? && Splits(d, RdHeader(d, 0, prior).next, m.messages, starts)
  {
    hide At, Rd, RdHeader, EncDataSetMessage, SizeStands, Concat, EncSizes, EncBodies;
    var d, ms := EncMessage(m).value, m.messages;
    HeaderOfEncoded(m, prior);
    var p := RdHeader(d, 0, prior).next;
    var bodies := EncBodies(ms).value;
    AtSplit(d, p, EncSizes(bodies).value, Concat(bodies));
    WireTheorems.BodiesEncodable(ms);
    starts := BodiesSplit(d, p, bodies);
    forall k | 0 <= k < |ms|
      ensures SizeStands(d, p + 2 * k, starts[k], starts[k + 1], ms[k])
    {
      BodyAt(d, p + 2 * k, starts[k], bodies[k], ms[k]);
    }
  }

  lemma BodiesSplit(d: seq<byte>, p: nat, bodies: seq<seq<byte>>) returns (starts: seq<nat>)
    requires EncSizes(bodies).Some?
    requires At(d, p, EncSizes(bodies).value) && At(d, p + |EncSizes(bodies).value|, Concat(bodies))
    ensures |starts| == |bodies| + 1 && starts[0] == p + 2 * |bodies|
    ensures starts[|bodies|] == p + |EncSizes(bodies).value| + |Concat(bodies)|
    ensures forall k :: 0 <= k < |bodies| ==> starts[k + 1] == starts[k] + |bodies[k]|
    ensures forall k :: 0 <= k < |bodies| ==> At(d, starts[k], bodies[k])
    ensures forall k :: 0 <= k < |bodies| ==> Rd(d, p + 2 * k, 2) == Parsed(|bodies[k]|, p + 2 * k + 2)
  {
    hide At, Rd, Concat;
    SizesStand(d, p, bodies);
    starts := Starts(p + 2 * |bodies|, bodies);
    BodiesStand(d, p + 2 * |bodies|, bodies);
  }

  lemma BodyAt(d: seq<byte>, size: nat, p: nat, body: seq<byte>, m: DataSetMessage)
    requires At(d, p, body) && EncDataSetMessage(m) == Some(body)
    requires Rd(d, size, 2) == Parsed(|body|, size + 2)
    ensures SizeStands(d, size, p, p + |body|, m)
  {
    hide Rd, EncDataSetMessage, RdDataSetMessage, WellFormedDataSet;
    if WellFormedDataSet(m) {
      DataSetRoundTrip(d, p, m);
    }
  }

  /** What the encoder writes, without a word about how: its layout, and sizes that split the payload. */
  ghost predicate WrittenFor(d: seq<byte>, m: NetworkMessage) {
    && (WellFormedMessage(m) ==>
          exists l :: Plain(l) && Means(l, FreshMessage, Received(m, FreshMessage)) && d == MessageText(l))
    && (|m.messages| > 1 ==> exists p, starts :: Splits(d, p, m.messages, starts))
  }

  lemma EncodedIsWritten(m: NetworkMessage)
    requires EncMessage(m).Some?
    ensures WrittenFor(EncMessage(m).value, m)
  {
    hide EncMessage, Plain, Means, MessageText, Received, WellFormedMessage, Splits, RdHeader;
    if WellFormedMessage(m) {
      var l := EncoderMeetsLayout(m, FreshMessage);
    }
    if |m.messages| > 1 {
      var starts := SizesSplitThePayload(m, FreshMessage);
    }
  }

  // ---------------------------------------------------------------- numbers that do not fit

  /** Two scalars that differ at most by a multiple of the number of values of their type. */
  predicate Congruent(v: WireValue, w: WireValue) {
    match (v, w)
    case (Signed(s, i), Signed(t, j)) => s == t && (i - j) % WordSize(t.Width()) == 0
    case (Unsigned(s, i), Unsigned(t, j)) => s == t && (i - j) % WordSize(t.Width()) == 0
    case _ => v == w
  }

  lemma SameRemainder(i: int, j: int, modulus: nat)
    requires IsWordSize(modulus) && (i - j) % modulus == 0
    ensures i % modulus == j % modulus
  {
  }

  lemma CongruentScalars(v: WireValue, w: WireValue)
    requires Congruent(v, w)
    ensures EncScalar(v) == EncScalar(w)
  {
    if v.Signed? && w.Signed? {
      SameRemainder(v.signed, w.signed, WordSize(v.signedType.Width()));
    } else if v.Unsigned? && w.Unsigned? {
      SameRemainder(v.unsigned, w.unsigned, WordSize(v.unsignedType.Width()));
    }
  }

  lemma {:induction false} CongruentElements(t: byte, vs: seq<WireValue>, ws: seq<WireValue>)
    requires |vs| == |ws| && forall i :: 0 <= i < |vs| ==> Congruent(vs[i], ws[i])
    ensures EncElements(t, vs) == EncElements(t, ws)
  {
    hide EncScalar;
    if vs != [] {
      CongruentScalars(vs[0], ws[0]);
      CongruentElements(t, vs[1..], ws[1..]);
    }
  }

  predicate CongruentValues(v: WireValue, w: WireValue) {
    if v.Array? && w.Array? then
      && v.elementType == w.elementType && |v.elements| == |w.elements|
      && forall i :: 0 <= i < |v.elements| ==> Congruent(v.elements[i], w.elements[i])
    else Congruent(v, w)
  }

  /** A number out of the range of its type is written as the number of that range that it wraps to. */
  lemma NumbersWrap(v: WireValue, w: WireValue)
    requires CongruentValues(v, w)
    ensures EncVariant(v) == EncVariant(w)
  {
    if v.Array? && w.Array? {
      CongruentElements(v.elementType, v.elements, w.elements);
    } else {
      CongruentScalars(v, w);
    }
  }

  lemma {:induction false} FieldsWrap(vs: seq<WireValue>, ws: seq<WireValue>)
    requires |vs| == |ws| && forall i :: 0 <= i < |vs| ==> CongruentValues(vs[i], ws[i])
    ensures EncFields(vs) == EncFields(ws)
  {
    hide EncVariant, CongruentValues;
    if vs != [] {
      NumbersWrap(vs[0], ws[0]);
      FieldsWrap(vs[1..], ws[1..]);
    }
  }

  /** Two DataSetMessages that differ only in what is not sent, and in numbers that wrap alike. */
  predicate AlikeDataSets(m: DataSetMessage, n: DataSetMessage) {
    && m.dataSetWriterId == n.dataSetWriterId && m.sequenceNumberEnabled == n.sequenceNumberEnabled
    && (m.sequenceNumberEnabled ==> m.sequenceNumber == n.sequenceNumber)
    && |m.fields| == |n.fields| && forall i :: 0 <= i < |m.fields| ==> CongruentValues(m.fields[i], n.fields[i])
  }

  predicate Alike(m: NetworkMessage, n: NetworkMessage) {
    && m.publisherIdType == n.publisherIdType
    && (m.publisherId - n.publisherId) % WordSize(m.publisherIdType.Width()) == 0
    && m.writerGroupIdEnabled == n.writerGroupIdEnabled
    && (m.writerGroupIdEnabled ==> m.writerGroupId == n.writerGroupId)
    && m.groupSequenceNumberEnabled == n.groupSequenceNumberEnabled
    && (m.groupSequenceNumberEnabled ==> m.groupSequenceNumber == n.groupSequenceNumber)
    && |m.messages| == |n.messages|
    && forall i :: 0 <= i < |m.messages| ==> AlikeDataSets(m.messages[i], n.messages[i])
  }

  lemma {:induction false} AlikeBodies(ms: seq<DataSetMessage>, ns: seq<DataSetMessage>)
    requires |ms| == |ns| && forall i :: 0 <= i < |ms| ==> AlikeDataSets(ms[i], ns[i])
    ensures EncBodies(ms) == EncBodies(ns) && EncWriterIds(ms) == EncWriterIds(ns)
  {
    hide EncFields, LittleEndian, CongruentValues;
    if ms != [] {
      FieldsWrap(ms[0].fields, ns[0].fields);
      assert EncDataSetHeader(ms[0]) == EncDataSetHeader(ns[0]);
      AlikeBodies(ms[1..], ns[1..]);
    }
  }

  /** Whatever is not sent, and whatever is lost by wrapping, makes no difference to the datagram. */
  lemma AlikeMessagesEncodeAlike(m: NetworkMessage, n: NetworkMessage)
    requires Alike(m, n)
    ensures EncMessage(m) == EncMessage(n)
  {
    hide EncBodies, EncSizes, EncWriterIds, LittleEndian, AlikeDataSets, Concat;
    AlikeBodies(m.messages, n.messages);
    SameRemainder(m.publisherId, n.publisherId, WordSize(m.publisherIdType.Width()));
    assert EncPayload(m.messages) == EncPayload(n.messages);
    assert EncPayloadHeader(m.messages) == EncPayloadHeader(n.messages);
    assert EncFlags(m) == EncFlags(n) && EncGroupHeader(m) == EncGroupHeader(n) && EncPublisherId(m) == EncPublisherId(n);
  }
}
