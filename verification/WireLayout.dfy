/**
 The UADP layout, written down without the decoder: which parts a NetworkMessage, a
 DataSetMessage and a field are made of, which flag announces each part, how wide it is, and
 what the parts stand for. `LayoutTheorems` shows that the decoder accepts exactly the datagrams
 that begin with such a layout, and reads what it stands for.
 */
module WireLayout {
  import opened Bytes
  import opened WireFormat

  /** The numbers of some bits of a flag byte. */
  type bits2 = x: int | 0 <= x < 4
  type bits3 = x: int | 0 <= x < 8
  type bits4 = x: int | 0 <= x < 16
  type bits6 = x: int | 0 <= x < 64

  /** A part that a flag announces. */
  datatype Optional = Absent | Present(bytes: seq<byte>) {
    function Text(): seq<byte> {
      if Present? then bytes else []
    }

    predicate Wide(n: nat) {
      Present? ==> |bytes| == n
    }

    /** The number in the part, or `absent`. */
    function Number(absent: nat): nat {
      if Present? then FromLittleEndian(bytes) else absent
    }
  }

  /** What a flag of the given weight adds to its flag byte. */
  function Weight(present: bool, weight: nat): nat {
    if present then weight else 0
  }

  // ---------------------------------------------------------------- scalars

  /** A number in two's complement: the top bit of its last byte is the sign. */
  ghost predicate SignedMeans(body: seq<byte>, width: nat, t: SignedType, v: WireValue) {
    && |body| == width > 0
    && v.Signed? && v.signedType == t
    && v.signed == FromLittleEndian(body) - (if body[width - 1] < 0x80 then 0 else Pow256(width))
  }

  ghost predicate UnsignedMeans(body: seq<byte>, width: nat, t: UnsignedType, v: WireValue) {
    && |body| == width
    && v.Unsigned? && v.unsignedType == t
    && v.unsigned == FromLittleEndian(body)
  }

  /** A four-byte length; a negative one is as good as zero. */
  function Announced(count: seq<byte>): nat
    requires |count| == 4
  {
    if count[3] < 0x80 then FromLittleEndian(count) else 0
  }

  ghost predicate StringMeans(body: seq<byte>, v: WireValue) {
    && |body| >= 4
    && |body| == 4 + Announced(body[..4])
    && v == String(body[4..])
  }

  /** The bytes `body` are a scalar of the builtin type `code` with the value `v`. */
  ghost predicate ScalarMeans(code: nat, body: seq<byte>, v: WireValue) {
    match code
    case 0 => body == [] && v == Null
    case 1 => |body| == 1 && v == Boolean(body[0] != 0)
    case 2 => SignedMeans(body, 1, SByte, v)
    case 3 => UnsignedMeans(body, 1, Byte, v)
    case 4 => SignedMeans(body, 2, Int16, v)
    case 5 => UnsignedMeans(body, 2, UInt16, v)
    case 6 => SignedMeans(body, 4, Int32, v)
    case 7 => UnsignedMeans(body, 4, UInt32, v)
    case 8 => SignedMeans(body, 8, Int64, v)
    case 9 => UnsignedMeans(body, 8, UInt64, v)
    case 10 => |body| == 4 && v.Float? && v.bits32 == FromLittleEndian(body)
    case 11 => |body| == 8 && v.Double? && v.bits64 == FromLittleEndian(body)
    case 12 => StringMeans(body, v)
    case 13 => SignedMeans(body, 8, DateTime, v)
    case _ => false
  }

  // ---------------------------------------------------------------- variants and fields

  datatype VariantLayout =
    | Single(code: bits6, body: seq<byte>)
    | Several(code: bits6, count: seq<byte>, bodies: seq<seq<byte>>)

  function VariantText(l: VariantLayout): seq<byte> {
    match l
    case Single(code, body) => [code] + body
    case Several(code, count, bodies) => [0x80 + code] + (count + Concat(bodies))
  }

  ghost predicate ElementsMean(code: nat, bodies: seq<seq<byte>>, vs: seq<WireValue>) {
    && |bodies| == |vs|
    && forall i :: 0 <= i < |bodies| ==> ScalarMeans(code, bodies[i], vs[i])
  }

  ghost predicate VariantMeans(l: VariantLayout, v: WireValue) {
    match l
    case Single(code, body) => ScalarMeans(code, body, v)
    case Several(code, count, bodies) =>
      && |count| == 4 && |bodies| == Announced(count) <= 1000000
      && v.Array? && v.elementType == code
      && ElementsMean(code, bodies, v.elements)
  }

  datatype MaybeVariant = NoVariant | Given(variant: VariantLayout)

  /** A field, either a bare Variant or a DataValue with its status and timestamps. */
  datatype FieldLayout =
    | VariantField(variant: VariantLayout)
    | DataValueField(value: MaybeVariant, status: Optional, sourceTime: Optional, serverTime: Optional,
                     sourcePicoseconds: Optional, serverPicoseconds: Optional, unused: bits2)

  ghost predicate ValueMeans(value: MaybeVariant, v: WireValue) {
    if value.Given? then VariantMeans(value.variant, v) else v == Null
  }

  ghost predicate FieldMeans(l: FieldLayout, encoding: nat, v: WireValue) {
    match l
    case VariantField(variant) => encoding == 0 && VariantMeans(variant, v)
    case DataValueField(value, status, sourceTime, serverTime, sourcePicoseconds, serverPicoseconds, _) =>
      && encoding in {2, 3}
      && status.Wide(4) && sourceTime.Wide(8) && serverTime.Wide(8)
      && sourcePicoseconds.Wide(2) && serverPicoseconds.Wide(2)
      && ValueMeans(value, v)
  }

  function ValueText(value: MaybeVariant): seq<byte> {
    if value.Given? then VariantText(value.variant) else []
  }

  function DataValueMask(l: FieldLayout): byte
    requires l.DataValueField?
  {
    Weight(l.value.Given?, 1) + Weight(l.status.Present?, 2)
    + Weight(l.sourceTime.Present?, 4) + Weight(l.serverTime.Present?, 8)
    + Weight(l.sourcePicoseconds.Present?, 16) + Weight(l.serverPicoseconds.Present?, 32)
    + 64 * l.unused
  }

  function DataValueTail(l: FieldLayout): seq<byte>
    requires l.DataValueField?
  {
    l.status.Text() + (l.sourceTime.Text() + (l.serverTime.Text()
      + (l.sourcePicoseconds.Text() + l.serverPicoseconds.Text())))
  }

  function FieldText(l: FieldLayout): seq<byte> {
    if l.VariantField? then VariantText(l.variant)
    else [DataValueMask(l)] + (ValueText(l.value) + DataValueTail(l))
  }

  ghost predicate FieldsMean(ls: seq<FieldLayout>, encoding: nat, vs: seq<WireValue>) {
    && |ls| == |vs|
    && forall i :: 0 <= i < |ls| ==> FieldMeans(ls[i], encoding, vs[i])
  }

  function FieldsText(ls: seq<FieldLayout>): seq<byte> {
    if ls == [] then [] else FieldText(ls[0]) + FieldsText(ls[1..])
  }

  // ---------------------------------------------------------------- DataSetMessages

  /** The second flag byte of a DataSetMessage, with the parts that it announces. */
  datatype SecondFlags =
    | NoSecondFlags
    | SecondFlags(kind: bits4, timestamp: Optional, picoseconds: Optional, unused: bits2)

  function SecondText(s: SecondFlags): seq<byte> {
    match s
    case NoSecondFlags => []
    case SecondFlags(kind, timestamp, picoseconds, unused) =>
      [kind + Weight(timestamp.Present?, 16) + Weight(picoseconds.Present?, 32) + 64 * unused]
  }

  function TimeText(s: SecondFlags): seq<byte> {
    if s.SecondFlags? then s.timestamp.Text() + s.picoseconds.Text() else []
  }

  predicate IsKeepAlive(s: SecondFlags) {
    s.SecondFlags? && s.kind == 3
  }

  /** A DataSetMessage; `count` and `fields` are those of a key frame. */
  datatype DataSetLayout = DataSetLayout(
    valid: bool, encoding: bits2, second: SecondFlags, sequence: Optional,
    status: Optional, major: Optional, minor: Optional,
    count: seq<byte>, fields: seq<FieldLayout>)

  function DataSetFlags(l: DataSetLayout): byte {
    Weight(l.valid, 1) + 2 * l.encoding + Weight(l.sequence.Present?, 8)
    + Weight(l.status.Present?, 16) + Weight(l.major.Present?, 32) + Weight(l.minor.Present?, 64)
    + Weight(l.second.SecondFlags?, 128)
  }

  /** What stands between the sequence number and the fields. */
  function ExtrasText(l: DataSetLayout): seq<byte> {
    TimeText(l.second) + (l.status.Text() + (l.major.Text() + l.minor.Text()))
  }

  function DataSetText(l: DataSetLayout): seq<byte> {
    [DataSetFlags(l)] + (SecondText(l.second) + (l.sequence.Text() + (ExtrasText(l)
      + (l.count + FieldsText(l.fields)))))
  }

  ghost predicate SecondIsLaidOut(s: SecondFlags) {
    s.SecondFlags? ==> s.kind in {0, 3} && s.timestamp.Wide(8) && s.picoseconds.Wide(2)
  }

  ghost predicate DataSetMeans(l: DataSetLayout, m: DataSetMessage) {
    && SecondIsLaidOut(l.second)
    && l.sequence.Wide(2) && l.status.Wide(2) && l.major.Wide(4) && l.minor.Wide(4)
    && m.sequenceNumberEnabled == l.sequence.Present?
    && m.sequenceNumber == l.sequence.Number(0)
    && m.keepAlive == IsKeepAlive(l.second)
    && (if IsKeepAlive(l.second) then l.count == [] && l.fields == [] && m.fields == []
        else KeyFrameMeans(l.encoding, l.count, l.fields, m.fields))
  }

  ghost predicate KeyFrameMeans(encoding: nat, count: seq<byte>, ls: seq<FieldLayout>, vs: seq<WireValue>) {
    && encoding != 1
    && |count| == 2 && FromLittleEndian(count) == |ls|
    && FieldsMean(ls, encoding, vs)
  }

  ghost predicate DataSetsMean(ls: seq<DataSetLayout>, ms: seq<DataSetMessage>) {
    && |ls| == |ms|
    && forall i :: 0 <= i < |ls| ==> DataSetMeans(ls[i], ms[i])
  }

  function DataSetsText(ls: seq<DataSetLayout>): seq<byte> {
    if ls == [] then [] else DataSetText(ls[0]) + DataSetsText(ls[1..])
  }

  // ---------------------------------------------------------------- NetworkMessages

  datatype Promoted = NoPromoted | Promoted(size: seq<byte>, bytes: seq<byte>)

  datatype More = NoMore | More(promoted: Promoted, unused: bits3)

  /** The extended flags, with the parts that they announce; a secured message is never laid out. */
  datatype Extension =
    | NoExtension
    | Extension(idType: bits3, classId: Optional, timestamp: Optional, picoseconds: Optional, more: More)
  {
    function Text(): seq<byte> {
      if NoExtension? then []
      else
        [idType + Weight(classId.Present?, 8) + Weight(timestamp.Present?, 32)
         + Weight(picoseconds.Present?, 64) + Weight(more.More?, 128)]
        + (if more.NoMore? then [] else [Weight(more.promoted.Promoted?, 2) + 32 * more.unused])
    }

    function IdType(): nat {
      if NoExtension? then 0 else idType
    }

    function ClassIdText(): seq<byte> {
      if NoExtension? then [] else classId.Text()
    }

    function TimeText(): seq<byte> {
      if NoExtension? then [] else timestamp.Text() + picoseconds.Text()
    }

    function PromotedText(): seq<byte> {
      if NoExtension? || more.NoMore? || more.promoted.NoPromoted? then []
      else more.promoted.size + more.promoted.bytes
    }

    ghost predicate LaidOut() {
      Extension? ==> classId.Wide(16) && timestamp.Wide(8) && picoseconds.Wide(2) && MoreLaidOut()
    }

    ghost predicate MoreLaidOut()
      requires Extension?
    {
      more.More? && more.promoted.Promoted? ==>
        |more.promoted.size| == 2 && |more.promoted.bytes| == FromLittleEndian(more.promoted.size)
    }
  }

  datatype GroupLayout =
    | NoGroup
    | GroupLayout(id: Optional, version: Optional, number: Optional, sequence: Optional, unused: bits4)
  {
    function Flags(): byte
      requires GroupLayout?
    {
      Weight(id.Present?, 1) + Weight(version.Present?, 2) + Weight(number.Present?, 4)
      + Weight(sequence.Present?, 8) + 16 * unused
    }

    function Text(): seq<byte> {
      if NoGroup? then []
      else [Flags()] + (id.Text() + (version.Text() + (number.Text() + sequence.Text())))
    }

    ghost predicate LaidOut() {
      GroupLayout? ==> id.Wide(2) && version.Wide(4) && number.Wide(2) && sequence.Wide(2)
    }
  }

  /** The two-byte writer ids; the header also gives their number, in one byte. */
  datatype PayloadLayout = NoPayloadHeader | PayloadLayout(ids: seq<seq<byte>>) {
    function Text(): seq<byte> {
      if NoPayloadHeader? then [] else [(|ids| % 0x100) as byte] + Concat(ids)
    }

    ghost predicate LaidOut() {
      PayloadLayout? ==> 1 <= |ids| <= 255 && Pairs(ids)
    }
  }

  /** Numbers of two bytes. */
  ghost predicate Pairs(numbers: seq<seq<byte>>) {
    forall i :: 0 <= i < |numbers| ==> |numbers[i]| == 2
  }

  datatype MessageLayout = MessageLayout(
    extension: Extension, publisherId: Optional, group: GroupLayout, payload: PayloadLayout,
    sizes: seq<seq<byte>>, dataSets: seq<DataSetLayout>)

  function MainFlags(l: MessageLayout): byte {
    1 + Weight(l.publisherId.Present?, 16) + Weight(l.group.GroupLayout?, 32)
    + Weight(l.payload.PayloadLayout?, 64) + Weight(l.extension.Extension?, 128)
  }

  function HeaderText(l: MessageLayout): seq<byte> {
    [MainFlags(l)] + (l.extension.Text() + (l.publisherId.Text() + (l.extension.ClassIdText()
      + (l.group.Text() + (l.payload.Text() + (l.extension.TimeText() + l.extension.PromotedText()))))))
  }

  function MessageText(l: MessageLayout): seq<byte> {
    HeaderText(l) + (Concat(l.sizes) + DataSetsText(l.dataSets))
  }

  /** The width of a publisher id, by the number of its type. */
  function IdWidth(idType: nat): nat {
    match idType
    case 0 => 1
    case 1 => 2
    case 2 => 4
    case 3 => 8
    case _ => 0
  }

  /** The publisher id: its type's number and its value; what is not sent stays as it was. */
  ghost predicate PublisherMeans(l: MessageLayout, prior: NetworkMessage, m: NetworkMessage) {
    if l.publisherId.Present? then
      && l.extension.IdType() <= 3
      && l.publisherId.Wide(IdWidth(l.extension.IdType()))
      && m.publisherId == FromLittleEndian(l.publisherId.bytes)
      && m.publisherIdType == [IdByte, IdUInt16, IdUInt32, IdUInt64][l.extension.IdType()]
    else m.publisherId == prior.publisherId && m.publisherIdType == prior.publisherIdType
  }

  ghost predicate GroupMeans(l: GroupLayout, prior: NetworkMessage, m: NetworkMessage) {
    && l.LaidOut()
    && m.writerGroupIdEnabled == (l.GroupLayout? && l.id.Present?)
    && m.groupSequenceNumberEnabled == (l.GroupLayout? && l.sequence.Present?)
    && m.writerGroupId == (if l.GroupLayout? then l.id.Number(prior.writerGroupId) else prior.writerGroupId)
    && m.groupSequenceNumber
       == (if l.GroupLayout? then l.sequence.Number(prior.groupSequenceNumber) else prior.groupSequenceNumber)
  }

  /** The writer of each DataSetMessage; without a payload header there is one, of writer 0. */
  ghost predicate WritersMean(l: PayloadLayout, ms: seq<DataSetMessage>) {
    && l.LaidOut()
    && if l.NoPayloadHeader? then |ms| == 1 && ms[0].dataSetWriterId == 0
       else
         && |ms| == |l.ids|
         && forall i :: 0 <= i < |ms| ==> ms[i].dataSetWriterId == FromLittleEndian(l.ids[i])
  }

  ghost predicate SizesLaidOut(sizes: seq<seq<byte>>, count: nat) {
    Pairs(sizes) && |sizes| == if count > 1 then count else 0
  }

  /** The layout `l`, received into the object `prior`, stands for the message `m`. */
  ghost predicate Means(l: MessageLayout, prior: NetworkMessage, m: NetworkMessage) {
    && l.extension.LaidOut()
    && PublisherMeans(l, prior, m)
    && GroupMeans(l.group, prior, m)
    && WritersMean(l.payload, m.messages)
    && SizesLaidOut(l.sizes, |m.messages|)
    && DataSetsMean(l.dataSets, m.messages)
  }
}
