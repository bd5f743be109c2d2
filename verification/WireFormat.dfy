/** Option, for computations that either give a value or fail without one. */
module Wrappers {
  datatype Option<+T> = None | Some(value: T) {
    predicate IsFailure() {
      None?
    }

    function PropagateFailure<U>(): Option<U>
      requires None?
    {
      None
    }

    function Extract(): T
      requires Some?
    {
      value
    }
  }
}

/**
 The UADP wire format of PubSubWire: the message values, what the encoder writes for each of
 them, and what the decoder accepts at each position. The encoder and the decoder proper are
 the methods of `WireCodec`; the functions here say what they compute.
 */
module WireFormat {
  import opened Bytes
  import opened Wrappers

  // The builtin type codes of the Variant encoding.
  const TYPE_NULL := 0
  const TYPE_BOOLEAN := 1
  const TYPE_FLOAT := 10
  const TYPE_DOUBLE := 11
  const TYPE_STRING := 12
  const MAX_ARRAY_LENGTH := 0xFF_FFFF
  const MAX_DECODED_ARRAY_LENGTH := 1000000

  datatype SignedType = SByte | Int16 | Int32 | Int64 | DateTime {
    function Code(): byte {
      match this
      case SByte => 2
      case Int16 => 4
      case Int32 => 6
      case Int64 => 8
      case DateTime => 13
    }

    function Width(): (n: nat)
      ensures n in {1, 2, 4, 8}
    {
      match this
      case SByte => 1
      case Int16 => 2
      case Int32 => 4
      case Int64 => 8
      case DateTime => 8
    }
  }

  datatype UnsignedType = Byte | UInt16 | UInt32 | UInt64 {
    function Code(): byte {
      match this
      case Byte => 3
      case UInt16 => 5
      case UInt32 => 7
      case UInt64 => 9
    }

    function Width(): (n: nat)
      ensures n in {1, 2, 4, 8}
    {
      match this
      case Byte => 1
      case UInt16 => 2
      case UInt32 => 4
      case UInt64 => 8
    }
  }

  /** The number of values of a word of `width` bytes. */
  function WordSize(width: nat): (m: nat)
    requires width in {1, 2, 4, 8}
    ensures IsWordSize(m)
  {
    match width
    case 1 => 0x100
    case 2 => 0x1_0000
    case 4 => 0x1_0000_0000
    case _ => 0x1_0000_0000_0000_0000
  }

  lemma WordSizeIsPow256(width: nat)
    requires width in {1, 2, 4, 8}
    ensures WordSize(width) == Pow256(width)
  {
    Pow256Values();
  }

  /**
   A field value. The numbers keep the full 64-bit storage of the source, so that a value may
   be out of range for its declared type. Floating-point numbers are bit patterns. `Foreign`
   is a scalar tagged with a type code outside the supported set.
   */
  datatype WireValue =
    | Null
    | Boolean(flag: bool)
    | Signed(signedType: SignedType, signed: int64)
    | Unsigned(unsignedType: UnsignedType, unsigned: uint64)
    | Float(bits32: uint32)
    | Double(bits64: uint64)
    | String(text: seq<byte>)
    | Foreign(code: byte)
    | Array(elementType: byte, elements: seq<WireValue>)

  function TypeCode(v: WireValue): byte {
    match v
    case Null => TYPE_NULL
    case Boolean(_) => TYPE_BOOLEAN
    case Signed(t, _) => t.Code()
    case Unsigned(t, _) => t.Code()
    case Float(_) => TYPE_FLOAT
    case Double(_) => TYPE_DOUBLE
    case String(_) => TYPE_STRING
    case Foreign(c) => c
    case Array(t, _) => t
  }

  datatype PublisherIdType = IdByte | IdUInt16 | IdUInt32 | IdUInt64 {
    function Code(): byte {
      match this
      case IdByte => 0
      case IdUInt16 => 1
      case IdUInt32 => 2
      case IdUInt64 => 3
    }

    function Width(): (n: nat)
      ensures n in {1, 2, 4, 8}
    {
      match this
      case IdByte => 1
      case IdUInt16 => 2
      case IdUInt32 => 4
      case IdUInt64 => 8
    }
  }

  function PublisherIdTypeOf(code: nat): Option<PublisherIdType> {
    match code
    case 0 => Some(IdByte)
    case 1 => Some(IdUInt16)
    case 2 => Some(IdUInt32)
    case 3 => Some(IdUInt64)
    case _ => None
  }

  datatype DataSetMessage = DataSetMessage(
    dataSetWriterId: uint16,
    sequenceNumberEnabled: bool,
    sequenceNumber: uint16,
    keepAlive: bool,
    fields: seq<WireValue>)

  datatype NetworkMessage = NetworkMessage(
    publisherIdType: PublisherIdType,
    publisherId: uint64,
    writerGroupIdEnabled: bool,
    writerGroupId: uint16,
    groupSequenceNumberEnabled: bool,
    groupSequenceNumber: uint16,
    messages: seq<DataSetMessage>)

  /** A NetworkMessage as its default constructor leaves it. */
  const FreshMessage := NetworkMessage(IdUInt16, 0, true, 0, true, 0, [])

  // ---------------------------------------------------------------- what the encoder writes

  function EncString(s: seq<byte>): seq<byte> {
    LittleEndian(|s| % 0x1_0000_0000, 4) + s
  }

  /** The body of a scalar; arrays and unsupported types have none. */
  function EncScalar(v: WireValue): Option<seq<byte>> {
    match v
    case Null => Some([])
    case Boolean(b) => Some([if b then 1 else 0])
    case Signed(t, i) => Some(LittleEndian(ToUnsigned(i, WordSize(t.Width())), t.Width()))
    case Unsigned(t, u) => Some(LittleEndian(u % WordSize(t.Width()), t.Width()))
    case Float(b) => Some(LittleEndian(b, 4))
    case Double(b) => Some(LittleEndian(b, 8))
    case String(s) => Some(EncString(s))
    case Foreign(_) => None
    case Array(_, _) => None
  }

  /** The bodies of the elements of an array of type `t`; a mixed or nested array has none. */
  function EncElements(t: byte, vs: seq<WireValue>): Option<seq<byte>> {
    if vs == [] then Some([])
    else if TypeCode(vs[0]) != t || vs[0].Array? then None
    else
      var head :- EncScalar(vs[0]);
      var tail :- EncElements(t, vs[1..]);
      Some(head + tail)
  }

  /** The type byte with the array flag set. */
  function ArrayMask(t: byte): byte {
    if t < 0x80 then t + 0x80 else t
  }

  function EncVariant(v: WireValue): Option<seq<byte>> {
    match v
    case Array(t, vs) =>
      if |vs| > MAX_ARRAY_LENGTH then None
      else
        var body :- EncElements(t, vs);
        Some([ArrayMask(t)] + LittleEndian(|vs|, 4) + body)
    case _ =>
      var body :- EncScalar(v);
      Some([TypeCode(v)] + body)
  }

  function EncFields(vs: seq<WireValue>): Option<seq<byte>> {
    if vs == [] then Some([])
    else
      var head :- EncVariant(vs[0]);
      var tail :- EncFields(vs[1..]);
      Some(head + tail)
  }

  function EncDataSetHeader(m: DataSetMessage): seq<byte> {
    [if m.sequenceNumberEnabled then 9 else 1]
    + (if m.sequenceNumberEnabled then LittleEndian(m.sequenceNumber, 2) else [])
    + LittleEndian(|m.fields| % 0x1_0000, 2)
  }

  function EncDataSetMessage(m: DataSetMessage): Option<seq<byte>> {
    var fields :- EncFields(m.fields);
    Some(EncDataSetHeader(m) + fields)
  }

  function EncBodies(ms: seq<DataSetMessage>): (r: Option<seq<seq<byte>>>)
    ensures r.Some? ==> |r.value| == |ms|
  {
    if ms == [] then Some([])
    else
      var head :- EncDataSetMessage(ms[0]);
      var tail :- EncBodies(ms[1..]);
      Some([head] + tail)
  }

  function Concat(bodies: seq<seq<byte>>): seq<byte> {
    if bodies == [] then [] else bodies[0] + Concat(bodies[1..])
  }

  function EncSizes(bodies: seq<seq<byte>>): Option<seq<byte>> {
    if bodies == [] then Some([])
    else if |bodies[0]| > 0xFFFF then None
    else
      var tail :- EncSizes(bodies[1..]);
      Some(LittleEndian(|bodies[0]|, 2) + tail)
  }

  function EncWriterIds(ms: seq<DataSetMessage>): seq<byte> {
    if ms == [] then [] else LittleEndian(ms[0].dataSetWriterId, 2) + EncWriterIds(ms[1..])
  }

  predicate HasGroupHeader(m: NetworkMessage) {
    m.writerGroupIdEnabled || m.groupSequenceNumberEnabled
  }

  function EncFlags(m: NetworkMessage): seq<byte> {
    [1 + 16 + 64
     + (if HasGroupHeader(m) then 32 else 0)
     + (if m.publisherIdType.IdByte? then 0 else 128)]
  }

  function EncPublisherId(m: NetworkMessage): seq<byte> {
    (if m.publisherIdType.IdByte? then [] else [m.publisherIdType.Code()])
    + LittleEndian(m.publisherId % WordSize(m.publisherIdType.Width()), m.publisherIdType.Width())
  }

  function EncGroupHeader(m: NetworkMessage): seq<byte> {
    if HasGroupHeader(m) then
      [(if m.writerGroupIdEnabled then 1 else 0) + (if m.groupSequenceNumberEnabled then 8 else 0)]
      + (if m.writerGroupIdEnabled then LittleEndian(m.writerGroupId, 2) else [])
      + (if m.groupSequenceNumberEnabled then LittleEndian(m.groupSequenceNumber, 2) else [])
    else []
  }

  function EncPayloadHeader(ms: seq<DataSetMessage>): seq<byte> {
    [(|ms| % 0x100) as byte] + EncWriterIds(ms)
  }

  function EncPayload(ms: seq<DataSetMessage>): Option<seq<byte>> {
    var bodies :- EncBodies(ms);
    var sizes :- if |ms| > 1 then EncSizes(bodies) else Some([]);
    Some(sizes + Concat(bodies))
  }

  /** The datagram of a NetworkMessage, when the encoder does not throw. */
  function EncMessage(m: NetworkMessage): Option<seq<byte>> {
    if |m.messages| == 0 || |m.messages| > 255 then None
    else
      var payload :- EncPayload(m.messages);
      Some(EncFlags(m) + (EncPublisherId(m) + (EncGroupHeader(m) + (EncPayloadHeader(m.messages) + payload))))
  }

  // ---------------------------------------------------------------- what the decoder accepts

  /** The bit of weight `weight` in a flag byte. */
  predicate Bit(flags: nat, weight: nat)
    requires weight > 0
  {
    (flags / weight) % 2 == 1
  }

  function Rd(d: seq<byte>, p: nat, n: nat): (r: Parsed<nat>)
    ensures r.Parsed? ==> r.next == p + n <= |d| && r.value < Pow256(n)
  {
    if p + n > |d| then Refused
    else
      FromLittleEndianBound(d[p..p + n]);
      Parsed(FromLittleEndian(d[p..p + n]), p + n)
  }

  function Skip(d: seq<byte>, p: nat, n: nat): Parsed<()> {
    if p + n > |d| then Refused else Parsed((), p + n)
  }

  function SkipIf(present: bool, d: seq<byte>, p: nat, n: nat): Parsed<()> {
    if present then Skip(d, p, n) else Parsed((), p)
  }

  function RdString(d: seq<byte>, p: nat): Parsed<seq<byte>> {
    var (raw, q) :- Rd(d, p, 4);
    var length := ToSigned(raw, 0x1_0000_0000);
    if length <= 0 then Parsed([], q)
    else if q + length > |d| then Refused
    else Parsed(d[q..q + length], q + length)
  }

  function RdSigned(d: seq<byte>, p: nat, t: SignedType): Parsed<WireValue> {
    var (raw, q) :- Rd(d, p, t.Width());
    WordSizeIsPow256(t.Width());
    Parsed(Signed(t, ToSigned(raw, WordSize(t.Width()))), q)
  }

  function RdUnsigned(d: seq<byte>, p: nat, t: UnsignedType): Parsed<WireValue> {
    var (raw, q) :- Rd(d, p, t.Width());
    WordSizeIsPow256(t.Width());
    Parsed(Unsigned(t, raw), q)
  }

  function RdScalar(d: seq<byte>, p: nat, t: nat): Parsed<WireValue> {
    Pow256Values();
    match t
    case 0 => Parsed(Null, p)
    case 1 =>
      var (raw, q) :- Rd(d, p, 1);
      Parsed(Boolean(raw != 0), q)
    case 2 => RdSigned(d, p, SByte)
    case 3 => RdUnsigned(d, p, Byte)
    case 4 => RdSigned(d, p, Int16)
    case 5 => RdUnsigned(d, p, UInt16)
    case 6 => RdSigned(d, p, Int32)
    case 7 => RdUnsigned(d, p, UInt32)
    case 8 => RdSigned(d, p, Int64)
    case 9 => RdUnsigned(d, p, UInt64)
    case 10 =>
      var (raw, q) :- Rd(d, p, 4);
      Parsed(Float(raw), q)
    case 11 =>
      var (raw, q) :- Rd(d, p, 8);
      Parsed(Double(raw), q)
    case 12 =>
      var (text, q) :- RdString(d, p);
      Parsed(String(text), q)
    case 13 => RdSigned(d, p, DateTime)
    case _ => Refused
  }

  function RdElements(d: seq<byte>, p: nat, t: nat, n: nat): (r: Parsed<seq<WireValue>>)
    ensures r.Parsed? ==> |r.value| == n
    decreases n
  {
    if n == 0 then Parsed([], p)
    else
      var (head, q) :- RdScalar(d, p, t);
      var (tail, q') :- RdElements(d, q, t, n - 1);
      Parsed([head] + tail, q')
  }

  function RdArray(d: seq<byte>, p: nat, t: byte): Parsed<WireValue> {
    var (raw, q) :- Rd(d, p, 4);
    var length := ToSigned(raw, 0x1_0000_0000);
    if length <= 0 then Parsed(Array(t, []), q)
    else if length > MAX_DECODED_ARRAY_LENGTH then Refused
    else
      var (elements, q') :- RdElements(d, q, t, length);
      Parsed(Array(t, elements), q')
  }

  function RdVariant(d: seq<byte>, p: nat): Parsed<WireValue> {
    var (mask, q) :- Rd(d, p, 1);
    if Bit(mask, 0x40) then Refused
    else if Bit(mask, 0x80) then RdArray(d, q, mask % 0x40)
    else RdScalar(d, q, mask % 0x40)
  }

  /** The optional status and timestamps of a DataValue, by the bits of its mask. */
  function SkipDataValueTail(d: seq<byte>, p: nat, mask: nat): Parsed<()> {
    var (_, p1) :- SkipIf(Bit(mask, 2), d, p, 4);
    SkipLater(d, p1, mask)
  }

  function SkipLater(d: seq<byte>, p1: nat, mask: nat): Parsed<()> {
    var (_, p2) :- SkipIf(Bit(mask, 4), d, p1, 8);
    var (_, p3) :- SkipIf(Bit(mask, 8), d, p2, 8);
    var (_, p4) :- SkipIf(Bit(mask, 16), d, p3, 2);
    SkipIf(Bit(mask, 32), d, p4, 2)
  }

  function RdDataValue(d: seq<byte>, p: nat): Parsed<WireValue> {
    var (mask, q) :- Rd(d, p, 1);
    var (value, q1) :- if Bit(mask, 1) then RdVariant(d, q) else Parsed(Null, q);
    var (_, q2) :- SkipDataValueTail(d, q1, mask);
    Parsed(value, q2)
  }

  function RdField(d: seq<byte>, p: nat, encoding: nat): Parsed<WireValue> {
    if encoding == 0 then RdVariant(d, p) else RdDataValue(d, p)
  }

  function RdFields(d: seq<byte>, p: nat, encoding: nat, n: nat): (r: Parsed<seq<WireValue>>)
    ensures r.Parsed? ==> |r.value| == n
    decreases n
  {
    if n == 0 then Parsed([], p)
    else
      var (head, q) :- RdField(d, p, encoding);
      var (tail, q') :- RdFields(d, q, encoding, n - 1);
      Parsed([head] + tail, q')
  }

  /** An optional two-byte number: its value if present, otherwise `absent`. */
  function RdIf(present: bool, d: seq<byte>, p: nat, absent: uint16): (r: Parsed<uint16>) {
    Pow256Values();
    if present then Rd(d, p, 2) else Parsed(absent, p)
  }

  /** The optional timestamp, picoseconds, status and version fields of a DataSetMessage. */
  function SkipDataSetExtras(d: seq<byte>, p: nat, flags1: nat, flags2: nat): Parsed<()> {
    var (_, p1) :- SkipIf(Bit(flags2, 16), d, p, 8);
    var (_, p2) :- SkipIf(Bit(flags2, 32), d, p1, 2);
    var (_, p3) :- SkipIf(Bit(flags1, 16), d, p2, 2);
    var (_, p4) :- SkipIf(Bit(flags1, 32), d, p3, 4);
    SkipIf(Bit(flags1, 64), d, p4, 4)
  }

  /** The fields of a key frame, in the field encoding that `flags1` selects. */
  function RdKeyFrame(d: seq<byte>, p: nat, flags1: nat): Parsed<seq<WireValue>> {
    if (flags1 / 2) % 4 == 1 then Refused
    else
      var (count, q) :- Rd(d, p, 2);
      RdFields(d, q, (flags1 / 2) % 4, count)
  }

  function RdDataSetMessage(d: seq<byte>, p: nat, writerId: uint16): Parsed<DataSetMessage> {
    var (flags1, p1) :- Rd(d, p, 1);
    var (flags2, p2) :- if Bit(flags1, 128) then Rd(d, p1, 1) else Parsed(0, p1);
    var (sequence, p3) :- RdIf(Bit(flags1, 8), d, p2, 0);
    var (_, p4) :- SkipDataSetExtras(d, p3, flags1, flags2);
    if flags2 % 16 == 3 then
      Parsed(DataSetMessage(writerId, Bit(flags1, 8), sequence, true, []), p4)
    else if flags2 % 16 != 0 then Refused
    else
      var (fields, p5) :- RdKeyFrame(d, p4, flags1);
      Parsed(DataSetMessage(writerId, Bit(flags1, 8), sequence, false, fields), p5)
  }

  function RdDataSetMessages(d: seq<byte>, p: nat, ids: seq<uint16>): (r: Parsed<seq<DataSetMessage>>)
    ensures r.Parsed? ==> |r.value| == |ids|
    decreases |ids|
  {
    if ids == [] then Parsed([], p)
    else
      var (head, q) :- RdDataSetMessage(d, p, ids[0]);
      var (tail, q') :- RdDataSetMessages(d, q, ids[1..]);
      Parsed([head] + tail, q')
  }

  /** `n` consecutive two-byte numbers. */
  function RdIds(d: seq<byte>, p: nat, n: nat): (r: Parsed<seq<uint16>>)
    ensures r.Parsed? ==> |r.value| == n
    decreases n
  {
    Pow256Values();
    if n == 0 then Parsed([], p)
    else
      var (head, q) :- Rd(d, p, 2);
      var (tail, q') :- RdIds(d, q, n - 1);
      Parsed([head] + tail, q')
  }

  /** The flag bytes of a NetworkMessage; `ext1` is 0 when that byte is absent. */
  datatype Flags = Flags(main: nat, ext1: nat, promoted: bool)

  function RdFlags(d: seq<byte>, p: nat): Parsed<Flags> {
    var (main, p1) :- Rd(d, p, 1);
    if main % 16 != 1 then Refused
    else if !Bit(main, 128) then Parsed(Flags(main, 0, false), p1)
    else
      var (ext1, p2) :- Rd(d, p1, 1);
      if !Bit(ext1, 128) then Parsed(Flags(main, ext1, false), p2)
      else
        var (ext2, p3) :- Rd(d, p2, 1);
        if Bit(ext2, 1) || (ext2 / 4) % 8 != 0 then Refused
        else Parsed(Flags(main, ext1, Bit(ext2, 2)), p3)
  }

  datatype PublisherId = PublisherId(idType: PublisherIdType, id: uint64)

  /** The publisher id; when it is absent the receiving object keeps the one it has. */
  function RdPublisherId(d: seq<byte>, p: nat, flags: Flags, prior: PublisherId): Parsed<PublisherId> {
    Pow256Values();
    if !Bit(flags.main, 16) then Parsed(prior, p)
    else
      match PublisherIdTypeOf(flags.ext1 % 8)
      case None => Refused
      case Some(t) =>
        var (id, q) :- Rd(d, p, t.Width());
        Parsed(PublisherId(t, id), q)
  }

  datatype Group = Group(idEnabled: bool, id: uint16, sequenceEnabled: bool, sequence: uint16)

  function RdGroupHeader(d: seq<byte>, p: nat, present: bool, prior: NetworkMessage): Parsed<Group> {
    if !present then Parsed(Group(false, prior.writerGroupId, false, prior.groupSequenceNumber), p)
    else
      var (flags, p1) :- Rd(d, p, 1);
      var (id, p2) :- RdIf(Bit(flags, 1), d, p1, prior.writerGroupId);
      var (_, p3) :- SkipIf(Bit(flags, 2), d, p2, 4);
      var (_, p4) :- SkipIf(Bit(flags, 4), d, p3, 2);
      var (sequence, p5) :- RdIf(Bit(flags, 8), d, p4, prior.groupSequenceNumber);
      Parsed(Group(Bit(flags, 1), id, Bit(flags, 8), sequence), p5)
  }

  /** The writer ids of the payload header; without that header there is one message, of writer 0. */
  function RdPayloadHeader(d: seq<byte>, p: nat, present: bool): Parsed<seq<uint16>> {
    if !present then Parsed([0], p)
    else
      var (count, q) :- Rd(d, p, 1);
      if count == 0 then Refused else RdIds(d, q, count)
  }

  /** Timestamps and promoted fields, skipped; a secured message is refused. */
  function SkipExtendedHeader(d: seq<byte>, p: nat, flags: Flags): Parsed<()> {
    var (_, p1) :- SkipIf(Bit(flags.ext1, 32), d, p, 8);
    var (_, p2) :- SkipIf(Bit(flags.ext1, 64), d, p1, 2);
    var (_, p3) :- if flags.promoted then SkipPromoted(d, p2) else Parsed((), p2);
    if Bit(flags.ext1, 16) then Refused else Parsed((), p3)
  }

  function SkipPromoted(d: seq<byte>, p: nat): Parsed<()> {
    var (size, q) :- Rd(d, p, 2);
    Skip(d, q, size)
  }

  function RdPayload(d: seq<byte>, p: nat, ids: seq<uint16>): Parsed<seq<DataSetMessage>> {
    var (_, q) :- if |ids| > 1 then RdIds(d, p, |ids|) else Parsed([], p);
    RdDataSetMessages(d, q, ids)
  }

  /** Everything that precedes the payload. */
  datatype Header = Header(publisher: PublisherId, group: Group, ids: seq<uint16>)

  function RdHeader(d: seq<byte>, p: nat, prior: NetworkMessage): Parsed<Header> {
    var (flags, p1) :- RdFlags(d, p);
    var (publisher, p2) :- RdPublisherId(d, p1, flags, PublisherId(prior.publisherIdType, prior.publisherId));
    var (_, p3) :- SkipIf(Bit(flags.ext1, 8), d, p2, 16);
    var (group, p4) :- RdGroupHeader(d, p3, Bit(flags.main, 32), prior);
    var (ids, p5) :- RdPayloadHeader(d, p4, Bit(flags.main, 64));
    var (_, p6) :- SkipExtendedHeader(d, p5, flags);
    Parsed(Header(publisher, group, ids), p6)
  }

  function Assemble(h: Header, messages: seq<DataSetMessage>): NetworkMessage {
    NetworkMessage(h.publisher.idType, h.publisher.id, h.group.idEnabled, h.group.id,
                   h.group.sequenceEnabled, h.group.sequence, messages)
  }

  /**
   The NetworkMessage that decoding the datagram `d` into the object `prior` gives, and the
   number of bytes read. Bytes after the last DataSetMessage are ignored.
   */
  function RdMessage(d: seq<byte>, prior: NetworkMessage): Parsed<NetworkMessage> {
    var (header, p) :- RdHeader(d, 0, prior);
    var (messages, q) :- RdPayload(d, p, header.ids);
    Parsed(Assemble(header, messages), q)
  }
}
