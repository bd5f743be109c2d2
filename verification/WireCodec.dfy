/**
 The encoder and the decoder of PubSubWire as they run: the encoder appends to a byte vector, the
 decoder advances a reader over the datagram. Each method is held to the function of `WireFormat`
 that says what it computes.
 */
module WireCodec {
  import opened Bytes
  import opened Wrappers
  import opened WireFormat
  import LayoutTheorems
  import EncoderLayout

  /** The bytes written so far, `done`, followed by those of `rest`, are those of `whole`. */
  ghost predicate Appends(whole: Option<seq<byte>>, done: seq<byte>, rest: Option<seq<byte>>) {
    && (whole.Some? <==> rest.Some?)
    && (whole.Some? ==> whole.value == done + rest.value)
  }

  /** The growing byte vector that the encoder writes into. */
  class ByteBuffer {
    var bytes: seq<byte>

    constructor ()
      ensures bytes == []
    {
      bytes := [];
    }

    method PutU8(v: byte)
      modifies this
      ensures bytes == old(bytes) + [v]
    {
      bytes := bytes + [v];
    }

    method PutU16(v: uint16)
      modifies this
      ensures bytes == old(bytes) + LittleEndian(v, 2)
    {
      assert LittleEndian(v, 2) == [v % 0x100] + LittleEndian(v / 0x100, 1);
      assert LittleEndian(v / 0x100, 1) == [(v / 0x100) % 0x100] + LittleEndian(v / 0x1_0000, 0);
      bytes := bytes + [v % 0x100];
      bytes := bytes + [(v / 0x100) % 0x100];
    }

    method PutU32(v: uint32)
      modifies this
      ensures bytes == old(bytes) + LittleEndian(v, 4)
    {
      for i := 0 to 4
        invariant bytes == old(bytes) + LittleEndian(v, 4)[..i]
      {
        LittleEndianAt(v, 4, i);
        bytes := bytes + [ShiftBytes(v, i) % 0x100];
      }
    }

    method PutU64(v: uint64)
      modifies this
      ensures bytes == old(bytes) + LittleEndian(v, 8)
    {
      for i := 0 to 8
        invariant bytes == old(bytes) + LittleEndian(v, 8)[..i]
      {
        LittleEndianAt(v, 8, i);
        bytes := bytes + [ShiftBytes(v, i) % 0x100];
      }
    }

    method PutString(s: seq<byte>)
      modifies this
      ensures bytes == old(bytes) + EncString(s)
    {
      PutU32(|s| % 0x1_0000_0000);
      bytes := bytes + s;
    }

    method Insert(s: seq<byte>)
      modifies this
      ensures bytes == old(bytes) + s
    {
      bytes := bytes + s;
    }

    /** The low `width` bytes of a number. */
    method PutWidth(v: uint64, width: nat)
      requires width in {1, 2, 4, 8}
      modifies this
      ensures bytes == old(bytes) + LittleEndian(v % WordSize(width), width)
    {
      match width
      case 1 =>
        assert LittleEndian(v % 0x100, 1) == [v % 0x100] + LittleEndian(0, 0);
        PutU8(v % 0x100);
      case 2 => PutU16(v % 0x1_0000);
      case 4 => PutU32(v % 0x1_0000_0000);
      case _ => PutU64(v);
    }

    /** Throws, that is returns false, on a scalar of an unsupported type. */
    method EncodeScalarBody(value: WireValue) returns (ok: bool)
      requires !value.Array?
      modifies this
      ensures ok == EncScalar(value).Some?
      ensures ok ==> bytes == old(bytes) + EncScalar(value).value
    {
      ok := true;
      match value
      case Null =>
      case Boolean(b) => PutU8(if b then 1 else 0);
      case Signed(t, i) =>
        var u := ToUnsigned(i, WordSize(t.Width()));
        PutWidth(u, t.Width());
        assert u % WordSize(t.Width()) == u;
      case Unsigned(t, u) => PutWidth(u, t.Width());
      case Float(b) => PutU32(b);
      case Double(b) => PutU64(b);
      case String(s) => PutString(s);
      case Foreign(_) => ok := false;
    }

    /** The element loop of an array; throws on a mixed or nested one. */
    method EncodeElements(t: byte, vs: seq<WireValue>) returns (ok: bool)
      modifies this
      ensures ok == EncElements(t, vs).Some?
      ensures ok ==> bytes == old(bytes) + EncElements(t, vs).value
    {
      hide EncScalar;
      ghost var done: seq<byte> := [];
      var i := 0;
      while i < |vs|
        invariant 0 <= i <= |vs|
        invariant bytes == old(bytes) + done
        invariant Appends(EncElements(t, vs), done, EncElements(t, vs[i..]))
      {
        assert vs[i..][0] == vs[i] && vs[i..][1..] == vs[i + 1..];
        if TypeCode(vs[i]) != t || vs[i].Array? {
          return false;
        }
        ok := EncodeScalarBody(vs[i]);
        if !ok {
          return;
        }
        done := done + EncScalar(vs[i]).value;
        i := i + 1;
      }
      return true;
    }

    method EncodeVariant(value: WireValue) returns (ok: bool)
      modifies this
      ensures ok == EncVariant(value).Some?
      ensures ok ==> bytes == old(bytes) + EncVariant(value).value
    {
      hide EncScalar, EncElements, LittleEndian;
      if value.Array? {
        if |value.elements| > MAX_ARRAY_LENGTH {
          return false;
        }
        PutU8(ArrayMask(value.elementType));
        PutU32(|value.elements|);
        ok := EncodeElements(value.elementType, value.elements);
      } else {
        PutU8(TypeCode(value));
        ok := EncodeScalarBody(value);
      }
    }

    method EncodeFields(fields: seq<WireValue>) returns (ok: bool)
      modifies this
      ensures ok == EncFields(fields).Some?
      ensures ok ==> bytes == old(bytes) + EncFields(fields).value
    {
      hide EncVariant;
      ghost var done: seq<byte> := [];
      var i := 0;
      while i < |fields|
        invariant 0 <= i <= |fields|
        invariant bytes == old(bytes) + done
        invariant Appends(EncFields(fields), done, EncFields(fields[i..]))
      {
        assert fields[i..][0] == fields[i] && fields[i..][1..] == fields[i + 1..];
        ok := EncodeVariant(fields[i]);
        if !ok {
          return;
        }
        done := done + EncVariant(fields[i]).value;
        i := i + 1;
      }
      return true;
    }

    method EncodeDataSetMessage(message: DataSetMessage) returns (ok: bool)
      modifies this
      ensures ok == EncDataSetMessage(message).Some?
      ensures ok ==> bytes == old(bytes) + EncDataSetMessage(message).value
    {
      hide EncFields, LittleEndian;
      PutU8(if message.sequenceNumberEnabled then 9 else 1);
      if message.sequenceNumberEnabled {
        PutU16(message.sequenceNumber);
      }
      PutU16(|message.fields| % 0x1_0000);
      assert bytes == old(bytes) + EncDataSetHeader(message);
      ok := EncodeFields(message.fields);
    }

    method PutWriterIds(messages: seq<DataSetMessage>)
      modifies this
      ensures bytes == old(bytes) + EncWriterIds(messages)
    {
      ghost var done: seq<byte> := [];
      for i := 0 to |messages|
        invariant bytes == old(bytes) + done
        invariant EncWriterIds(messages) == done + EncWriterIds(messages[i..])
      {
        assert messages[i..][0] == messages[i] && messages[i..][1..] == messages[i + 1..];
        PutU16(messages[i].dataSetWriterId);
        done := done + LittleEndian(messages[i].dataSetWriterId, 2);
      }
    }

    /** Throws when a body is too long for its two-byte size. */
    method PutSizes(bodies: seq<seq<byte>>) returns (ok: bool)
      modifies this
      ensures ok == EncSizes(bodies).Some?
      ensures ok ==> bytes == old(bytes) + EncSizes(bodies).value
    {
      ghost var done: seq<byte> := [];
      var i := 0;
      while i < |bodies|
        invariant 0 <= i <= |bodies|
        invariant bytes == old(bytes) + done
        invariant Appends(EncSizes(bodies), done, EncSizes(bodies[i..]))
      {
        assert bodies[i..][0] == bodies[i] && bodies[i..][1..] == bodies[i + 1..];
        if |bodies[i]| > 0xFFFF {
          return false;
        }
        PutU16(|bodies[i]|);
        done := done + LittleEndian(|bodies[i]|, 2);
        i := i + 1;
      }
      return true;
    }

    method PutBodies(bodies: seq<seq<byte>>)
      modifies this
      ensures bytes == old(bytes) + Concat(bodies)
    {
      ghost var done: seq<byte> := [];
      for i := 0 to |bodies|
        invariant bytes == old(bytes) + done
        invariant Concat(bodies) == done + Concat(bodies[i..])
      {
        assert bodies[i..][0] == bodies[i] && bodies[i..][1..] == bodies[i + 1..];
        Insert(bodies[i]);
        done := done + bodies[i];
      }
    }

    /** The group flags and the numbers that they announce. */
    method PutGroupHeader(message: NetworkMessage)
      modifies this
      ensures bytes == old(bytes) + EncGroupHeader(message)
    {
      if HasGroupHeader(message) {
        PutU8((if message.writerGroupIdEnabled then 1 else 0)
              + (if message.groupSequenceNumberEnabled then 8 else 0));
        if message.writerGroupIdEnabled {
          PutU16(message.writerGroupId);
        }
        if message.groupSequenceNumberEnabled {
          PutU16(message.groupSequenceNumber);
        }
      }
    }
  }

  /** The bodies of the messages, each in a byte vector of its own. */
  method EncodeBodies(messages: seq<DataSetMessage>) returns (ok: bool, bodies: seq<seq<byte>>)
    ensures ok == EncBodies(messages).Some?
    ensures ok ==> bodies == EncBodies(messages).value
  {
    bodies := [];
    var i := 0;
    while i < |messages|
      invariant 0 <= i <= |messages|
      invariant EncBodies(messages).Some? <==> EncBodies(messages[i..]).Some?
      invariant EncBodies(messages).Some? ==> EncBodies(messages).value == bodies + EncBodies(messages[i..]).value
    {
      assert messages[i..][0] == messages[i] && messages[i..][1..] == messages[i + 1..];
      var body := new ByteBuffer();
      ok := body.EncodeDataSetMessage(messages[i]);
      if !ok {
        return;
      }
      assert body.bytes == EncDataSetMessage(messages[i]).value;
      ghost var rest := EncBodies(messages[i + 1..]);
      if rest.Some? {
        assert bodies + ([body.bytes] + rest.value) == bodies + [body.bytes] + rest.value;
      }
      bodies := bodies + [body.bytes];
      i := i + 1;
    }
    ok := true;
  }

  /** The size array, when there are several messages, and the bodies. */
  method PutPayload(out: ByteBuffer, messages: seq<DataSetMessage>) returns (ok: bool)
    modifies out
    ensures ok == EncPayload(messages).Some?
    ensures ok ==> out.bytes == old(out.bytes) + EncPayload(messages).value
  {
    hide EncBodies, EncSizes, Concat;
    var bodies;
    ok, bodies := EncodeBodies(messages);
    if !ok {
      return;
    }
    if |messages| > 1 {
      ok := out.PutSizes(bodies);
      if !ok {
        return;
      }
    }
    out.PutBodies(bodies);
  }

  /** Encodes a NetworkMessage; returns false where the source throws. */
  method EncodeNetworkMessage(message: NetworkMessage) returns (ok: bool, datagram: seq<byte>)
    ensures ok == EncMessage(message).Some?
    ensures ok ==> datagram == EncMessage(message).value
    ensures ok ==> EncoderLayout.WrittenFor(datagram, message)
  {
    hide LittleEndian, EncPayload, EncGroupHeader, EncWriterIds, EncoderLayout.WrittenFor;
    if EncMessage(message).Some? {
      EncoderLayout.EncodedIsWritten(message);
    }
    datagram := [];
    var messages := message.messages;
    if |messages| == 0 || |messages| > 255 {
      return false, datagram;
    }
    var out := new ByteBuffer();
    var extended := message.publisherIdType.IdByte?;
    out.PutU8(EncFlags(message)[0]);
    if !extended {
      out.PutU8(message.publisherIdType.Code());
    }
    out.PutWidth(message.publisherId, message.publisherIdType.Width());
    assert out.bytes == EncFlags(message) + EncPublisherId(message);
    out.PutGroupHeader(message);
    out.PutU8(|messages|);
    out.PutWriterIds(messages);
    ghost var header := out.bytes;
    assert header == EncFlags(message) + EncPublisherId(message) + EncGroupHeader(message) + EncPayloadHeader(messages);
    ok := PutPayload(out, messages);
    datagram := out.bytes;
  }

  /** A cursor over a received datagram. */
  class Reader {
    const data: seq<byte>
    var position: nat

    ghost predicate Valid()
      reads this
    {
      position <= |data|
    }

    constructor (data: seq<byte>)
      ensures Valid() && this.data == data && position == 0
    {
      this.data := data;
      position := 0;
    }

    method U8() returns (ok: bool, v: byte)
      requires Valid()
      modifies this
      ensures Valid() && Reads(Rd(data, old(position), 1), ok, v as nat, position)
    {
      v := 0;
      if position + 1 > |data| {
        return false, v;
      }
      assert data[position..position + 1] == [data[position]];
      v := data[position];
      position := position + 1;
      ok := true;
    }

    method U16() returns (ok: bool, v: uint16)
      requires Valid()
      modifies this
      ensures Valid() && Reads(Rd(data, old(position), 2), ok, v as nat, position)
    {
      v := 0;
      if position + 2 > |data| {
        return false, v;
      }
      var low: nat, high: nat := data[position], data[position + 1];
      assert data[position..position + 2] == [low] + [high];
      FromLittleEndianSnoc([low], high);
      v := low + high * 0x100;
      position := position + 2;
      ok := true;
    }

    method U32() returns (ok: bool, v: uint32)
      requires Valid()
      modifies this
      ensures Valid() && Reads(Rd(data, old(position), 4), ok, v as nat, position)
    {
      v := 0;
      if position + 4 > |data| {
        return false, v;
      }
      Pow256Values();
      var sum: nat := 0;
      for i := 0 to 4
        invariant position == old(position)
        invariant sum == FromLittleEndian(data[position..position + i])
      {
        assert data[position..position + i + 1] == data[position..position + i] + [data[position + i]];
        FromLittleEndianSnoc(data[position..position + i], data[position + i]);
        sum := sum + data[position + i] * Pow256(i);
      }
      FromLittleEndianBound(data[position..position + 4]);
      v := sum;
      position := position + 4;
      ok := true;
    }

    method U64() returns (ok: bool, v: uint64)
      requires Valid()
      modifies this
      ensures Valid() && Reads(Rd(data, old(position), 8), ok, v as nat, position)
    {
      v := 0;
      if position + 8 > |data| {
        return false, v;
      }
      Pow256Values();
      var sum: nat := 0;
      for i := 0 to 8
        invariant position == old(position)
        invariant sum == FromLittleEndian(data[position..position + i])
      {
        assert data[position..position + i + 1] == data[position..position + i] + [data[position + i]];
        FromLittleEndianSnoc(data[position..position + i], data[position + i]);
        sum := sum + data[position + i] * Pow256(i);
      }
      FromLittleEndianBound(data[position..position + 8]);
      v := sum;
      position := position + 8;
      ok := true;
    }

    method Width(width: nat) returns (ok: bool, v: uint64)
      requires Valid() && width in {1, 2, 4, 8}
      modifies this
      ensures Valid() && Reads(Rd(data, old(position), width), ok, v as nat, position)
    {
      match width
      case 1 => ok, v := U8();
      case 2 => ok, v := U16();
      case 4 => ok, v := U32();
      case _ => ok, v := U64();
    }

    method Str() returns (ok: bool, v: seq<byte>)
      requires Valid()
      modifies this
      ensures Valid() && Reads(RdString(data, old(position)), ok, v, position)
    {
      v := [];
      var raw;
      ok, raw := U32();
      if !ok {
        return;
      }
      var length := ToSigned(raw, 0x1_0000_0000);
      if length <= 0 {
        return true, [];
      }
      if position + length > |data| {
        return false, v;
      }
      v := data[position..position + length];
      position := position + length;
    }

    method SkipBytes(n: nat) returns (ok: bool)
      requires Valid()
      modifies this
      ensures Valid() && Reads(Skip(data, old(position), n), ok, (), position)
    {
      if position + n > |data| {
        return false;
      }
      position := position + n;
      ok := true;
    }

    /** A skip that the source guards with a flag. */
    method SkipWhen(present: bool, n: nat) returns (ok: bool)
      requires Valid()
      modifies this
      ensures Valid() && Reads(SkipIf(present, data, old(position), n), ok, (), position)
    {
      ok := true;
      if present {
        ok := SkipBytes(n);
      }
    }

    method U16When(present: bool, absent: uint16) returns (ok: bool, v: uint16)
      requires Valid()
      modifies this
      ensures Valid() && Reads(RdIf(present, data, old(position), absent), ok, v, position)
    {
      ok, v := true, absent;
      if present {
        ok, v := U16();
      }
    }

    method DecodeSigned(t: SignedType) returns (ok: bool, out: WireValue)
      requires Valid()
      modifies this
      ensures Valid() && Reads(RdSigned(data, old(position), t), ok, out, position)
    {
      hide Rd, Pow256;
      var raw;
      out := Null;
      ok, raw := Width(t.Width());
      WordSizeIsPow256(t.Width());
      if ok {
        out := Signed(t, ToSigned(raw, WordSize(t.Width())));
      }
    }

    method DecodeUnsigned(t: UnsignedType) returns (ok: bool, out: WireValue)
      requires Valid()
      modifies this
      ensures Valid() && Reads(RdUnsigned(data, old(position), t), ok, out, position)
    {
      hide Rd, Pow256;
      var raw;
      ok, raw := Width(t.Width());
      out := Unsigned(t, raw);
    }

    method DecodeScalarBody(t: nat) returns (ok: bool, out: WireValue)
      requires Valid()
      modifies this
      ensures Valid() && Reads(RdScalar(data, old(position), t), ok, out, position)
    {
      hide Rd, RdString, RdSigned, RdUnsigned, Pow256;
      out := Null;
      match t
      case 0 => ok := true;
      case 1 =>
        var v;
        ok, v := U8();
        out := Boolean(v != 0);
      case 2 => ok, out := DecodeSigned(SByte);
      case 3 => ok, out := DecodeUnsigned(Byte);
      case 4 => ok, out := DecodeSigned(Int16);
      case 5 => ok, out := DecodeUnsigned(UInt16);
      case 6 => ok, out := DecodeSigned(Int32);
      case 7 => ok, out := DecodeUnsigned(UInt32);
      case 8 => ok, out := DecodeSigned(Int64);
      case 9 => ok, out := DecodeUnsigned(UInt64);
      case 10 =>
        var bits;
        ok, bits := U32();
        out := Float(bits);
      case 11 =>
        var bits;
        ok, bits := U64();
        out := Double(bits);
      case 12 =>
        var s;
        ok, s := Str();
        out := String(s);
      case 13 => ok, out := DecodeSigned(DateTime);
      case _ => ok := false;
    }

    method DecodeVariant() returns (ok: bool, out: WireValue)
      requires Valid()
      modifies this
      ensures Valid() && Reads(RdVariant(data, old(position)), ok, out, position)
    {
      hide Rd, RdScalar;
      out := Null;
      var mask;
      ok, mask := U8();
      if !ok {
        return;
      }
      if Bit(mask, 0x40) {
        return false, out;
      }
      var elementType := mask % 0x40;
      if !Bit(mask, 0x80) {
        ok, out := DecodeScalarBody(elementType);
        return;
      }
      var raw;
      ok, raw := U32();
      if !ok {
        return;
      }
      var length := ToSigned(raw, 0x1_0000_0000);
      var elements := [];
      if length > 0 {
        if length > MAX_DECODED_ARRAY_LENGTH {
          return false, out;
        }
        ghost var start := position;
        var i := 0;
        while i < length
          invariant 0 <= i <= length && Valid()
          invariant Continues(RdElements(data, start, elementType, length), elements,
                    RdElements(data, position, elementType, length - i))
        {
          var element;
          ok, element := DecodeScalarBody(elementType);
          if !ok {
            return;
          }
          elements := elements + [element];
          i := i + 1;
        }
      }
      assert elements + [] == elements;
      return true, Array(elementType, elements);
    }

    method DecodeDataValueField() returns (ok: bool, out: WireValue)
      requires Valid()
      modifies this
      ensures Valid() && Reads(RdDataValue(data, old(position)), ok, out, position)
    {
      hide Rd, RdVariant;
      out := Null;
      var mask;
      ok, mask := U8();
      if !ok {
        return;
      }
      if Bit(mask, 1) {
        ok, out := DecodeVariant();
        if !ok {
          return;
        }
      }
      ghost var start := position;
      ok := SkipWhen(Bit(mask, 2), 4);
      if ok {
        ok := SkipWhen(Bit(mask, 4), 8);
        if ok {
          ok := SkipWhen(Bit(mask, 8), 8);
          if ok {
            ok := SkipWhen(Bit(mask, 16), 2);
            if ok {
              ok := SkipWhen(Bit(mask, 32), 2);
            }
          }
        }
      }
      assert Reads(SkipDataValueTail(data, start, mask), ok, (), position);
    }

    /** The field loop of a key frame, in the Variant or the DataValue encoding. */
    method DecodeFields(encoding: nat, count: nat) returns (ok: bool, fields: seq<WireValue>)
      requires Valid()
      modifies this
      ensures Valid() && Reads(RdFields(data, old(position), encoding, count), ok, fields, position)
    {
      hide RdVariant, RdDataValue;
      fields := [];
      ghost var start := position;
      var i := 0;
      while i < count
        invariant 0 <= i <= count && Valid()
        invariant Continues(RdFields(data, start, encoding, count), fields,
                    RdFields(data, position, encoding, count - i))
      {
        var value;
        if encoding == 0 {
          ok, value := DecodeVariant();
        } else {
          ok, value := DecodeDataValueField();
        }
        if !ok {
          return;
        }
        fields := fields + [value];
        i := i + 1;
      }
      assert fields + [] == fields;
      ok := true;
    }

    method SkipDataSetMessageExtras(flags1: byte, flags2: byte) returns (ok: bool)
      requires Valid()
      modifies this
      ensures Valid() && Reads(SkipDataSetExtras(data, old(position), flags1, flags2), ok, (), position)
    {
      ok := SkipWhen(Bit(flags2, 16), 8);
      if ok {
        ok := SkipWhen(Bit(flags2, 32), 2);
        if ok {
          ok := SkipWhen(Bit(flags1, 16), 2);
          if ok {
            ok := SkipWhen(Bit(flags1, 32), 4);
            if ok {
              ok := SkipWhen(Bit(flags1, 64), 4);
            }
          }
        }
      }
    }

    method DecodeDataSetMessage(writerId: uint16) returns (ok: bool, out: DataSetMessage)
      requires Valid()
      modifies this
      ensures Valid() && Reads(RdDataSetMessage(data, old(position), writerId), ok, out, position)
    {
      hide Rd, RdFields, SkipDataSetExtras, Pow256;
      out := DataSetMessage(writerId, false, 0, false, []);
      var flags1;
      ok, flags1 := U8();
      if !ok {
        return;
      }
      var flags2: byte := 0;
      if Bit(flags1, 128) {
        ok, flags2 := U8();
        if !ok {
          return;
        }
      }
      var sequence;
      ok, sequence := U16When(Bit(flags1, 8), 0);
      out := out.(sequenceNumberEnabled := Bit(flags1, 8), sequenceNumber := sequence);
      if !ok {
        return;
      }
      ok := SkipDataSetMessageExtras(flags1, flags2);
      if !ok {
        return;
      }
      if flags2 % 16 == 3 {
        out := out.(keepAlive := true);
        return;
      }
      if flags2 % 16 != 0 {
        return false, out;
      }
      if (flags1 / 2) % 4 == 1 {
        return false, out;
      }
      var count, fields;
      ok, count := U16();
      if !ok {
        return;
      }
      ok, fields := DecodeFields((flags1 / 2) % 4, count);
      out := out.(fields := fields);
    }

    method DecodeIds(count: nat) returns (ok: bool, ids: seq<uint16>)
      requires Valid()
      modifies this
      ensures Valid() && Reads(RdIds(data, old(position), count), ok, ids, position)
    {
      hide Rd, Pow256;
      ids := [];
      ghost var start := position;
      var i := 0;
      while i < count
        invariant 0 <= i <= count && Valid()
        invariant Continues(RdIds(data, start, count), ids,
                    RdIds(data, position, count - i))
      {
        var id;
        ok, id := U16();
        if !ok {
          return;
        }
        ids := ids + [id];
        i := i + 1;
      }
      assert ids + [] == ids;
      ok := true;
    }

    method DecodeDataSetMessages(ids: seq<uint16>) returns (ok: bool, messages: seq<DataSetMessage>)
      requires Valid()
      modifies this
      ensures Valid() && Reads(RdDataSetMessages(data, old(position), ids), ok, messages, position)
    {
      hide RdDataSetMessage;
      messages := [];
      ghost var start := position;
      var i := 0;
      while i < |ids|
        invariant 0 <= i <= |ids| && Valid()
        invariant Continues(RdDataSetMessages(data, start, ids), messages,
                    RdDataSetMessages(data, position, ids[i..]))
      {
        assert ids[i..][0] == ids[i] && ids[i..][1..] == ids[i + 1..];
        var message;
        ok, message := DecodeDataSetMessage(ids[i]);
        if !ok {
          return;
        }
        messages := messages + [message];
        i := i + 1;
      }
      assert messages + [] == messages;
      ok := true;
    }

    method DecodeFlags() returns (ok: bool, flags: Flags)
      requires Valid()
      modifies this
      ensures Valid() && Reads(RdFlags(data, old(position)), ok, flags, position)
    {
      hide Rd;
      flags := Flags(0, 0, false);
      var main, ext1, ext2;
      ok, main := U8();
      if !ok {
        return;
      }
      if main % 16 != 1 {
        return false, flags;
      }
      flags := Flags(main, 0, false);
      if Bit(main, 128) {
        ok, ext1 := U8();
        if !ok {
          return;
        }
        flags := Flags(main, ext1, false);
        if Bit(ext1, 128) {
          ok, ext2 := U8();
          if !ok {
            return;
          }
          if Bit(ext2, 1) {
            return false, flags;
          }
          flags := Flags(main, ext1, Bit(ext2, 2));
          if (ext2 / 4) % 8 != 0 {
            return false, flags;
          }
        }
      }
    }

    method DecodePublisherId(flags: Flags, prior: PublisherId) returns (ok: bool, id: PublisherId)
      requires Valid()
      modifies this
      ensures Valid() && Reads(RdPublisherId(data, old(position), flags, prior), ok, id, position)
    {
      hide Rd, Pow256;
      ok, id := true, prior;
      if Bit(flags.main, 16) {
        match PublisherIdTypeOf(flags.ext1 % 8)
        case None => ok := false;
        case Some(t) =>
          var v;
          ok, v := Width(t.Width());
          id := PublisherId(t, v);
      }
    }

    method DecodeGroupHeader(present: bool, prior: NetworkMessage) returns (ok: bool, group: Group)
      requires Valid()
      modifies this
      ensures Valid() && Reads(RdGroupHeader(data, old(position), present, prior), ok, group, position)
    {
      hide Rd, Pow256, RdIf, SkipIf;
      ok, group := true, Group(false, prior.writerGroupId, false, prior.groupSequenceNumber);
      if present {
        var flags, id, sequence;
        ok, flags := U8();
        if !ok {
          return;
        }
        ok, id := U16When(Bit(flags, 1), prior.writerGroupId);
        if !ok {
          return;
        }
        ok := SkipWhen(Bit(flags, 2), 4);
        if !ok {
          return;
        }
        ok := SkipWhen(Bit(flags, 4), 2);
        if !ok {
          return;
        }
        ok, sequence := U16When(Bit(flags, 8), prior.groupSequenceNumber);
        group := Group(Bit(flags, 1), id, Bit(flags, 8), sequence);
      }
    }

    method DecodePayloadHeader(present: bool) returns (ok: bool, ids: seq<uint16>)
      requires Valid()
      modifies this
      ensures Valid() && Reads(RdPayloadHeader(data, old(position), present), ok, ids, position)
    {
      hide Rd, RdIds;
      ok, ids := true, [0];
      if present {
        var count;
        ok, count := U8();
        if !ok {
          return;
        }
        if count == 0 {
          return false, ids;
        }
        ok, ids := DecodeIds(count);
      }
    }

    method SkipExtended(flags: Flags) returns (ok: bool)
      requires Valid()
      modifies this
      ensures Valid() && Reads(SkipExtendedHeader(data, old(position), flags), ok, (), position)
    {
      hide Rd;
      ok := SkipWhen(Bit(flags.ext1, 32), 8);
      if !ok {
        return;
      }
      ok := SkipWhen(Bit(flags.ext1, 64), 2);
      if !ok {
        return;
      }
      if flags.promoted {
        var size;
        ok, size := U16();
        if !ok {
          return;
        }
        ok := SkipBytes(size);
        if !ok {
          return;
        }
      }
      if Bit(flags.ext1, 16) {
        return false;
      }
    }
  }

  /**
   Decodes a datagram into an object that holds `prior`. The decoder accepts exactly when
   `RdMessage` does, and then leaves the object as it says.
   */
  method DecodeNetworkMessage(data: seq<byte>, prior: NetworkMessage) returns (ok: bool, out: NetworkMessage)
    ensures ok == RdMessage(data, prior).Parsed?
    ensures ok ==> out == RdMessage(data, prior).value
    ensures if ok then LayoutTheorems.StandsFor(data, prior, out)
            else forall m :: !LayoutTheorems.StandsFor(data, prior, m)
  {
    LayoutTheorems.DecodedExactly(data, prior);
    hide LayoutTheorems.StandsFor, RdFlags, RdPublisherId, RdGroupHeader, RdPayloadHeader, SkipExtendedHeader, RdIds,
      RdDataSetMessages, SkipIf;
    out := prior;
    var reader := new Reader(data);
    var flags, id, group, ids, sizes, messages;
    ok, flags := reader.DecodeFlags();
    if !ok {
      return;
    }
    ok, id := reader.DecodePublisherId(flags, PublisherId(prior.publisherIdType, prior.publisherId));
    if !ok {
      return;
    }
    ok := reader.SkipWhen(Bit(flags.ext1, 8), 16);
    if !ok {
      return;
    }
    ok, group := reader.DecodeGroupHeader(Bit(flags.main, 32), prior);
    if !ok {
      return;
    }
    ok, ids := reader.DecodePayloadHeader(Bit(flags.main, 64));
    if !ok {
      return;
    }
    ok := reader.SkipExtended(flags);
    if !ok {
      return;
    }
    ghost var header := RdHeader(data, 0, prior);
    assert header == Parsed(Header(id, group, ids), reader.position);
    if |ids| > 1 {
      ok, sizes := reader.DecodeIds(|ids|);
      if !ok {
        return;
      }
    }
    ok, messages := reader.DecodeDataSetMessages(ids);
    out := Assemble(Header(id, group, ids), messages);
  }
}
