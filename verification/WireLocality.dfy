/**
 The decoder looks at nothing but the bytes it consumes. Read at one position of two datagrams
 with the same first `k` bytes, each part of the decoder gives the same result when it stops
 within those `k` bytes, and refuses the shorter datagram when it would have to read past it.
 */
module WireLocality {
  import opened Bytes
  import opened Wrappers
  import opened WireFormat

  /** The comparison of one read, from position `p`, in `d` (giving `rd`) and in `e` (giving `re`). */
  ghost predicate Local<T>(rd: Parsed<T>, re: Parsed<T>, p: nat, d: seq<byte>, e: seq<byte>, k: nat) {
    rd.Parsed? ==>
      && p <= rd.next <= |d|
      && (rd.next <= k ==> re == rd)
      && (|e| == k < rd.next ==> re.Refused?)
  }

  lemma RdLocal(d: seq<byte>, e: seq<byte>, k: nat, p: nat, n: nat)
    requires SamePrefix(d, e, k) && p <= k
    ensures Local(Rd(d, p, n), Rd(e, p, n), p, d, e, k)
  {
    if p + n <= k {
      SamePrefixSlice(d, e, k, p, p + n);
    }
  }

  lemma StringLocal(d: seq<byte>, e: seq<byte>, k: nat, p: nat)
    requires SamePrefix(d, e, k) && p <= k
    ensures Local(RdString(d, p), RdString(e, p), p, d, e, k)
  {
    RdLocal(d, e, k, p, 4);
    var r := RdString(d, p);
    if r.Parsed? && r.next <= k {
      SamePrefixSlice(d, e, k, p + 4, r.next);
    }
  }

  lemma IntegersLocal(d: seq<byte>, e: seq<byte>, k: nat, p: nat, t: SignedType, u: UnsignedType)
    requires SamePrefix(d, e, k) && p <= k
    ensures Local(RdSigned(d, p, t), RdSigned(e, p, t), p, d, e, k)
    ensures Local(RdUnsigned(d, p, u), RdUnsigned(e, p, u), p, d, e, k)
  {
    hide Rd, Pow256, WordSize, ToSigned;
    RdLocal(d, e, k, p, t.Width());
    RdLocal(d, e, k, p, u.Width());
  }

  lemma ScalarLocal(d: seq<byte>, e: seq<byte>, k: nat, p: nat, t: nat)
    requires SamePrefix(d, e, k) && p <= k
    ensures Local(RdScalar(d, p, t), RdScalar(e, p, t), p, d, e, k)
  {
    hide Rd, RdString, RdSigned, RdUnsigned, Pow256;
    match t
    case 0 =>
    case 1 => RdLocal(d, e, k, p, 1);
    case 2 => IntegersLocal(d, e, k, p, SByte, Byte);
    case 3 => IntegersLocal(d, e, k, p, SByte, Byte);
    case 4 => IntegersLocal(d, e, k, p, Int16, UInt16);
    case 5 => IntegersLocal(d, e, k, p, Int16, UInt16);
    case 6 => IntegersLocal(d, e, k, p, Int32, UInt32);
    case 7 => IntegersLocal(d, e, k, p, Int32, UInt32);
    case 8 => IntegersLocal(d, e, k, p, Int64, UInt64);
    case 9 => IntegersLocal(d, e, k, p, Int64, UInt64);
    case 10 => RdLocal(d, e, k, p, 4);
    case 11 => RdLocal(d, e, k, p, 8);
    case 12 => StringLocal(d, e, k, p);
    case 13 => IntegersLocal(d, e, k, p, DateTime, Byte);
    case _ =>
  }

  lemma {:induction false} ElementsLocal(d: seq<byte>, e: seq<byte>, k: nat, p: nat, t: nat, n: nat)
    requires SamePrefix(d, e, k) && p <= k
    ensures Local(RdElements(d, p, t, n), RdElements(e, p, t, n), p, d, e, k)
    decreases n
  {
    hide RdScalar;
    if n == 0 {
    } else {
      ScalarLocal(d, e, k, p, t);
      var head := RdScalar(d, p, t);
      if head.Parsed? && head.next <= k {
        ElementsLocal(d, e, k, head.next, t, n - 1);
      } else if head.Parsed? && RdElements(d, head.next, t, n - 1).Parsed? {
        ElementsLocal(d, d, |d|, head.next, t, n - 1);
      }
    }
  }

  lemma VariantLocal(d: seq<byte>, e: seq<byte>, k: nat, p: nat)
    requires SamePrefix(d, e, k) && p <= k
    ensures Local(RdVariant(d, p), RdVariant(e, p), p, d, e, k)
  {
    hide Rd, RdScalar, RdElements;
    RdLocal(d, e, k, p, 1);
    var mask := Rd(d, p, 1);
    if mask.Parsed? {
      RdLocal(d, d, |d|, p, 1);
      ArrayLocal(d, d, |d|, p + 1, mask.value % 0x40);
      ScalarLocal(d, d, |d|, p + 1, mask.value % 0x40);
      if mask.next <= k {
        ArrayLocal(d, e, k, p + 1, mask.value % 0x40);
        ScalarLocal(d, e, k, p + 1, mask.value % 0x40);
      }
    }
  }

  lemma ArrayLocal(d: seq<byte>, e: seq<byte>, k: nat, p: nat, t: byte)
    requires SamePrefix(d, e, k) && p <= k
    ensures Local(RdArray(d, p, t), RdArray(e, p, t), p, d, e, k)
  {
    hide Rd, RdElements;
    RdLocal(d, e, k, p, 4);
    var raw := Rd(d, p, 4);
    if raw.Parsed? {
      var length := ToSigned(raw.value, 0x1_0000_0000);
      if 0 < length {
        ElementsLocal(d, d, |d|, p + 4, t, length);
        if raw.next <= k {
          ElementsLocal(d, e, k, p + 4, t, length);
        }
      }
    }
  }

  lemma SkipsLocal(d: seq<byte>, e: seq<byte>, k: nat, p: nat, mask: nat)
    requires SamePrefix(d, e, k) && p <= k
    ensures Local(SkipDataValueTail(d, p, mask), SkipDataValueTail(e, p, mask), p, d, e, k)
  {
    hide Bit;
    SkipIfLocal(d, e, k, p, Bit(mask, 2), 4);
    var p1 := SkipIf(Bit(mask, 2), d, p, 4);
    if p1.Parsed? {
      LaterSkipsLocal(d, d, |d|, p1.next, mask);
      if p1.next <= k {
        LaterSkipsLocal(d, e, k, p1.next, mask);
      }
    }
  }

  lemma SkipIfLocal(d: seq<byte>, e: seq<byte>, k: nat, p: nat, present: bool, n: nat)
    requires SamePrefix(d, e, k) && p <= k
    ensures Local(SkipIf(present, d, p, n), SkipIf(present, e, p, n), p, d, e, k)
  {
  }

  /** The skips after the first, as they follow one another. */
  lemma LaterSkipsLocal(d: seq<byte>, e: seq<byte>, k: nat, p: nat, mask: nat)
    requires SamePrefix(d, e, k) && p <= k
    ensures Local(SkipLater(d, p, mask), SkipLater(e, p, mask), p, d, e, k)
  {
    hide Bit;
  }

  lemma DataValueLocal(d: seq<byte>, e: seq<byte>, k: nat, p: nat)
    requires SamePrefix(d, e, k) && p <= k
    ensures Local(RdDataValue(d, p), RdDataValue(e, p), p, d, e, k)
  {
    hide Rd, RdVariant, SkipDataValueTail;
    RdLocal(d, e, k, p, 1);
    var mask := Rd(d, p, 1);
    if mask.Parsed? {
      VariantLocal(d, d, |d|, p + 1);
      if mask.next <= k {
        VariantLocal(d, e, k, p + 1);
      }
      var value := if Bit(mask.value, 1) then RdVariant(d, p + 1) else Parsed(Null, p + 1);
      if value.Parsed? {
        SkipsLocal(d, d, |d|, value.next, mask.value);
        if value.next <= k {
          SkipsLocal(d, e, k, value.next, mask.value);
        }
      }
    }
  }

  lemma {:induction false} FieldsLocal(d: seq<byte>, e: seq<byte>, k: nat, p: nat, encoding: nat, n: nat)
    requires SamePrefix(d, e, k) && p <= k
    ensures Local(RdFields(d, p, encoding, n), RdFields(e, p, encoding, n), p, d, e, k)
    decreases n
  {
    hide RdVariant, RdDataValue;
    if n == 0 {
    } else {
      VariantLocal(d, e, k, p);
      DataValueLocal(d, e, k, p);
      var head := RdField(d, p, encoding);
      if head.Parsed? {
        FieldsLocal(d, d, |d|, head.next, encoding, n - 1);
        if head.next <= k {
          FieldsLocal(d, e, k, head.next, encoding, n - 1);
        }
      }
    }
  }

  lemma KeyFrameLocal(d: seq<byte>, e: seq<byte>, k: nat, p: nat, flags1: nat)
    requires SamePrefix(d, e, k) && p <= k
    ensures Local(RdKeyFrame(d, p, flags1), RdKeyFrame(e, p, flags1), p, d, e, k)
  {
    hide Rd, RdFields;
    RdLocal(d, e, k, p, 2);
    var count := Rd(d, p, 2);
    if count.Parsed? {
      FieldsLocal(d, d, |d|, p + 2, (flags1 / 2) % 4, count.value);
      if count.next <= k {
        FieldsLocal(d, e, k, p + 2, (flags1 / 2) % 4, count.value);
      }
    }
  }

  lemma ExtrasLocal(d: seq<byte>, e: seq<byte>, k: nat, p: nat, flags1: nat, flags2: nat)
    requires SamePrefix(d, e, k) && p <= k
    ensures Local(SkipDataSetExtras(d, p, flags1, flags2), SkipDataSetExtras(e, p, flags1, flags2), p, d, e, k)
  {
  }

  lemma DataSetLocal(d: seq<byte>, e: seq<byte>, k: nat, p: nat, id: uint16)
    requires SamePrefix(d, e, k) && p <= k
    ensures Local(RdDataSetMessage(d, p, id), RdDataSetMessage(e, p, id), p, d, e, k)
  {
    hide Rd, RdKeyFrame, SkipDataSetExtras;
    var r := RdDataSetMessage(d, p, id);
    if r.Parsed? {
      RdLocal(d, e, k, p, 1);
      var flags1 := Rd(d, p, 1);
      RdLocal(d, d, |d|, p + 1, 1);
      var flags2 := if Bit(flags1.value, 128) then Rd(d, p + 1, 1) else Parsed(0, p + 1);
      RdLocal(d, d, |d|, flags2.next, 2);
      var sequence := RdIf(Bit(flags1.value, 8), d, flags2.next, 0);
      ExtrasLocal(d, d, |d|, sequence.next, flags1.value, flags2.value);
      var extras := SkipDataSetExtras(d, sequence.next, flags1.value, flags2.value);
      KeyFrameLocal(d, d, |d|, extras.next, flags1.value);
      if flags1.next <= k {
        RdLocal(d, e, k, p + 1, 1);
        if flags2.next <= k {
          RdLocal(d, e, k, flags2.next, 2);
          if sequence.next <= k {
            ExtrasLocal(d, e, k, sequence.next, flags1.value, flags2.value);
            if extras.next <= k {
              KeyFrameLocal(d, e, k, extras.next, flags1.value);
            }
          }
        }
      }
    }
  }

  lemma {:induction false} DataSetsLocal(d: seq<byte>, e: seq<byte>, k: nat, p: nat, ids: seq<uint16>)
    requires SamePrefix(d, e, k) && p <= k
    ensures Local(RdDataSetMessages(d, p, ids), RdDataSetMessages(e, p, ids), p, d, e, k)
    decreases |ids|
  {
    hide RdDataSetMessage;
    if ids == [] {
    } else {
      DataSetLocal(d, e, k, p, ids[0]);
      var head := RdDataSetMessage(d, p, ids[0]);
      if head.Parsed? {
        DataSetsLocal(d, d, |d|, head.next, ids[1..]);
        if head.next <= k {
          DataSetsLocal(d, e, k, head.next, ids[1..]);
        }
      }
    }
  }

  lemma {:induction false} IdsLocal(d: seq<byte>, e: seq<byte>, k: nat, p: nat, n: nat)
    requires SamePrefix(d, e, k) && p <= k
    ensures Local(RdIds(d, p, n), RdIds(e, p, n), p, d, e, k)
    decreases n
  {
    hide Rd, Pow256;
    if n == 0 {
    } else {
      RdLocal(d, e, k, p, 2);
      var head := Rd(d, p, 2);
      if head.Parsed? {
        IdsLocal(d, d, |d|, p + 2, n - 1);
        if head.next <= k {
          IdsLocal(d, e, k, p + 2, n - 1);
        }
      }
    }
  }

  lemma FlagsLocal(d: seq<byte>, e: seq<byte>, k: nat, p: nat)
    requires SamePrefix(d, e, k) && p <= k
    ensures Local(RdFlags(d, p), RdFlags(e, p), p, d, e, k)
  {
    hide Rd;
    RdLocal(d, e, k, p, 1);
    if p + 1 <= k {
      RdLocal(d, e, k, p + 1, 1);
      if p + 2 <= k {
        RdLocal(d, e, k, p + 2, 1);
      }
    }
  }

  lemma PublisherLocal(d: seq<byte>, e: seq<byte>, k: nat, p: nat, flags: Flags, prior: PublisherId)
    requires SamePrefix(d, e, k) && p <= k
    ensures Local(RdPublisherId(d, p, flags, prior), RdPublisherId(e, p, flags, prior), p, d, e, k)
  {
    hide Rd, Pow256;
    RdLocal(d, e, k, p, 1);
    RdLocal(d, e, k, p, 2);
    RdLocal(d, e, k, p, 4);
    RdLocal(d, e, k, p, 8);
  }

  lemma OptionalLocal(d: seq<byte>, e: seq<byte>, k: nat, p: nat, present: bool, absent: uint16, n: nat)
    requires SamePrefix(d, e, k) && p <= k
    ensures Local(RdIf(present, d, p, absent), RdIf(present, e, p, absent), p, d, e, k)
    ensures Local(SkipIf(present, d, p, n), SkipIf(present, e, p, n), p, d, e, k)
  {
    hide Rd, Pow256;
    RdLocal(d, e, k, p, 2);
  }

  lemma GroupLocal(d: seq<byte>, e: seq<byte>, k: nat, p: nat, present: bool, prior: NetworkMessage)
    requires SamePrefix(d, e, k) && p <= k
    ensures Local(RdGroupHeader(d, p, present, prior), RdGroupHeader(e, p, present, prior), p, d, e, k)
  {
    hide Rd, RdIf, SkipIf, Pow256;
    var r := RdGroupHeader(d, p, present, prior);
    if present && r.Parsed? {
      RdLocal(d, e, k, p, 1);
      var flags := Rd(d, p, 1).value;
      var gid, gseq := prior.writerGroupId, prior.groupSequenceNumber;
      var p2 := RdIf(Bit(flags, 1), d, p + 1, gid).next;
      var p3 := SkipIf(Bit(flags, 2), d, p2, 4).next;
      var p4 := SkipIf(Bit(flags, 4), d, p3, 2).next;
      OptionalLocal(d, d, |d|, p + 1, Bit(flags, 1), gid, 0);
      OptionalLocal(d, d, |d|, p2, Bit(flags, 2), 0, 4);
      OptionalLocal(d, d, |d|, p3, Bit(flags, 4), 0, 2);
      OptionalLocal(d, d, |d|, p4, Bit(flags, 8), gseq, 0);
      if p + 1 <= k {
        OptionalLocal(d, e, k, p + 1, Bit(flags, 1), gid, 0);
        if p2 <= k {
          OptionalLocal(d, e, k, p2, Bit(flags, 2), 0, 4);
          if p3 <= k {
            OptionalLocal(d, e, k, p3, Bit(flags, 4), 0, 2);
            if p4 <= k {
              OptionalLocal(d, e, k, p4, Bit(flags, 8), gseq, 0);
            }
          }
        }
      }
    }
  }

  lemma PayloadHeaderLocal(d: seq<byte>, e: seq<byte>, k: nat, p: nat, present: bool)
    requires SamePrefix(d, e, k) && p <= k
    ensures Local(RdPayloadHeader(d, p, present), RdPayloadHeader(e, p, present), p, d, e, k)
  {
    hide Rd, RdIds;
    RdLocal(d, e, k, p, 1);
    var count := Rd(d, p, 1);
    if count.Parsed? {
      IdsLocal(d, d, |d|, p + 1, count.value);
      if count.next <= k {
        IdsLocal(d, e, k, p + 1, count.value);
      }
    }
  }

  lemma ExtendedLocal(d: seq<byte>, e: seq<byte>, k: nat, p: nat, flags: Flags)
    requires SamePrefix(d, e, k) && p <= k
    ensures Local(SkipExtendedHeader(d, p, flags), SkipExtendedHeader(e, p, flags), p, d, e, k)
  {
    hide Rd;
    var r := SkipExtendedHeader(d, p, flags);
    if r.Parsed? {
      var p1 := SkipIf(Bit(flags.ext1, 32), d, p, 8);
      var p2 := SkipIf(Bit(flags.ext1, 64), d, p1.next, 2);
      if p2.next <= k {
        RdLocal(d, e, k, p2.next, 2);
      }
    }
  }

  lemma HeaderLocal(d: seq<byte>, e: seq<byte>, k: nat, prior: NetworkMessage)
    requires SamePrefix(d, e, k)
    ensures Local(RdHeader(d, 0, prior), RdHeader(e, 0, prior), 0, d, e, k)
  {
    hide RdFlags, RdPublisherId, RdGroupHeader, RdPayloadHeader, SkipExtendedHeader;
    var r := RdHeader(d, 0, prior);
    if r.Parsed? {
      var flags := RdFlags(d, 0);
      var ext1 := flags.value.ext1;
      var priorId := PublisherId(prior.publisherIdType, prior.publisherId);
      var id := RdPublisherId(d, flags.next, flags.value, priorId);
      var classId := SkipIf(Bit(ext1, 8), d, id.next, 16);
      var group := RdGroupHeader(d, classId.next, Bit(flags.value.main, 32), prior);
      var ids := RdPayloadHeader(d, group.next, Bit(flags.value.main, 64));
      FlagsLocal(d, d, |d|, 0);
      PublisherLocal(d, d, |d|, flags.next, flags.value, priorId);
      GroupLocal(d, d, |d|, classId.next, Bit(flags.value.main, 32), prior);
      PayloadHeaderLocal(d, d, |d|, group.next, Bit(flags.value.main, 64));
      ExtendedLocal(d, d, |d|, ids.next, flags.value);
      FlagsLocal(d, e, k, 0);
      if flags.next <= k {
        PublisherLocal(d, e, k, flags.next, flags.value, priorId);
        if classId.next <= k {
          GroupLocal(d, e, k, classId.next, Bit(flags.value.main, 32), prior);
          if group.next <= k {
            PayloadHeaderLocal(d, e, k, group.next, Bit(flags.value.main, 64));
            if ids.next <= k {
              ExtendedLocal(d, e, k, ids.next, flags.value);
            }
          }
        }
      }
    }
  }

  lemma PayloadLocal(d: seq<byte>, e: seq<byte>, k: nat, p: nat, ids: seq<uint16>)
    requires SamePrefix(d, e, k) && p <= k
    ensures Local(RdPayload(d, p, ids), RdPayload(e, p, ids), p, d, e, k)
  {
    hide RdIds, RdDataSetMessages;
    IdsLocal(d, e, k, p, |ids|);
    var sizes := if |ids| > 1 then RdIds(d, p, |ids|) else Parsed([], p);
    if sizes.Parsed? {
      DataSetsLocal(d, d, |d|, sizes.next, ids);
      if sizes.next <= k {
        DataSetsLocal(d, e, k, sizes.next, ids);
      }
    }
  }

  lemma MessageLocal(d: seq<byte>, e: seq<byte>, k: nat, prior: NetworkMessage)
    requires SamePrefix(d, e, k)
    ensures Local(RdMessage(d, prior), RdMessage(e, prior), 0, d, e, k)
  {
    hide RdHeader, RdPayload;
    HeaderLocal(d, e, k, prior);
    var header := RdHeader(d, 0, prior);
    if header.Parsed? {
      PayloadLocal(d, d, |d|, header.next, header.value.ids);
      if header.next <= k {
        PayloadLocal(d, e, k, header.next, header.value.ids);
      }
    }
  }
}
