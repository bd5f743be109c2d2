/**
 What a subscriber does with a datagram, and end to end: what a writer group publishes is what the
 matching reader's targets hold after the datagram has been handled.
 */
module Delivery {
  import opened Bytes
  import opened Wrappers
  import opened WireFormat
  import opened WireRoundTrip
  import opened WireTheorems
  import opened Publishing
  import WireCodec
  import LayoutTheorems
  import PubSubModel

  type ReaderKey = PubSubModel.ReaderKey

  /** A reader: the values of its target variables, and whether it has applied data. */
  datatype ReaderRuntime = ReaderRuntime(targets: seq<WireValue>, dataSeen: bool)

  type Readers = map<ReaderKey, ReaderRuntime>

  /** The values that can be written to a variable. Arrays of Int8 can, single ones cannot. */
  predicate Convertible(v: WireValue) {
    match v
    case Null => false
    case Signed(t, _) => t != SByte && t != DateTime
    case Foreign(_) => false
    case Array(t, _) => 0 < t < DateTime.Code()
    case _ => true
  }

  function Min(a: nat, b: nat): nat {
    if a < b then a else b
  }

  /** Whether the variable that a field is written to accepts the value, by message and field. */
  type Accepts = (nat, nat) -> bool

  /** Every target that has a convertible field, and accepts it, takes it; the others stay. */
  function Written(targets: seq<WireValue>, fields: seq<WireValue>, i: nat, accepts: Accepts): seq<WireValue> {
    seq(|targets|, f requires 0 <= f < |targets| =>
      if f < |fields| && Convertible(fields[f]) && accepts(i, f) then fields[f] else targets[f])
  }

  /** The reader after the i-th message of a datagram; data is seen even if no target accepts a value. */
  function Refreshed(r: ReaderRuntime, m: DataSetMessage, i: nat, accepts: Accepts): ReaderRuntime {
    ReaderRuntime(Written(r.targets, m.fields, i, accepts), r.dataSeen || Min(|m.fields|, |r.targets|) > 0)
  }

  function KeyFor(m: NetworkMessage, d: DataSetMessage): ReaderKey {
    PubSubModel.ReaderKey(m.publisherId, if m.writerGroupIdEnabled then m.writerGroupId else 0, d.dataSetWriterId)
  }

  /** The readers after one DataSetMessage: keep-alives and messages for nobody change nothing. */
  function AppliedOne(readers: Readers, m: NetworkMessage, i: nat, accepts: Accepts): Readers
    requires i < |m.messages|
  {
    var d, key := m.messages[i], KeyFor(m, m.messages[i]);
    if d.keepAlive || key !in readers then readers else readers[key := Refreshed(readers[key], d, i, accepts)]
  }

  function Applied(readers: Readers, m: NetworkMessage, count: nat, accepts: Accepts): Readers
    requires count <= |m.messages|
  {
    if count == 0 then readers else AppliedOne(Applied(readers, m, count - 1, accepts), m, count - 1, accepts)
  }

  class Subscriber {
    var readers: Readers

    constructor (readers: Readers)
      ensures this.readers == readers
    {
      this.readers := readers;
    }

    /** A datagram that cannot be decoded changes nothing. */
    method HandleDatagram(data: seq<byte>, accepts: Accepts)
      modifies this
      ensures readers ==
        match RdMessage(data, FreshMessage)
        case Refused => old(readers)
        case Parsed(m, _) => Applied(old(readers), m, |m.messages|, accepts)
    {
      hide RdMessage, Refreshed, KeyFor, LayoutTheorems.StandsFor;
      var ok, message := WireCodec.DecodeNetworkMessage(data, FreshMessage);
      if !ok {
        return;
      }
      for m := 0 to |message.messages|
        invariant readers == Applied(old(readers), message, m, accepts)
      {
        var dsm := message.messages[m];
        var key := KeyFor(message, dsm);
        if !dsm.keepAlive && key in readers {
          var next := ApplyFields(readers[key], dsm, m, accepts);
          readers := readers[key := next];
        }
      }
    }

    method ApplyFields(r: ReaderRuntime, dsm: DataSetMessage, i: nat, accepts: Accepts) returns (next: ReaderRuntime)
      ensures next == Refreshed(r, dsm, i, accepts)
    {
      hide Convertible;
      var targets := r.targets;
      var count := Min(|dsm.fields|, |targets|);
      for f := 0 to count
        invariant |targets| == |r.targets|
        invariant forall t :: 0 <= t < |targets| ==>
          targets[t] == if t < f then Written(r.targets, dsm.fields, i, accepts)[t] else r.targets[t]
      {
        if Convertible(dsm.fields[f]) && accepts(i, f) {
          targets := targets[f := dsm.fields[f]];
        }
      }
      assert targets == Written(r.targets, dsm.fields, i, accepts);
      next := ReaderRuntime(targets, r.dataSeen || count > 0);
    }
  }

  // ---------------------------------------------------------------- one message, many readers

  /** Only the readers that a message names are touched, and no target is added or lost. */
  lemma {:induction false} OthersUntouched(
    readers: Readers, m: NetworkMessage, count: nat, accepts: Accepts, key: ReaderKey)
    requires count <= |m.messages| && forall i :: 0 <= i < count ==> KeyFor(m, m.messages[i]) != key
    ensures Applied(readers, m, count, accepts).Keys == readers.Keys
    ensures key in readers ==> Applied(readers, m, count, accepts)[key] == readers[key]
  {
    hide Refreshed, KeyFor;
    if count > 0 {
      OthersUntouched(readers, m, count - 1, accepts, key);
    }
  }

  predicate WritersDistinct(m: NetworkMessage) {
    forall i, j :: 0 <= i < j < |m.messages| ==> m.messages[i].dataSetWriterId != m.messages[j].dataSetWriterId
  }

  lemma {:induction false} AddressedApplied(readers: Readers, m: NetworkMessage, count: nat, accepts: Accepts, i: nat)
    requires i < count <= |m.messages| && WritersDistinct(m) && !m.messages[i].keepAlive
    requires KeyFor(m, m.messages[i]) in readers
    ensures var key, after := KeyFor(m, m.messages[i]), Applied(readers, m, count, accepts);
      key in after && after[key] == Refreshed(readers[key], m.messages[i], i, accepts)
  {
    hide Refreshed;
    if count == i + 1 {
      OthersUntouched(readers, m, i, accepts, KeyFor(m, m.messages[i]));
    } else {
      AddressedApplied(readers, m, count - 1, accepts, i);
    }
  }

  // ---------------------------------------------------------------- what one message does, by type

  /** The types of the single values that reach a variable: all but null, Int8 and dates. */
  const SINGLE_TYPES: set<nat> := {1, 3, 4, 5, 6, 7, 8, 9, 10, 11, 12}

  /** A value of the wire reaches a variable by its type; the elements of an array may be of Int8 too. */
  predicate ReachesByType(v: WireValue) {
    if v.Array? then 1 <= TypeCode(v) <= 12 else !v.Foreign? && TypeCode(v) as nat in SINGLE_TYPES
  }

  /**
   What the i-th message of a datagram does to the f-th target of a reader. It changes the target only if
   the message is for the reader and no keep-alive, has a field for the target of a type that reaches
   variables, and the variable accepts it; and then the target holds the field.
   */
  lemma TargetAfterMessage(readers: Readers, m: NetworkMessage, i: nat, accepts: Accepts, key: ReaderKey, f: nat)
    requires i < |m.messages| && key in readers && f < |readers[key].targets|
    ensures var d, after := m.messages[i], AppliedOne(readers, m, i, accepts);
      && key in after && |after[key].targets| == |readers[key].targets|
      && after[key].targets[f] ==
           if && key.publisherId == m.publisherId && key.dataSetWriterId == d.dataSetWriterId
              && key.writerGroupId == (if m.writerGroupIdEnabled then m.writerGroupId else 0)
              && !d.keepAlive && f < |d.fields| && ReachesByType(d.fields[f]) && accepts(i, f)
           then d.fields[f] else readers[key].targets[f]
  {
    if f < |m.messages[i].fields| {
      ConvertibleByType(m.messages[i].fields[f]);
    }
  }

  lemma ConvertibleByType(v: WireValue)
    ensures Convertible(v) <==> ReachesByType(v)
  {
  }

  /** A reader has seen data once a message for it, other than a keep-alive, has a field for one of its targets. */
  lemma DataSeenAfterMessage(readers: Readers, m: NetworkMessage, i: nat, accepts: Accepts, key: ReaderKey)
    requires i < |m.messages| && key in readers
    ensures var d, after := m.messages[i], AppliedOne(readers, m, i, accepts);
      && key in after
      && (after[key].dataSeen <==>
            || readers[key].dataSeen
            || (&& key.publisherId == m.publisherId && key.dataSetWriterId == d.dataSetWriterId
                && key.writerGroupId == (if m.writerGroupIdEnabled then m.writerGroupId else 0)
                && !d.keepAlive && d.fields != [] && readers[key].targets != []))
  {
  }

  // ---------------------------------------------------------------- end to end

  /** A sample whose values can all be published and come through. */
  predicate Publishable(sample: Sample) {
    |sample| <= 0xFFFF && forall f :: 0 <= f < |sample| && sample[f].Some? ==> WellFormedValue(sample[f].value)
  }

  /** What a writer's reader holds afterwards: the sampled value, or what it held if none can be written. */
  function After(held: WireValue, sampled: Option<WireValue>, accepted: bool): WireValue {
    if sampled.Some? && Convertible(sampled.value) && accepted then sampled.value else held
  }

  predicate GroupOk(g: GroupState) {
    && 1 <= |g.writers| <= 255 && g.publisherId < WordSize(g.publisherIdType.Width())
    && forall v, w :: 0 <= v < w < |g.writers| ==> g.writers[v].id != g.writers[w].id
  }

  lemma PublishedIsWellFormed(g: GroupState, samples: seq<Sample>)
    requires GroupOk(g) && |samples| == |g.writers| && forall w :: 0 <= w < |samples| ==> Publishable(samples[w])
    ensures WellFormedMessage(MessageOf(g, samples)) && DisabledNumbersZero(MessageOf(g, samples))
    ensures WritersDistinct(MessageOf(g, samples))
  {
    hide WellFormedValue;
    var m := MessageOf(g, samples);
    forall w | 0 <= w < |m.messages|
      ensures WellFormedDataSet(m.messages[w])
    {
      assert Publishable(samples[w]);
      forall f | 0 <= f < |samples[w]|
        ensures WellFormedValue(FieldOf(samples[w][f]))
      {
        NullIsWellFormed();
      }
    }
  }

  lemma NullIsWellFormed()
    ensures WellFormedValue(Null)
  {
  }

  /**
   End to end. Whatever a group with distinct writers publishes, as long as the bodies fit, is encoded;
   and after a subscriber has handled the datagram, the targets of the reader for each writer hold the
   sampled values, position by position, wherever the target accepts them, while readers for nobody in the
   message are untouched.
   */
  lemma PublishedIsDelivered(g: GroupState, samples: seq<Sample>, readers: Readers, accepts: Accepts, w: nat)
    requires GroupOk(g) && |samples| == |g.writers| && forall v :: 0 <= v < |samples| ==> Publishable(samples[v])
    requires |samples| > 1 ==> forall v :: 0 <= v < |samples| ==> SmallBody(MessageOf(g, samples).messages[v])
    requires w < |g.writers|
    ensures EncMessage(MessageOf(g, samples)).Some?
    ensures RdMessage(EncMessage(MessageOf(g, samples)).value, FreshMessage).Parsed?
    ensures var m := RdMessage(EncMessage(MessageOf(g, samples)).value, FreshMessage).value;
      var key := PubSubModel.ReaderKey(g.publisherId, g.id, g.writers[w].id);
      var after := Applied(readers, m, |m.messages|, accepts);
      && after.Keys == readers.Keys
      && (key in readers ==>
            && |after[key].targets| == |readers[key].targets|
            && (forall f :: 0 <= f < |readers[key].targets| && f < |samples[w]| ==>
                  after[key].targets[f] == After(readers[key].targets[f], samples[w][f], accepts(w, f)))
            && (forall f :: |samples[w]| <= f < |readers[key].targets| ==>
                  after[key].targets[f] == readers[key].targets[f])
            && (|samples[w]| > 0 && |readers[key].targets| > 0 ==> after[key].dataSeen))
      && forall k :: k in readers && !Addressed(g, k) ==> after[k] == readers[k]
  {
    hide EncMessage, RdMessage, WellFormedMessage, DisabledNumbersZero, SmallBody, GroupOk, Publishable, Applied, Refreshed;
    var m := MessageOf(g, samples);
    PublishedIsWellFormed(g, samples);
    WireRoundTrips(m);
    var key := PubSubModel.ReaderKey(g.publisherId, g.id, g.writers[w].id);
    KeysKept(readers, m, |m.messages|, accepts);
    if key in readers {
      assert KeyFor(m, m.messages[w]) == key;
      AddressedApplied(readers, m, |m.messages|, accepts, w);
      SampleReceived(readers[key], g.writers[w], samples[w], w, accepts);
    }
    forall k | k in readers && !Addressed(g, k)
      ensures Applied(readers, m, |m.messages|, accepts)[k] == readers[k]
    {
      NobodyAddressed(g, samples, k);
      OthersUntouched(readers, m, |m.messages|, accepts, k);
    }
  }

  /**
   What stands in the datagram of a group, as every receiver decodes it: for each writer, under its id and
   number, its samples in order, with Null for each variable whose value cannot be published.
   */
  lemma SamplesStand(g: GroupState, samples: seq<Sample>, prior: NetworkMessage)
    requires GroupOk(g) && |samples| == |g.writers| && forall v :: 0 <= v < |samples| ==> Publishable(samples[v])
    requires EncMessage(MessageOf(g, samples)).Some?
    ensures var r := RdMessage(EncMessage(MessageOf(g, samples)).value, prior);
      && r.Parsed? && |r.value.messages| == |g.writers|
      && r.value.publisherIdType == g.publisherIdType && r.value.publisherId == g.publisherId
      && r.value.writerGroupIdEnabled && r.value.writerGroupId == g.id
      && r.value.groupSequenceNumberEnabled && r.value.groupSequenceNumber == g.sequenceNumber
      && forall w :: 0 <= w < |g.writers| ==> CarriesSample(r.value.messages[w], g.writers[w], samples[w])
  {
    hide EncMessage, RdMessage, WellFormedMessage, DisabledNumbersZero, WritersDistinct, GroupOk, Publishable;
    var m := MessageOf(g, samples);
    PublishedIsWellFormed(g, samples);
    MessageRoundTrip(EncMessage(m).value, m, prior);
  }

  predicate CarriesSample(d: DataSetMessage, w: WriterRuntime, sample: Sample) {
    && d.dataSetWriterId == w.id && !d.keepAlive
    && d.sequenceNumberEnabled && d.sequenceNumber == w.sequenceNumber
    && |d.fields| == |sample|
    && forall f :: 0 <= f < |sample| ==>
         match sample[f]
         case None => d.fields[f] == Null
         case Some(v) => d.fields[f] == v
  }

  /** The key belongs to a writer of the group. */
  predicate Addressed(g: GroupState, key: ReaderKey) {
    && key.publisherId == g.publisherId && key.writerGroupId == g.id
    && exists w :: 0 <= w < |g.writers| && g.writers[w].id == key.dataSetWriterId
  }

  lemma NobodyAddressed(g: GroupState, samples: seq<Sample>, key: ReaderKey)
    requires |samples| == |g.writers| && !Addressed(g, key)
    ensures var m := MessageOf(g, samples);
      forall i :: 0 <= i < |m.messages| ==> KeyFor(m, m.messages[i]) != key
  {
  }

  lemma {:induction false} KeysKept(readers: Readers, m: NetworkMessage, count: nat, accepts: Accepts)
    requires count <= |m.messages|
    ensures Applied(readers, m, count, accepts).Keys == readers.Keys
  {
    hide Refreshed, KeyFor;
    if count > 0 {
      KeysKept(readers, m, count - 1, accepts);
    }
  }

  lemma SampleReceived(r: ReaderRuntime, w: WriterRuntime, sample: Sample, i: nat, accepts: Accepts)
    ensures var after := Refreshed(r, DataSetOf(w, sample), i, accepts);
      && |after.targets| == |r.targets|
      && (forall f :: 0 <= f < |r.targets| && f < |sample| ==>
            after.targets[f] == After(r.targets[f], sample[f], accepts(i, f)))
      && (forall f :: |sample| <= f < |r.targets| ==> after.targets[f] == r.targets[f])
      && (|sample| > 0 && |r.targets| > 0 ==> after.dataSeen)
  {
  }
}
