/**
 The Pub/Sub engine's containers: dynamic and static writer groups, readers and the reference-counted
 receivers. The functions say what each operation of the engine does to them; the engine proper is
 the class in `PubSubEngine`.
 */
module PubSubModel {
  import opened Bytes
  import opened Wrappers
  import opened WireFormat

  type Text = seq<byte>

  /** Where a receiver listens. */
  datatype ReceiverKey = ReceiverKey(host: Text, port: uint16)

  datatype ReaderKey = ReaderKey(publisherId: uint64, writerGroupId: uint16, dataSetWriterId: uint16)

  datatype GroupKey = GroupKey(id: uint16, publisherIdType: PublisherIdType, publisherId: uint64)

  /** A writer group in the container. An empty owner tag means that it was configured at startup. */
  datatype WriterGroup = WriterGroup(key: GroupKey, ownerTag: Text)

  /** A reader in the container; `connection` names the FX connection that its first data is for. */
  datatype Reader = Reader(
    ownerTag: Text, at: ReceiverKey, connection: Option<Text>, dataSeen: bool, firstDataSignalled: bool)

  datatype State = State(
    running: bool, groups: seq<WriterGroup>, readers: map<ReaderKey, Reader>, receivers: map<ReceiverKey, nat>)

  /** The readers that listen at `at`. */
  function ReadersAt(readers: map<ReaderKey, Reader>, at: ReceiverKey): set<ReaderKey> {
    set k | k in readers && readers[k].at == at
  }

  /** The receivers that the readers need, each with its number of readers. */
  function Usage(readers: map<ReaderKey, Reader>): map<ReceiverKey, nat> {
    map at | at in (set k | k in readers :: readers[k].at) :: |ReadersAt(readers, at)|
  }

  predicate HasGroup(groups: seq<WriterGroup>, key: GroupKey) {
    exists i :: 0 <= i < |groups| && groups[i].key == key
  }

  /** No dynamic group has the key of a group before it. Static groups come first and are not checked. */
  predicate KeysUnique(groups: seq<WriterGroup>) {
    forall i, j :: 0 <= i < j < |groups| && groups[j].ownerTag != [] ==> groups[i].key != groups[j].key
  }

  /** Dynamic groups have keys of their own, and the receivers are exactly those in use. */
  ghost predicate Consistent(s: State) {
    KeysUnique(s.groups) && s.receivers == Usage(s.readers)
  }

  lemma UsageAt(readers: map<ReaderKey, Reader>, at: ReceiverKey)
    ensures at in Usage(readers) <==> ReadersAt(readers, at) != {}
    ensures at in Usage(readers) ==> Usage(readers)[at] == |ReadersAt(readers, at)|
  {
    if at in Usage(readers) {
      var k :| k in readers && readers[k].at == at;
      assert k in ReadersAt(readers, at);
    }
  }

  /** How many users a receiver has; a receiver that nobody uses is not there. */
  function Users(receivers: map<ReceiverKey, nat>, at: ReceiverKey): nat {
    if at in receivers then receivers[at] else 0
  }

  lemma UsersOfUsage(readers: map<ReaderKey, Reader>, at: ReceiverKey)
    ensures Users(Usage(readers), at) == |ReadersAt(readers, at)|
    ensures at in Usage(readers) <==> Users(Usage(readers), at) > 0
  {
    hide Usage;
    UsageAt(readers, at);
  }

  /** Two tables without idle receivers are equal if they count the same users. */
  lemma SameUsers(a: map<ReceiverKey, nat>, b: map<ReceiverKey, nat>)
    requires forall at :: at in a <==> Users(a, at) > 0
    requires forall at :: at in b <==> Users(b, at) > 0
    requires forall at :: Users(a, at) == Users(b, at)
    ensures a == b
  {
    assert forall at :: at in a <==> at in b;
  }

  lemma UsageAfterAdd(readers: map<ReaderKey, Reader>, key: ReaderKey, r: Reader)
    requires key !in readers
    ensures Usage(readers[key := r]) == Usage(readers)[r.at := Users(Usage(readers), r.at) + 1]
  {
    hide Usage, ReadersAt;
    var after, expected := readers[key := r], Usage(readers)[r.at := Users(Usage(readers), r.at) + 1];
    forall at
      ensures at in Usage(after) <==> Users(Usage(after), at) > 0
      ensures at in expected <==> Users(expected, at) > 0
      ensures Users(Usage(after), at) == Users(expected, at)
    {
      UsersOfUsage(readers, at);
      UsersOfUsage(after, at);
      ReadersAtAfterAdd(readers, key, r, at);
    }
    SameUsers(Usage(after), expected);
  }

  lemma ReadersAtAfterAdd(readers: map<ReaderKey, Reader>, key: ReaderKey, r: Reader, at: ReceiverKey)
    requires key !in readers
    ensures |ReadersAt(readers[key := r], at)| == |ReadersAt(readers, at)| + if at == r.at then 1 else 0
  {
    assert ReadersAt(readers[key := r], at) == ReadersAt(readers, at) + (if at == r.at then {key} else {});
  }

  lemma UsageAfterRemove(readers: map<ReaderKey, Reader>, key: ReaderKey)
    requires key in readers
    ensures readers[key].at in Usage(readers) && Usage(readers)[readers[key].at] > 0
    ensures Usage(readers - {key}) == Release(Usage(readers), readers[key].at)
  {
    hide Usage, ReadersAt;
    var after, r := readers - {key}, readers[key];
    ReadersAtAfterRemove(readers, key, r.at);
    UsersOfUsage(readers, r.at);
    var expected := Release(Usage(readers), r.at);
    forall at
      ensures at in Usage(after) <==> Users(Usage(after), at) > 0
      ensures at in expected <==> Users(expected, at) > 0
      ensures Users(Usage(after), at) == Users(expected, at)
    {
      UsersOfUsage(readers, at);
      UsersOfUsage(after, at);
      ReadersAtAfterRemove(readers, key, at);
    }
    SameUsers(Usage(after), expected);
  }

  lemma ReadersAtAfterRemove(readers: map<ReaderKey, Reader>, key: ReaderKey, at: ReceiverKey)
    requires key in readers
    ensures |ReadersAt(readers, at)| == |ReadersAt(readers - {key}, at)| + if at == readers[key].at then 1 else 0
  {
    assert ReadersAt(readers, at) == ReadersAt(readers - {key}, at) + (if at == readers[key].at then {key} else {});
  }

  /** Only the places where readers listen matter to the receivers. */
  lemma UsageOfSamePlaces(a: map<ReaderKey, Reader>, b: map<ReaderKey, Reader>)
    requires a.Keys == b.Keys && forall k :: k in a ==> a[k].at == b[k].at
    ensures Usage(a) == Usage(b)
  {
    forall at
      ensures ReadersAt(a, at) == ReadersAt(b, at)
    {
    }
    assert (set k | k in a :: a[k].at) == (set k | k in b :: b[k].at);
  }

  // ---------------------------------------------------------------- the operations

  /** One more user of a receiver; a new one has to be bound, which may fail. */
  function Acquire(receivers: map<ReceiverKey, nat>, at: ReceiverKey, bindOk: bool): Option<map<ReceiverKey, nat>> {
    if at in receivers then Some(receivers[at := receivers[at] + 1])
    else if !bindOk then None
    else Some(receivers[at := 1])
  }

  /** One user less; the last one closes the receiver. */
  function Release(receivers: map<ReceiverKey, nat>, at: ReceiverKey): map<ReceiverKey, nat> {
    if at !in receivers then receivers
    else if receivers[at] <= 1 then receivers - {at}
    else receivers[at := (receivers[at] - 1) as nat]
  }

  /** Adds a dynamic writer group, or refuses and changes nothing. */
  function AddGroup(s: State, g: WriterGroup, fieldCount: nat, socketOk: bool): Option<State> {
    if !s.running || fieldCount == 0 || HasGroup(s.groups, g.key) || !socketOk then None
    else Some(s.(groups := s.groups + [g]))
  }

  /** Adds a dynamic reader, or refuses and changes nothing. */
  function AddReader(s: State, key: ReaderKey, r: Reader, targetCount: nat, bindOk: bool): Option<State> {
    if !s.running || targetCount == 0 || key in s.readers then None
    else
      var receivers :- Acquire(s.receivers, r.at, bindOk);
      Some(s.(readers := s.readers[key := r], receivers := receivers))
  }

  function WithoutTag(groups: seq<WriterGroup>, tag: Text): seq<WriterGroup> {
    if groups == [] then []
    else (if groups[0].ownerTag == tag then [] else [groups[0]]) + WithoutTag(groups[1..], tag)
  }

  function ReadersWithoutTag(readers: map<ReaderKey, Reader>, tag: Text): map<ReaderKey, Reader> {
    map k | k in readers && readers[k].ownerTag != tag :: readers[k]
  }

  /** Removes everything under an owner tag; the receivers are those that the other readers need. */
  function Remove(s: State, tag: Text): State {
    if !s.running then s
    else
      var readers := ReadersWithoutTag(s.readers, tag);
      s.(groups := WithoutTag(s.groups, tag), readers := readers, receivers := Usage(readers))
  }

  function WithoutTags(groups: seq<WriterGroup>, tags: set<Text>): seq<WriterGroup> {
    if groups == [] then []
    else (if groups[0].ownerTag in tags then [] else [groups[0]]) + WithoutTags(groups[1..], tags)
  }

  function ReadersWithoutTags(readers: map<ReaderKey, Reader>, tags: set<Text>): map<ReaderKey, Reader> {
    map k | k in readers && readers[k].ownerTag !in tags :: readers[k]
  }

  /** Removes everything under any of the owner tags. */
  function RemoveAll(s: State, tags: set<Text>): State {
    if !s.running || tags == {} then s
    else
      var readers := ReadersWithoutTags(s.readers, tags);
      s.(groups := WithoutTags(s.groups, tags), readers := readers, receivers := Usage(readers))
  }

  lemma {:induction false} WithoutTagsStep(groups: seq<WriterGroup>, tag: Text, tags: set<Text>)
    ensures WithoutTags(WithoutTag(groups, tag), tags) == WithoutTags(groups, tags + {tag})
  {
    if groups == [] {
    } else {
      WithoutTagsStep(groups[1..], tag, tags);
      var rest := WithoutTag(groups[1..], tag);
      if groups[0].ownerTag == tag {
        assert WithoutTag(groups, tag) == rest;
      } else {
        assert ([groups[0]] + rest)[1..] == rest;
      }
    }
  }

  lemma {:induction false} WithoutNoTags(groups: seq<WriterGroup>)
    ensures WithoutTags(groups, {}) == groups
  {
    if groups == [] {
    } else {
      WithoutNoTags(groups[1..]);
    }
  }

  /** Removing one tag after the other is removing them all, in any order. */
  lemma RemoveAllStep(s: State, tag: Text, tags: set<Text>)
    ensures RemoveAll(Remove(s, tag), tags) == RemoveAll(s, tags + {tag})
  {
    hide Usage;
    WithoutTagsStep(s.groups, tag, tags);
    WithoutNoTags(WithoutTag(s.groups, tag));
    var readers := ReadersWithoutTag(s.readers, tag);
    var all := tags + {tag};
    assert ReadersWithoutTags(readers, tags) == ReadersWithoutTags(s.readers, all);
    if tags == {} {
      assert readers == ReadersWithoutTags(s.readers, all);
    }
  }

  predicate DataSeen(s: State, tag: Text) {
    s.running && exists k :: k in s.readers && s.readers[k].ownerTag == tag && s.readers[k].dataSeen
  }

  function Stopped(s: State): State {
    if s.running then State(false, [], map[], map[]) else s
  }

  // ---------------------------------------------------------------- what every operation keeps

  lemma {:induction false} WithoutTagContents(groups: seq<WriterGroup>, tag: Text)
    ensures forall g :: g in WithoutTag(groups, tag) <==> g in groups && g.ownerTag != tag
  {
    if groups == [] {
    } else {
      WithoutTagContents(groups[1..], tag);
      assert groups == [groups[0]] + groups[1..];
    }
  }

  lemma {:induction false} WithoutTagUnique(groups: seq<WriterGroup>, tag: Text)
    requires KeysUnique(groups)
    ensures KeysUnique(WithoutTag(groups, tag))
  {
    if groups == [] {
    } else {
      var rest := WithoutTag(groups[1..], tag);
      WithoutTagUnique(groups[1..], tag);
      WithoutTagContents(groups[1..], tag);
      forall j | 0 <= j < |rest| && rest[j].ownerTag != []
        ensures rest[j].key != groups[0].key
      {
        assert rest[j] in groups[1..];
      }
    }
  }

  lemma AddGroupKeepsConsistent(s: State, g: WriterGroup, fieldCount: nat, socketOk: bool)
    requires Consistent(s) && AddGroup(s, g, fieldCount, socketOk).Some?
    ensures Consistent(AddGroup(s, g, fieldCount, socketOk).value)
  {
  }

  lemma AddReaderKeepsConsistent(s: State, key: ReaderKey, r: Reader, targetCount: nat, bindOk: bool)
    requires Consistent(s) && AddReader(s, key, r, targetCount, bindOk).Some?
    ensures Consistent(AddReader(s, key, r, targetCount, bindOk).value)
  {
    hide Usage;
    UsageAfterAdd(s.readers, key, r);
  }

  lemma RemoveKeepsConsistent(s: State, tag: Text)
    requires Consistent(s)
    ensures Consistent(Remove(s, tag))
  {
    hide Usage;
    WithoutTagUnique(s.groups, tag);
  }

  lemma StoppedIsConsistent(s: State)
    requires Consistent(s)
    ensures Consistent(Stopped(s))
  {
    assert Usage(map[]) == map[];
  }

  /** Adding a group under a new tag and removing that tag leaves the engine exactly as it was. */
  lemma AddGroupUndone(s: State, g: WriterGroup, fieldCount: nat, socketOk: bool)
    requires Consistent(s) && AddGroup(s, g, fieldCount, socketOk).Some?
    requires forall i :: 0 <= i < |s.groups| ==> s.groups[i].ownerTag != g.ownerTag
    requires forall k :: k in s.readers ==> s.readers[k].ownerTag != g.ownerTag
    ensures Remove(AddGroup(s, g, fieldCount, socketOk).value, g.ownerTag) == s
  {
    WithoutNothing(s.groups, g);
    assert ReadersWithoutTag(s.readers, g.ownerTag) == s.readers;
  }

  lemma {:induction false} WithoutNothing(groups: seq<WriterGroup>, g: WriterGroup)
    requires forall i :: 0 <= i < |groups| ==> groups[i].ownerTag != g.ownerTag
    ensures WithoutTag(groups + [g], g.ownerTag) == groups && WithoutTag(groups, g.ownerTag) == groups
  {
    if groups == [] {
      assert groups + [g] == [g];
    } else {
      WithoutNothing(groups[1..], g);
      assert (groups + [g])[1..] == groups[1..] + [g];
      assert groups == [groups[0]] + groups[1..];
    }
  }

  /** Likewise for a reader: the reader is gone, and its receiver is closed if it was opened for it. */
  lemma AddReaderUndone(s: State, key: ReaderKey, r: Reader, targetCount: nat, bindOk: bool)
    requires Consistent(s) && AddReader(s, key, r, targetCount, bindOk).Some?
    requires forall i :: 0 <= i < |s.groups| ==> s.groups[i].ownerTag != r.ownerTag
    requires forall k :: k in s.readers ==> s.readers[k].ownerTag != r.ownerTag
    ensures Remove(AddReader(s, key, r, targetCount, bindOk).value, r.ownerTag) == s
  {
    hide Usage;
    WithoutNothing(s.groups, WriterGroup(GroupKey(0, IdByte, 0), r.ownerTag));
    assert ReadersWithoutTag(s.readers[key := r], r.ownerTag) == s.readers;
  }
}
