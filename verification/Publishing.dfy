/** What a writer group publishes when its timer fires, and the group as it runs. */
module Publishing {
  import opened Bytes
  import opened Wrappers
  import opened WireFormat

  datatype WriterRuntime = WriterRuntime(id: uint16, sequenceNumber: uint16)

  /** A writer group's runtime record. */
  datatype GroupState = GroupState(
    publisherIdType: PublisherIdType, publisherId: uint64, id: uint16, sequenceNumber: uint16, writers: seq<WriterRuntime>)

  /** What the variables of a writer convert to; None where a value cannot be encoded. */
  type Sample = seq<Option<WireValue>>

  /** The successor in 16 bits. */
  function Successor(n: uint16): uint16 {
    (n + 1) % 0x1_0000
  }

  function Next(w: WriterRuntime): WriterRuntime {
    w.(sequenceNumber := Successor(w.sequenceNumber))
  }

  function Advanced(g: GroupState): GroupState {
    g.(sequenceNumber := Successor(g.sequenceNumber),
       writers := seq(|g.writers|, w requires 0 <= w < |g.writers| =>
         Next(g.writers[w])))
  }

  function FieldOf(v: Option<WireValue>): WireValue {
    if v.Some? then v.value else Null
  }

  function FieldsOf(sample: Sample): seq<WireValue> {
    seq(|sample|, f requires 0 <= f < |sample| => FieldOf(sample[f]))
  }

  function DataSetOf(w: WriterRuntime, sample: Sample): DataSetMessage {
    DataSetMessage(w.id, true, w.sequenceNumber, false, FieldsOf(sample))
  }

  /** The message of a group whose numbers have been advanced for it. */
  function MessageOf(g: GroupState, samples: seq<Sample>): NetworkMessage
    requires |samples| == |g.writers|
  {
    NetworkMessage(g.publisherIdType, g.publisherId, true, g.id, true, g.sequenceNumber,
      seq(|samples|, w requires 0 <= w < |samples| => DataSetOf(g.writers[w], samples[w])))
  }

  class WriterGroupRuntime {
    const publisherIdType: PublisherIdType
    const publisherId: uint64
    const id: uint16
    var sequenceNumber: uint16
    var writers: seq<WriterRuntime>

    ghost function View(): GroupState
      reads this
    {
      GroupState(publisherIdType, publisherId, id, sequenceNumber, writers)
    }

    constructor (publisherIdType: PublisherIdType, publisherId: uint64, id: uint16, writerIds: seq<uint16>)
      ensures View() == GroupState(publisherIdType, publisherId, id, 0, writers)
      ensures |writers| == |writerIds|
      ensures forall w :: 0 <= w < |writers| ==> writers[w] == WriterRuntime(writerIds[w], 0)
    {
      this.publisherIdType, this.publisherId, this.id := publisherIdType, publisherId, id;
      sequenceNumber := 0;
      writers := seq(|writerIds|, w requires 0 <= w < |writerIds| => WriterRuntime(writerIds[w], 0));
    }

    /** Builds the next message of the group from the values that its variables have now. */
    method PublishGroup(samples: seq<Sample>) returns (message: NetworkMessage)
      requires |samples| == |writers|
      modifies this
      ensures View() == Advanced(old(View()))
      ensures message == MessageOf(View(), samples)
      ensures sequenceNumber == (old(sequenceNumber) + 1) % 0x1_0000 && |writers| == old(|writers|)
      ensures forall w :: 0 <= w < |writers| ==>
        writers[w] == WriterRuntime(old(writers)[w].id, (old(writers)[w].sequenceNumber + 1) % 0x1_0000)
    {
      sequenceNumber := Successor(sequenceNumber);
      var messages: seq<DataSetMessage> := [];
      for w := 0 to |samples|
        invariant |writers| == |samples| == old(|writers|) && |messages| == w
        invariant sequenceNumber == old(Successor(sequenceNumber))
        invariant forall v :: 0 <= v < |writers| ==> writers[v] == if v < w then Next(old(writers)[v]) else old(writers)[v]
        invariant forall v :: 0 <= v < w ==> messages[v] == DataSetOf(writers[v], samples[v])
      {
        writers := writers[w := writers[w].(sequenceNumber := Successor(writers[w].sequenceNumber))];
        var fields: seq<WireValue> := [];
        for f := 0 to |samples[w]|
          invariant fields == FieldsOf(samples[w])[..f]
        {
          fields := fields + [if samples[w][f].Some? then samples[w][f].value else Null];
        }
        messages := messages + [DataSetMessage(writers[w].id, true, writers[w].sequenceNumber, false, fields)];
      }
      message := NetworkMessage(publisherIdType, publisherId, true, id, true, sequenceNumber, messages);
    }
  }
}

/**
 The publishing timers. Every group has a timer whose completion publishes and waits again; removing
 a group cancels its timer, but a completion that is already queued still arrives as a success.
 */
module PublishTimers {
  import opened Bytes
  import opened Wrappers
  import opened WireFormat
  import opened Publishing

  /** An outstanding wait: the timer runs, or its completion is queued on the io thread. */
  datatype Wait = Running | Queued(aborted: bool)

  datatype Runtime = Runtime(group: GroupState, stopped: bool, waits: seq<Wait>)

  datatype Published = Published(runtime: nat, message: NetworkMessage)

  /**
   All runtime records ever made, the container of those that the engine refers to, and what has been
   published. `halted` once shutdown has stopped every group.
   */
  datatype Timers = Timers(runtimes: seq<Runtime>, container: set<nat>, halted: bool, log: seq<Published>)

  datatype Action =
    | AddGroup(group: GroupState)
    | Expire(runtime: nat, wait: nat)
    | Remove(runtimes: set<nat>)
    | Handle(runtime: nat, wait: nat, samples: seq<Sample>)
    | StopAll
    | Discard

  const Empty := Timers([], {}, false, [])

  /** A new group starts counting from zero. */
  predicate FreshGroup(g: GroupState) {
    g.sequenceNumber == 0 && forall w :: 0 <= w < |g.writers| ==> g.writers[w].sequenceNumber == 0
  }

  /** Cancelling aborts the waits whose timer still runs; what is queued stays as it is. */
  function Cancelled(waits: seq<Wait>): seq<Wait> {
    seq(|waits|, i requires 0 <= i < |waits| => if waits[i].Running? then Queued(true) else waits[i])
  }

  /** Setting a new expiry cancels the timer's waits; then one more wait begins. */
  function Scheduled(r: Runtime): Runtime {
    r.(waits := Cancelled(r.waits) + [Running])
  }

  function Stopped(r: Runtime): Runtime {
    r.(stopped := true, waits := Cancelled(r.waits))
  }

  function AllStopped(runtimes: seq<Runtime>, which: set<nat>): seq<Runtime> {
    seq(|runtimes|, i requires 0 <= i < |runtimes| => if i in which then Stopped(runtimes[i]) else runtimes[i])
  }

  function Completed(r: Runtime, wait: nat): Runtime
    requires wait < |r.waits|
  {
    r.(waits := r.waits[..wait] + r.waits[wait + 1..])
  }

  /** The io thread runs a queued completion. */
  function Handled(t: Timers, id: nat, wait: nat, samples: seq<Sample>): Timers
    requires id < |t.runtimes| && wait < |t.runtimes[id].waits| && t.runtimes[id].waits[wait].Queued?
    requires |samples| == |t.runtimes[id].group.writers|
  {
    var r := t.runtimes[id];
    var done := Completed(r, wait);
    if r.waits[wait].aborted || r.stopped then t.(runtimes := t.runtimes[id := done])
    else
      var group := Advanced(r.group);
      t.(runtimes := t.runtimes[id := Scheduled(done.(group := group))],
         log := t.log + [Published(id, MessageOf(group, samples))])
  }

  function Step(t: Timers, a: Action): Option<Timers> {
    match a
    case AddGroup(g) =>
      if t.halted || !FreshGroup(g) then None
      else Some(t.(runtimes := t.runtimes + [Scheduled(Runtime(g, false, []))], container := t.container + {|t.runtimes|}))
    case Expire(id, wait) =>
      if id >= |t.runtimes| || wait >= |t.runtimes[id].waits| || !t.runtimes[id].waits[wait].Running? then None
      else Some(t.(runtimes := t.runtimes[id := t.runtimes[id].(waits := t.runtimes[id].waits[wait := Queued(false)])]))
    case Remove(ids) =>
      if t.halted || !(ids <= t.container) then None
      else Some(t.(runtimes := AllStopped(t.runtimes, ids), container := t.container - ids))
    case Handle(id, wait, samples) =>
      if id >= |t.runtimes| || wait >= |t.runtimes[id].waits| || !t.runtimes[id].waits[wait].Queued?
         || |samples| != |t.runtimes[id].group.writers| then None
      else Some(Handled(t, id, wait, samples))
    case StopAll =>
      if t.halted then None
      else Some(t.(runtimes := AllStopped(t.runtimes, t.container), halted := true))
    case Discard =>
      if !t.halted then None
      else Some(t.(runtimes := seq(|t.runtimes|, i requires 0 <= i < |t.runtimes| => t.runtimes[i].(waits := [])),
                   container := {}))
  }

  function Run(t: Timers, actions: seq<Action>): Option<Timers> {
    if actions == [] then Some(t)
    else
      var before :- Run(t, actions[..|actions| - 1]);
      Step(before, actions[|actions| - 1])
  }

  /** What one group has published, in order. */
  function MessagesOf(log: seq<Published>, id: nat): seq<NetworkMessage> {
    if log == [] then []
    else
      var last := log[|log| - 1];
      MessagesOf(log[..|log| - 1], id) + if last.runtime == id then [last.message] else []
  }

  // ---------------------------------------------------------------- the invariant

  /** The k-th publication, counted from one, carries k modulo 65536 as every sequence number. */
  predicate NumberedAs(m: NetworkMessage, k: nat) {
    && m.groupSequenceNumberEnabled && m.groupSequenceNumber == k % 0x1_0000
    && forall w :: 0 <= w < |m.messages| ==>
         m.messages[w].sequenceNumberEnabled && m.messages[w].sequenceNumber == k % 0x1_0000
  }

  predicate Numbered(ms: seq<NetworkMessage>) {
    forall k :: 0 <= k < |ms| ==> NumberedAs(ms[k], k + 1)
  }

  predicate GroupAt(g: GroupState, count: nat) {
    && g.sequenceNumber == count % 0x1_0000
    && forall w :: 0 <= w < |g.writers| ==> g.writers[w].sequenceNumber == count % 0x1_0000
  }

  /** A live group has exactly one wait, not aborted; a stopped one at most a queued completion. */
  predicate WaitsOk(r: Runtime) {
    if r.stopped then r.waits == [] || (|r.waits| == 1 && r.waits[0].Queued?)
    else |r.waits| == 1 && r.waits[0] != Queued(true)
  }

  predicate RuntimeOk(t: Timers, id: nat)
    requires id < |t.runtimes|
  {
    && WaitsOk(t.runtimes[id])
    && (t.runtimes[id].stopped <==> t.halted || id !in t.container)
    && GroupAt(t.runtimes[id].group, |MessagesOf(t.log, id)|)
    && Numbered(MessagesOf(t.log, id))
  }

  predicate Inv(t: Timers) {
    && (forall id :: id in t.container ==> id < |t.runtimes|)
    && (forall i :: 0 <= i < |t.log| ==> t.log[i].runtime < |t.runtimes|)
    && (forall id :: 0 <= id < |t.runtimes| ==> RuntimeOk(t, id))
  }

  lemma {:induction false} NothingPublished(log: seq<Published>, id: nat)
    requires forall i :: 0 <= i < |log| ==> log[i].runtime != id
    ensures MessagesOf(log, id) == []
  {
    if log == [] {
    } else {
      NothingPublished(log[..|log| - 1], id);
    }
  }

  lemma PublishedOne(log: seq<Published>, p: Published, id: nat)
    ensures MessagesOf(log + [p], id) == MessagesOf(log, id) + if p.runtime == id then [p.message] else []
  {
    assert (log + [p])[..|log|] == log;
  }

  lemma AdvancedIsNext(g: GroupState, count: nat)
    requires GroupAt(g, count)
    ensures GroupAt(Advanced(g), count + 1)
  {
  }

  lemma MessageNumbered(g: GroupState, count: nat, samples: seq<Sample>)
    requires GroupAt(g, count) && |samples| == |g.writers|
    ensures NumberedAs(MessageOf(g, samples), count)
  {
  }

  lemma SafeAdd(t: Timers, g: GroupState)
    requires Inv(t) && Step(t, AddGroup(g)).Some?
    ensures Inv(Step(t, AddGroup(g)).value)
  {
    hide MessagesOf;
    var next := Step(t, AddGroup(g)).value;
    NothingPublished(t.log, |t.runtimes|);
    forall id | 0 <= id < |next.runtimes|
      ensures RuntimeOk(next, id)
    {
      if id < |t.runtimes| {
        assert RuntimeOk(t, id);
      }
    }
  }

  lemma SafeQuiet(t: Timers, a: Action)
    requires Inv(t) && Step(t, a).Some? && (a.Expire? || a.Remove? || a.StopAll? || a.Discard?)
    ensures Inv(Step(t, a).value)
  {
    hide MessagesOf, GroupAt, Numbered;
    var next := Step(t, a).value;
    forall id | 0 <= id < |next.runtimes|
      ensures RuntimeOk(next, id)
    {
      assert RuntimeOk(t, id);
    }
  }

  lemma SafeHandle(t: Timers, id: nat, wait: nat, samples: seq<Sample>)
    requires Inv(t) && Step(t, Handle(id, wait, samples)).Some?
    ensures Inv(Step(t, Handle(id, wait, samples)).value)
  {
    hide MessagesOf, GroupAt, NumberedAs, Advanced, MessageOf;
    var next, r := Step(t, Handle(id, wait, samples)).value, t.runtimes[id];
    assert RuntimeOk(t, id);
    forall other | 0 <= other < |next.runtimes|
      ensures RuntimeOk(next, other)
    {
      assert RuntimeOk(t, other);
      if !(r.waits[wait].aborted || r.stopped) {
        var group, count := Advanced(r.group), |MessagesOf(t.log, id)|;
        AdvancedIsNext(r.group, count);
        AdvancedKeepsWriters(r.group);
        MessageNumbered(group, count + 1, samples);
        PublishedOne(t.log, Published(id, MessageOf(group, samples)), other);
      }
    }
  }

  lemma AdvancedKeepsWriters(g: GroupState)
    ensures |Advanced(g).writers| == |g.writers|
  {
  }

  lemma SafeStep(t: Timers, a: Action)
    requires Inv(t) && Step(t, a).Some?
    ensures Inv(Step(t, a).value)
  {
    hide Inv, Step;
    match a
    case AddGroup(g) => SafeAdd(t, g);
    case Handle(id, wait, samples) => SafeHandle(t, id, wait, samples);
    case _ => SafeQuiet(t, a);
  }

  lemma {:induction false} RunKeepsSafe(t: Timers, actions: seq<Action>)
    requires Inv(t) && Run(t, actions).Some?
    ensures Inv(Run(t, actions).value)
  {
    hide Inv, Step;
    if actions == [] {
    } else {
      RunKeepsSafe(t, actions[..|actions| - 1]);
      SafeStep(Run(t, actions[..|actions| - 1]).value, actions[|actions| - 1]);
    }
  }

  // ---------------------------------------------------------------- what every run promises

  ghost predicate Reachable(t: Timers) {
    exists actions :: Run(Empty, actions) == Some(t)
  }

  lemma ReachableIsSafe(t: Timers)
    requires Reachable(t)
    ensures Inv(t)
  {
    hide Run;
    var actions :| Run(Empty, actions) == Some(t);
    RunKeepsSafe(Empty, actions);
  }

  /** A group that the engine refers to, while it runs. */
  predicate Live(t: Timers, id: nat) {
    !t.halted && id in t.container && id < |t.runtimes|
  }

  /** Between handlers, every group of a running engine has exactly one outstanding wait. */
  lemma LiveGroupWaitsOnce(t: Timers, id: nat)
    requires Reachable(t) && id in t.container && !t.halted
    ensures id < |t.runtimes| && |t.runtimes[id].waits| == 1 && t.runtimes[id].waits[0] != Queued(true)
  {
    hide Reachable, MessagesOf;
    ReachableIsSafe(t);
    assert RuntimeOk(t, id);
  }

  /** And it will publish again: its timer runs out, if it has not yet, and its completion is handled. */
  lemma LiveGroupPublishesNext(t: Timers, id: nat, samples: seq<Sample>)
    requires Reachable(t) && Live(t, id) && |samples| == |t.runtimes[id].group.writers|
    ensures |t.runtimes[id].waits| == 1
    ensures var actions := (if t.runtimes[id].waits[0].Running? then [Expire(id, 0)] else []) + [Handle(id, 0, samples)];
      Run(t, actions).Some? && |MessagesOf(Run(t, actions).value.log, id)| == |MessagesOf(t.log, id)| + 1
  {
    hide Reachable, MessagesOf, Advanced, MessageOf;
    LiveGroupWaitsOnce(t, id);
    ReachableIsSafe(t);
    assert RuntimeOk(t, id);
    AdvancedKeepsWriters(t.runtimes[id].group);
    var expired := if t.runtimes[id].waits[0].Running? then Step(t, Expire(id, 0)).value else t;
    PublishedOne(t.log, Published(id, MessageOf(Advanced(t.runtimes[id].group), samples)), id);
    if t.runtimes[id].waits[0].Running? {
      assert [Expire(id, 0)] + [Handle(id, 0, samples)] == [Expire(id, 0), Handle(id, 0, samples)];
      assert [Expire(id, 0), Handle(id, 0, samples)][..1] == [Expire(id, 0)];
      assert [Expire(id, 0)][..0] == [];
      assert Run(t, [Expire(id, 0)]) == Some(expired);
    } else {
      assert [] + [Handle(id, 0, samples)] == [Handle(id, 0, samples)];
      assert [Handle(id, 0, samples)][..0] == [];
    }
  }

  /** The k-th publication of a group carries k modulo 65536 as the group's and every writer's number. */
  lemma PublicationsAreNumbered(t: Timers, id: nat, k: nat)
    requires Reachable(t) && k < |MessagesOf(t.log, id)|
    ensures NumberedAs(MessagesOf(t.log, id)[k], k + 1)
  {
    hide Reachable, NumberedAs, MessagesOf;
    ReachableIsSafe(t);
    if id < |t.runtimes| {
      assert RuntimeOk(t, id);
    } else {
      NothingPublished(t.log, id);
    }
  }

  /** One step of a stopped group: it stays stopped, publishes nothing and waits for nothing new. */
  lemma StoppedStep(t: Timers, a: Action, id: nat)
    requires Step(t, a).Some? && id < |t.runtimes| && t.runtimes[id].stopped
    ensures var next := Step(t, a).value;
      && id < |next.runtimes| && next.runtimes[id].stopped && |next.runtimes[id].waits| <= |t.runtimes[id].waits|
      && MessagesOf(next.log, id) == MessagesOf(t.log, id)
  {
    hide MessagesOf, Advanced, MessageOf;
    if a.Handle? && a.runtime != id {
      PublishedOne(t.log, Published(a.runtime, MessageOf(Advanced(t.runtimes[a.runtime].group), a.samples)), id)
        by { AdvancedKeepsWriters(t.runtimes[a.runtime].group); }
    }
  }

  lemma {:induction false} StoppedStaysSilent(t: Timers, actions: seq<Action>, id: nat)
    requires Run(t, actions).Some? && id < |t.runtimes| && t.runtimes[id].stopped
    ensures var end := Run(t, actions).value;
      && id < |end.runtimes| && end.runtimes[id].stopped && |end.runtimes[id].waits| <= |t.runtimes[id].waits|
      && MessagesOf(end.log, id) == MessagesOf(t.log, id)
  {
    hide Step, MessagesOf;
    if actions == [] {
    } else {
      var front := actions[..|actions| - 1];
      StoppedStaysSilent(t, front, id);
      StoppedStep(Run(t, front).value, actions[|actions| - 1], id);
    }
  }

  /**
   No zombie publisher. Whatever happened before and whatever happens after a removal, also when the
   group's completion was already queued: the removed group never publishes or waits again.
   */
  lemma NoZombie(before: Timers, ids: set<nat>, after: seq<Action>, id: nat)
    requires Reachable(before) && id in ids && Step(before, Remove(ids)).Some?
    requires Run(Step(before, Remove(ids)).value, after).Some?
    ensures var end := Run(Step(before, Remove(ids)).value, after).value;
      && MessagesOf(end.log, id) == MessagesOf(before.log, id)
      && id < |end.runtimes| && id !in end.container
      && (end.runtimes[id].waits == [] || (|end.runtimes[id].waits| == 1 && end.runtimes[id].waits[0].Queued?))
  {
    hide Reachable, MessagesOf, Run, GroupAt, Numbered;
    ReachableIsSafe(before);
    var removed := Step(before, Remove(ids)).value;
    SafeStep(before, Remove(ids));
    StoppedStaysSilent(removed, after, id);
    RunKeepsSafe(removed, after);
    var end := Run(removed, after).value;
    assert RuntimeOk(end, id);
    RemovedStaysOut(removed, after, id);
  }

  lemma {:induction false} RemovedStaysOut(t: Timers, actions: seq<Action>, id: nat)
    requires id < |t.runtimes| && id !in t.container && Run(t, actions).Some?
    ensures id < |Run(t, actions).value.runtimes| && id !in Run(t, actions).value.container
  {
    hide MessagesOf, Advanced, MessageOf;
    if actions == [] {
    } else {
      RemovedStaysOut(t, actions[..|actions| - 1], id);
    }
  }

  /** The stop mark is what does it: a completion that was queued before the removal is still a success. */
  lemma QueuedCompletionSurvives(t: Timers, id: nat)
    requires Live(t, id) && t.runtimes[id].waits == [Queued(false)]
    ensures Step(t, Remove({id})).Some?
    ensures Step(t, Remove({id})).value.runtimes[id].waits == [Queued(false)]
  {
  }
}
