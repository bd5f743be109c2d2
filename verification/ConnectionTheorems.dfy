/**
 What the reachable worlds of the two engines promise: endpoints and containers agree, the first-data
 handshake, a lock that is always released, calls that are runs, refusals that leave nothing behind,
 and what goes wrong without tag-safe entity names.
 */
module ConnectionTheorems {
  import opened Bytes
  import opened Wrappers
  import opened PubSubModel
  import opened FxModel
  import opened ConnectionSteps
  import opened Correspondence
  import opened ConnectionSafety
  import opened FxEngine

  ghost predicate Reachable(c: Configuration, w: World) {
    exists start, actions :: Initially(start) && Run(c, start, actions) == Some(w)
  }

  lemma ReachableIsSafe(c: Configuration, w: World)
    requires TagSafe(c) && Reachable(c, w)
    ensures Inv(c, w)
  {
    hide Inv, Initially, Run, TagSafe;
    var start, actions :| Initially(start) && Run(c, start, actions) == Some(w);
    EveryRunIsSafe(c, start, actions);
  }

  // ---------------------------------------------------------------- endpoints and containers

  predicate OneGroup(groups: seq<WriterGroup>, tag: Text) {
    exists i :: 0 <= i < |groups| && groups[i].ownerTag == tag
      && forall j :: 0 <= j < |groups| && j != i ==> groups[j].ownerTag != tag
  }

  predicate OneReader(readers: map<ReaderKey, Reader>, tag: Text) {
    exists k :: k in readers && readers[k].ownerTag == tag
      && forall l :: l in readers && l != k ==> readers[l].ownerTag != tag
  }

  /** What the containers hold under the tag of an endpoint. */
  predicate Represented(ps: PubSub, e: Endpoint) {
    if !e.active then !HasGroupTag(ps.groups, e.ownerTag) && !HasReaderTag(ps.readers, e.ownerTag)
    else if e.role.Publisher? then OneGroup(ps.groups, e.ownerTag) && !HasReaderTag(ps.readers, e.ownerTag)
    else OneReader(ps.readers, e.ownerTag) && !HasGroupTag(ps.groups, e.ownerTag)
  }

  predicate OwnedByActive(s: Fx, role: Role, tag: Text) {
    exists n :: n in s.endpoints && s.endpoints[n].active && s.endpoints[n].role == role && s.endpoints[n].ownerTag == tag
  }

  lemma ActiveRepresented(ps: PubSub, links: Links, n: Text, e: Endpoint)
    requires Corresponds(ps, links) && n in links && links[n] == Link(e.role, e.ownerTag) && e.active
    ensures Represented(ps, e)
  {
    hide GroupsMatch, ReadersMatch, TagsDistinct;
    match e.role
    case Publisher =>
      OneGroupUnderTag(ps.groups, links, n);
      NoReaderUnderTag(ps.readers, links, n);
    case Subscriber =>
      OneReaderUnderTag(ps.readers, links, n);
      NoGroupUnderTag(ps.groups, links, n);
  }

  lemma OneGroupUnderTag(groups: seq<WriterGroup>, links: Links, n: Text)
    requires GroupsMatch(groups, links) && TagsDistinct(links) && n in links && links[n].role.Publisher?
    ensures OneGroup(groups, links[n].tag)
  {
    assert HasGroupTag(groups, links[n].tag);
    var g :| g in groups && g.ownerTag == links[n].tag;
    var i :| 0 <= i < |groups| && groups[i] == g;
    assert forall j :: 0 <= j < |groups| && j != i ==> groups[j].ownerTag != links[n].tag;
  }

  lemma NoGroupUnderTag(groups: seq<WriterGroup>, links: Links, n: Text)
    requires GroupsMatch(groups, links) && TagsDistinct(links) && n in links && links[n].role.Subscriber?
    ensures !HasGroupTag(groups, links[n].tag)
  {
  }

  lemma OneReaderUnderTag(readers: map<ReaderKey, Reader>, links: Links, n: Text)
    requires ReadersMatch(readers, links) && TagsDistinct(links) && n in links && links[n].role.Subscriber?
    ensures OneReader(readers, links[n].tag)
  {
    assert HasReaderTag(readers, links[n].tag);
    var k :| k in readers && readers[k].ownerTag == links[n].tag;
    assert forall l :: l in readers && l != k ==> readers[l].ownerTag != links[n].tag;
  }

  lemma NoReaderUnderTag(readers: map<ReaderKey, Reader>, links: Links, n: Text)
    requires ReadersMatch(readers, links) && TagsDistinct(links) && n in links && links[n].role.Publisher?
    ensures !HasReaderTag(readers, links[n].tag)
  {
  }

  lemma ClosedRepresented(c: Configuration, w: World, n: Text)
    requires TagSafe(c) && EndpointsTagged(c, w.fx) && w.caller.Idle? && Corresponds(w.ps, LinksOf(w))
    requires n in w.fx.endpoints && !w.fx.endpoints[n].active
    ensures Represented(w.ps, w.fx.endpoints[n])
  {
    hide TagSafe, Tagged, Corresponds;
    var e := w.fx.endpoints[n];
    assert Tagged(c, n, e.entity, e.ownerTag);
    TaggedNotEmpty(c, n, e.entity, e.ownerTag);
    forall m | m in LinksOf(w)
      ensures LinksOf(w)[m].tag != e.ownerTag
    {
      assert Tagged(c, m, w.fx.endpoints[m].entity, w.fx.endpoints[m].ownerTag);
      if w.fx.endpoints[m].ownerTag == e.ownerTag {
        TaggedInjective(c, n, e.entity, m, w.fx.endpoints[m].entity, e.ownerTag);
      }
    }
    FreshTagIsUnused(w.ps, LinksOf(w), e.ownerTag);
  }

  lemma TaggedNotEmpty(c: Configuration, n: Text, entity: Text, tag: Text)
    requires Tagged(c, n, entity, tag)
    ensures tag != []
  {
  }

  /**
   Two-engine correspondence. Whenever no call is in progress, an active publisher has exactly one
   writer group under its tag, an active subscriber exactly one reader, a closed endpoint neither;
   every dynamic group and reader belongs to an active endpoint; an entity has at most one active
   endpoint for a role and a dataset, and at most 64 endpoints; and no poisoned name is an endpoint.
   */
  lemma EndpointsMatchContainers(c: Configuration, w: World)
    requires TagSafe(c) && Reachable(c, w) && w.caller.Idle?
    ensures forall n :: n in w.fx.endpoints ==> Represented(w.ps, w.fx.endpoints[n])
    ensures forall g :: g in w.ps.groups && g.ownerTag != [] ==> OwnedByActive(w.fx, Publisher, g.ownerTag)
    ensures forall k :: k in w.ps.readers && w.ps.readers[k].ownerTag != [] ==>
      OwnedByActive(w.fx, Subscriber, w.ps.readers[k].ownerTag)
    ensures OneActivePerDataset(w.fx)
    ensures forall entity :: |EndpointsOf(w.fx.endpoints, entity)| <= MAX_ENDPOINTS_PER_ENTITY
    ensures w.fx.poisoned !! w.fx.endpoints.Keys
  {
    hide TagSafe, Reachable, Tagged, Represented;
    ReachableIsSafe(c, w);
    var links := LinksOf(w);
    forall n | n in w.fx.endpoints
      ensures Represented(w.ps, w.fx.endpoints[n])
    {
      if w.fx.endpoints[n].active {
        ActiveRepresented(w.ps, links, n, w.fx.endpoints[n]);
      } else {
        ClosedRepresented(c, w, n);
      }
    }
    forall g | g in w.ps.groups && g.ownerTag != []
      ensures OwnedByActive(w.fx, Publisher, g.ownerTag)
    {
      var n :| n in links && links[n] == Link(Publisher, g.ownerTag);
      assert w.fx.endpoints[n].active;
    }
    forall k | k in w.ps.readers && w.ps.readers[k].ownerTag != []
      ensures OwnedByActive(w.fx, Subscriber, w.ps.readers[k].ownerTag)
    {
      assert ReaderLinked(w.ps.readers[k], links);
      assert w.fx.endpoints[w.ps.readers[k].connection.value].active;
    }
  }

  /**
   Receiver reference counting, at every moment: the receivers are exactly the places where readers
   listen, each counted once per reader; and no dynamic group has the key of a group before it.
   */
  lemma ReceiversMatchReaders(c: Configuration, w: World, at: ReceiverKey)
    requires TagSafe(c) && Reachable(c, w)
    ensures at in w.ps.receivers <==> exists k :: k in w.ps.readers && w.ps.readers[k].at == at
    ensures at in w.ps.receivers ==> w.ps.receivers[at] == |ReadersAt(w.ps.readers, at)|
    ensures KeysUnique(w.ps.groups)
  {
    hide TagSafe, Reachable, Usage;
    ReachableIsSafe(c, w);
    UsageAt(w.ps.readers, at);
    assert forall k :: k in ReadersAt(w.ps.readers, at) <==> k in w.ps.readers && w.ps.readers[k].at == at;
  }

  // ---------------------------------------------------------------- the first-data handshake

  /**
   At every moment, whatever the interleaving: the reader of an endpoint that shows Operational has
   applied data, a reader whose first data is signalled has an endpoint that shows Operational, and
   a dynamic reader's connection is a live one.
   */
  lemma FirstDataHandshake(c: Configuration, w: World, k: ReaderKey)
    requires TagSafe(c) && Reachable(c, w) && k in w.ps.readers && w.ps.readers[k].ownerTag != []
    ensures var r := w.ps.readers[k];
      && r.connection.Some? && ReaderLinked(r, LinksOf(w))
      && (ShowsOperational(w.fx, r.connection.value) ==> r.dataSeen)
      && (r.firstDataSignalled ==> ShowsOperational(w.fx, r.connection.value))
  {
    hide TagSafe, Reachable, Consistent, EndpointsOk, CallerOk;
    ReachableIsSafe(c, w);
    assert ReaderLinked(w.ps.readers[k], LinksOf(w));
    assert HandshakeOf(w.fx, w.ps.readers[k]);
  }

  /** Under the tag is a reader of the connection `n` that has applied data. */
  predicate SeenReader(ps: PubSub, n: Text, tag: Text) {
    exists k :: k in ps.readers && var r := ps.readers[k]; r.ownerTag == tag && r.connection == Some(n) && r.dataSeen
  }

  /**
   At every moment a subscriber that shows Operational has a reader that has applied data, unless it is
   just being closed and its reader has gone already.
   */
  lemma OperationalHasData(c: Configuration, w: World, n: Text)
    requires TagSafe(c) && Reachable(c, w) && Gone(w.caller) != Some(n)
    requires ShowsOperational(w.fx, n) && w.fx.endpoints[n].role.Subscriber?
    ensures SeenReader(w.ps, n, w.fx.endpoints[n].ownerTag)
  {
    hide TagSafe, Reachable, Consistent, EndpointsOk;
    ReachableIsSafe(c, w);
    var links := LinksOf(w);
    PendingIsNotActive(c, w);
    assert n in links && links[n] == Link(Subscriber, w.fx.endpoints[n].ownerTag);
    assert HasReaderTag(w.ps.readers, links[n].tag);
    var k :| k in w.ps.readers && w.ps.readers[k].ownerTag == links[n].tag;
    assert ReaderLinked(w.ps.readers[k], links);
    assert HandshakeOf(w.fx, w.ps.readers[k]);
  }

  /** What is being established is no active endpoint yet. */
  lemma PendingIsNotActive(c: Configuration, w: World)
    requires CallerOk(c, w)
    ensures w.caller.Building? || w.caller.Undoing? ==>
      w.caller.plan.name in w.fx.endpoints ==> !w.fx.endpoints[w.caller.plan.name].active
  {
  }

  /** Once no call is in progress, one message is enough to signal first data. */
  lemma NextMessageSignals(c: Configuration, w: World, key: ReaderKey)
    requires TagSafe(c) && Reachable(c, w) && w.caller.Idle? && w.io.Resting?
    requires key in w.ps.readers && w.ps.readers[key].ownerTag != []
    ensures w.ps.readers[key].connection.Some?
    ensures var next := if w.ps.readers[key].firstDataSignalled then [Deliver(key)] else [Deliver(key), Signal];
      Run(c, w, next).Some? && Run(c, w, next).value.io.Resting?
      && ShowsOperational(Run(c, w, next).value.fx, w.ps.readers[key].connection.value)
  {
    hide TagSafe, Reachable, Consistent, EndpointsOk, CallerOk, Step;
    ReachableIsSafe(c, w);
    assert ReaderLinked(w.ps.readers[key], LinksOf(w));
    assert HandshakeOf(w.fx, w.ps.readers[key]);
    RunOne(c, w, Deliver(key));
    var there := Delivered(w, key);
    assert Step(c, w, Deliver(key)) == Some(there) by {
      StepDeliver(c, w, key);
    }
    if !w.ps.readers[key].firstDataSignalled {
      RunThen(c, w, [Deliver(key)], Signal);
      assert [Deliver(key)] + [Signal] == [Deliver(key), Signal];
      StepSignal(c, there);
      SignalFindsItsEndpoint(w, key);
    }
  }

  lemma StepDeliver(c: Configuration, w: World, key: ReaderKey)
    requires w.io.Resting? && key in w.ps.readers
    ensures Step(c, w, Deliver(key)) == Some(Delivered(w, key))
  {
  }

  lemma StepSignal(c: Configuration, w: World)
    requires w.io.Signalling? && w.io.key in w.ps.readers && w.ps.readers[w.io.key].connection.Some?
    ensures Step(c, w, Signal) == Some(Signalled(w))
  {
  }

  lemma RunOne(c: Configuration, w: World, a: Action)
    ensures Run(c, w, [a]) == Step(c, w, a)
  {
    hide Step;
    assert [a][..0] == [];
    assert Run(c, w, []) == Some(w);
  }

  lemma RunThen(c: Configuration, w: World, actions: seq<Action>, a: Action)
    requires Run(c, w, actions).Some?
    ensures Run(c, w, actions + [a]) == Step(c, Run(c, w, actions).value, a)
  {
    hide Step;
    assert (actions + [a])[..|actions|] == actions;
  }

  lemma {:induction false} RunAppend(c: Configuration, w: World, a: seq<Action>, b: seq<Action>)
    requires Run(c, w, a).Some?
    ensures Run(c, w, a + b) == Run(c, Run(c, w, a).value, b)
  {
    hide Step;
    if b == [] {
      assert a + b == a;
    } else {
      var front := b[..|b| - 1];
      RunAppend(c, w, a, front);
      assert (a + b)[..|a + b| - 1] == a + front;
      assert (a + b)[|a + b| - 1] == b[|b| - 1];
    }
  }

  // ---------------------------------------------------------------- the lock is always released

  /** The calling thread has posted a task and waits for the io thread. */
  predicate WaitsForIo(caller: Caller) {
    caller.Adding? || caller.Undoing? || caller.Reconciling? || caller.Removing?
  }

  /** How many steps the holder of the FX lock still has to make, at most. */
  function Remaining(caller: Caller): nat {
    match caller
    case Idle => 0
    case Finishing(_, _) => 1
    case Undoing(_) => 1
    case Reconciling(_) => 2
    case Building(_) => 3
    case Adding(_) => 4
    case Removed(_, after) => 1 + RemainingAfter(after)
    case Removing(_, after) => 2 + RemainingAfter(after)
    case Stopping(todo) => 1 + 3 * |todo|
  }

  function RemainingAfter(after: After): nat {
    match after
    case ForClose => 0
    case ForShutdown(todo) => 1 + 3 * |todo|
  }

  function Work(w: World): nat {
    2 * Remaining(w.caller) + if w.io.Signalling? then 1 else 0
  }

  /**
   The holder of the lock and the io thread never wait for each other: some step is possible that
   brings the call closer to its end, whatever fails.
   */
  lemma CallerCanMove(c: Configuration, w: World, ok: bool) returns (a: Action)
    requires Inv(c, w) && !w.caller.Idle?
    ensures !a.Deliver? && Step(c, w, a).Some? && Work(Step(c, w, a).value) < Work(w)
  {
    hide Consistent, EndpointsOk, Corresponds, Handshake, Step, Work;
    if w.io.Signalling? {
      a := Signal;
      SignalMoves(c, w);
    } else {
      if w.caller.Stopping? {
        a := StopMoves(c, w);
      } else if w.caller.Removing? || w.caller.Removed? {
        a := CloseMoves(c, w);
      } else {
        a := EstablishMoves(c, w, ok);
      }
    }
  }

  lemma SignalMoves(c: Configuration, w: World)
    requires IoOk(w) && w.io.Signalling?
    ensures Step(c, w, Signal).Some? && Work(Step(c, w, Signal).value) < Work(w)
  {
    hide WithStatus;
  }

  lemma EstablishMoves(c: Configuration, w: World, ok: bool) returns (a: Action)
    requires CallerOk(c, w) && w.io.Resting?
    requires w.caller.Adding? || w.caller.Building? || w.caller.Undoing? || w.caller.Reconciling? || w.caller.Finishing?
    ensures !a.Deliver? && Step(c, w, a).Some? && Work(Step(c, w, a).value) < Work(w)
  {
    hide PlanPending, Activate, DataSeen, Remove, SeenUnder, Stored, WithStatus, Poisoned, ActiveNames, RemainingAfter;
    match w.caller
    case Adding(_) => a := Add(ok);
    case Building(_) => a := Build(ok);
    case Undoing(_) => a := Undo;
    case Reconciling(_) => a := Reconcile;
    case Finishing(_, _) => a := Finish;
  }

  lemma CloseMoves(c: Configuration, w: World) returns (a: Action)
    requires CallerOk(c, w) && w.io.Resting? && (w.caller.Removing? || w.caller.Removed?)
    ensures !a.Deliver? && Step(c, w, a).Some? && Work(Step(c, w, a).value) < Work(w)
  {
    hide Remove, Closed, ActiveNames;
    match w.caller
    case Removing(n, _) =>
      a := RemoveNow;
      ActiveIsThere(w.fx, n);
    case Removed(n, _) =>
      a := MarkClosed;
      ActiveIsThere(w.fx, n);
  }

  lemma StopMoves(c: Configuration, w: World) returns (a: Action)
    requires w.caller.Stopping? && w.io.Resting?
    ensures !a.Deliver? && Step(c, w, a).Some? && Work(Step(c, w, a).value) < Work(w)
  {
    hide ActiveNames;
    var todo := w.caller.todo;
    if todo == {} {
      a := StopEnd;
    } else {
      var n :| n in todo;
      a := StopNext(n);
      assert |todo - {n}| == |todo| - 1;
    }
  }

  lemma ActiveIsThere(s: Fx, n: Text)
    requires n in ActiveNames(s)
    ensures n in s.endpoints
  {
  }

  /** Whatever step is taken, and whatever fails: only a datagram can put the end of the call off, and by one step. */
  lemma EveryStepCounts(c: Configuration, w: World, a: Action)
    requires Inv(c, w) && !w.caller.Idle? && Step(c, w, a).Some?
    ensures Work(Step(c, w, a).value) <= if a.Deliver? then Work(w) + 1 else Work(w) - 1
  {
    hide Consistent, EndpointsOk, Corresponds, Handshake, Step, Work;
    match a
    case Deliver(key) => DeliverCounts(c, w, key);
    case Signal => SignalCounts(c, w);
    case StopNext(_) => StopCounts(c, w, a);
    case RemoveNow => CloseCounts(c, w, a);
    case MarkClosed => CloseCounts(c, w, a);
    case StopEnd => StopCounts(c, w, a);
    case _ => EstablishCounts(c, w, a);
  }

  lemma SignalCounts(c: Configuration, w: World)
    requires Step(c, w, Signal).Some?
    ensures Work(Step(c, w, Signal).value) < Work(w)
  {
    hide WithStatus, SetReader;
  }

  lemma DeliverCounts(c: Configuration, w: World, key: ReaderKey)
    requires Step(c, w, Deliver(key)).Some?
    ensures Work(Step(c, w, Deliver(key)).value) <= Work(w) + 1
  {
    hide SetReader;
  }

  lemma EstablishCounts(c: Configuration, w: World, a: Action)
    requires !w.caller.Idle? && Step(c, w, a).Some?
    requires !a.Deliver? && !a.Signal? && !a.StopNext? && !a.StopEnd? && !a.RemoveNow? && !a.MarkClosed?
    ensures Work(Step(c, w, a).value) < Work(w)
  {
    hide Planned, Activate, DataSeen, Remove, Stored, WithStatus, Poisoned, ActiveNames, RemainingAfter, Stopped;
  }

  lemma CloseCounts(c: Configuration, w: World, a: Action)
    requires Step(c, w, a).Some? && (a.RemoveNow? || a.MarkClosed?)
    ensures Work(Step(c, w, a).value) < Work(w)
  {
    hide Remove, Closed;
  }

  lemma StopCounts(c: Configuration, w: World, a: Action)
    requires Step(c, w, a).Some? && (a.StopNext? || a.StopEnd?)
    ensures Work(Step(c, w, a).value) < Work(w)
  {
    if a.StopNext? {
      assert |w.caller.todo - {a.name}| == |w.caller.todo| - 1;
    }
  }

  /** The datagrams that arrive during a run. */
  function Deliveries(actions: seq<Action>): nat {
    if actions == [] then 0
    else Deliveries(actions[..|actions| - 1]) + if actions[|actions| - 1].Deliver? then 1 else 0
  }

  /** The lock is held all along. */
  predicate HeldThroughout(c: Configuration, w: World, actions: seq<Action>) {
    forall k :: 0 <= k <= |actions| ==> Run(c, w, actions[..k]).Some? && !Run(c, w, actions[..k]).value.caller.Idle?
  }

  lemma {:induction false} HeldRunsAreShort(c: Configuration, w: World, actions: seq<Action>)
    requires TagSafe(c) && Inv(c, w) && HeldThroughout(c, w, actions)
    ensures Run(c, w, actions).Some? && Inv(c, Run(c, w, actions).value)
    ensures |actions| + Work(Run(c, w, actions).value) <= Work(w) + 2 * Deliveries(actions)
  {
    hide TagSafe, Inv, Step, Work;
    assert actions[..|actions|] == actions;
    if actions == [] {
    } else {
      var front, last := actions[..|actions| - 1], actions[|actions| - 1];
      forall k | 0 <= k <= |front|
        ensures Run(c, w, front[..k]).Some? && !Run(c, w, front[..k]).value.caller.Idle?
      {
        assert front[..k] == actions[..k];
      }
      HeldRunsAreShort(c, w, front);
      var v := Run(c, w, front).value;
      assert front[..|front|] == front && !v.caller.Idle?;
      EveryStepCounts(c, v, last);
      SafeStep(c, v, last);
    }
  }

  /**
   The lock is released. Every run from a safe world in which some call holds it, whatever is scheduled and
   whatever fails, comes to a world in which it is free within `Work(w)` steps and two more for every
   datagram that arrives on the way.
   */
  lemma LockIsReleased(c: Configuration, w: World, actions: seq<Action>)
    requires TagSafe(c) && Inv(c, w) && Run(c, w, actions).Some?
    requires |actions| >= Work(w) + 2 * Deliveries(actions)
    ensures exists k :: 0 <= k <= |actions| && Run(c, w, actions[..k]).Some? && Run(c, w, actions[..k]).value.caller.Idle?
  {
    hide TagSafe, Inv, Work, Run;
    if HeldThroughout(c, w, actions) {
      HeldRunsAreShort(c, w, actions);
      assert actions[..|actions|] == actions;
      BusyMeansWork(Run(c, w, actions).value);
    } else {
      forall k | 0 <= k <= |actions|
        ensures Run(c, w, actions[..k]).Some?
      {
        RunFront(c, w, actions, k);
      }
    }
  }

  lemma BusyMeansWork(w: World)
    ensures !w.caller.Idle? ==> Work(w) > 0
  {
  }

  lemma {:induction false} RunFront(c: Configuration, w: World, actions: seq<Action>, k: nat)
    requires k <= |actions| && Run(c, w, actions).Some?
    ensures Run(c, w, actions[..k]).Some?
  {
    hide Step;
    if k < |actions| {
      RunFront(c, w, actions[..|actions| - 1], k);
      assert actions[..|actions| - 1][..k] == actions[..k];
    } else {
      assert actions[..k] == actions;
    }
  }

  /**
   The callback must only try the lock. While a reader's first data is being signalled and a call
   waits for the io thread, the signal is the only thing that can happen: a callback that waited for
   the lock would stop everything.
   */
  lemma OnlyTheSignalCanHappen(c: Configuration, w: World, a: Action)
    requires w.io.Signalling? && WaitsForIo(w.caller) && Step(c, w, a).Some?
    ensures a.Signal?
  {
  }

  /** And every subscriber connection can come to that point: data may arrive before establish returns. */
  lemma EstablishMayMeetASignal(c: Configuration, w: World, r: Request, auto: Option<Text>)
    requires w.caller.Idle? && w.io.Resting? && AutoChoice(w.fx, r.entity, auto)
    requires Planned(c, w.fx, r, auto).Some? && Planned(c, w.fx, r, auto).value.SubscriberPlan?
    requires Activate(w.ps, Planned(c, w.fx, r, auto).value, true).Some?
    ensures var actions := [Begin(r, auto), Add(true), Build(true), Deliver(Planned(c, w.fx, r, auto).value.key)];
      Run(c, w, actions).Some? && Run(c, w, actions).value.io.Signalling? && WaitsForIo(Run(c, w, actions).value.caller)
  {
    hide Planned, AutoChoice, Acquire, Stored;
    var p := Planned(c, w.fx, r, auto).value;
    RunOne(c, w, Begin(r, auto));
    RunThen(c, w, [Begin(r, auto)], Add(true));
    var two := [Begin(r, auto)] + [Add(true)];
    RunThen(c, w, two, Build(true));
    RunThen(c, w, two + [Build(true)], Deliver(p.key));
    assert two + [Build(true)] + [Deliver(p.key)] == [Begin(r, auto), Add(true), Build(true), Deliver(p.key)];
  }

  // ---------------------------------------------------------------- calls are runs

  /** An establish call that nothing interleaves with is a run of the two engines. */
  lemma EstablishedIsARun(c: Configuration, w: World, r: Request, auto: Option<Text>, env: Outcome)
    returns (actions: seq<Action>)
    requires w.caller.Idle? && w.io.Resting? && AutoChoice(w.fx, r.entity, auto)
    ensures var (fx, ps, id) := Established(c, w.fx, w.ps, r, auto, env);
      Run(c, w, actions) == Some(w.(fx := fx, ps := ps))
  {
    hide Planned, AutoChoice, Activate, Stored, Poisoned, Remove, DataSeen, WithStatus, Run;
    actions := [Begin(r, auto)];
    RunOne(c, w, Begin(r, auto));
    if Planned(c, w.fx, r, auto).Some? {
      var p := Planned(c, w.fx, r, auto).value;
      RunThen(c, w, actions, Add(env.socketOk));
      actions := actions + [Add(env.socketOk)];
      if Activate(w.ps, p, env.socketOk).Some? {
        RunThen(c, w, actions, Build(env.nodesOk));
        actions := actions + [Build(env.nodesOk)];
        StoredHasName(w.fx, p);
        if p.name !in w.fx.endpoints && !env.nodesOk {
          RunThen(c, w, actions, Undo);
          actions := actions + [Undo];
        } else {
          if p.SubscriberPlan? {
            RunThen(c, w, actions, Reconcile);
            actions := actions + [Reconcile];
          }
          RunThen(c, w, actions, Finish);
          actions := actions + [Finish];
        }
      }
    }
  }

  lemma StoredHasName(s: Fx, p: Plan)
    ensures p.name in Stored(s, p).endpoints
  {
  }

  /** So is a close call. */
  lemma ClosedIsARun(c: Configuration, w: World, name: Text)
    requires w.caller.Idle? && w.io.Resting? && w.fx.started
    requires name in w.fx.endpoints && w.fx.endpoints[name].active
    ensures Run(c, w, [BeginClose(name), RemoveNow, MarkClosed])
      == Some(w.(fx := Closed(w.fx, name), ps := Remove(w.ps, w.fx.endpoints[name].ownerTag)))
  {
    hide Remove, Closed, Run;
    RunOne(c, w, BeginClose(name));
    RunThen(c, w, [BeginClose(name)], RemoveNow);
    RunThen(c, w, [BeginClose(name)] + [RemoveNow], MarkClosed);
    assert [BeginClose(name)] + [RemoveNow] + [MarkClosed] == [BeginClose(name), RemoveNow, MarkClosed];
  }

  /**
   A refused establish is a no-op in every reachable world: the endpoint table and the Pub/Sub
   groups, readers and receivers are as before, and at most one name, no endpoint's, is poisoned.
   */
  lemma RefusalLeavesNothing(c: Configuration, w: World, r: Request, auto: Option<Text>, env: Outcome)
    requires TagSafe(c) && Reachable(c, w) && w.caller.Idle? && AutoChoice(w.fx, r.entity, auto)
    ensures var (fx, ps, id) := Established(c, w.fx, w.ps, r, auto, env);
      id.None? ==>
        && ps == w.ps && fx.started == w.fx.started && fx.endpoints == w.fx.endpoints
        && (fx.poisoned == w.fx.poisoned
            || exists n :: n !in w.fx.endpoints && fx.poisoned == w.fx.poisoned + {n})
  {
    hide TagSafe, Reachable, AutoChoice, Planned, PlanPending, Consistent, Established, EndpointsTagged, Corresponds, FreshTag;
    ReachableIsSafe(c, w);
    PlannedIsPending(c, w.fx, r, auto);
    if Planned(c, w.fx, r, auto).Some? {
      var p := Planned(c, w.fx, r, auto).value;
      PendingTagIsFresh(c, w.fx, p);
      FreshTagIsUnused(w.ps, LinksOf(w), p.endpoint.ownerTag);
    }
    RefusedEstablishIsNoOp(c, w.fx, w.ps, r, auto, env);
  }

  /** Establishing and closing again gives the Pub/Sub engine back as it was, to the last receiver. */
  lemma CloseUndoesEstablish(c: Configuration, w: World, r: Request, auto: Option<Text>, env: Outcome)
    requires TagSafe(c) && Reachable(c, w) && w.caller.Idle? && AutoChoice(w.fx, r.entity, auto)
    ensures var (fx, ps, id) := Established(c, w.fx, w.ps, r, auto, env);
      id.Some? ==>
        && id.value in fx.endpoints && fx.endpoints[id.value].active
        && Remove(ps, fx.endpoints[id.value].ownerTag) == w.ps
  {
    hide TagSafe, Reachable, AutoChoice, Consistent, EndpointsTagged, Corresponds, FreshTag, Remove, Usage,
      Tagged, NameUsable, Busy, DataSeen, Planned;
    ReachableIsSafe(c, w);
    PlannedIsPending(c, w.fx, r, auto);
    if Planned(c, w.fx, r, auto).Some? {
      var p := Planned(c, w.fx, r, auto).value;
      PendingTagIsFresh(c, w.fx, p);
      FreshTagIsUnused(w.ps, LinksOf(w), p.endpoint.ownerTag);
      if Activate(w.ps, p, env.socketOk).Some? {
        match p
        case PublisherPlan(_, _, group, count) => AddGroupUndone(w.ps, group, count, env.socketOk);
        case SubscriberPlan(_, _, key, _, count) => AddReaderUndone(w.ps, key, PlanReader(p), count, env.socketOk);
      }
    }
  }

  // ---------------------------------------------------------------- shutdown

  /** A shutdown that nothing interleaves with is a run, whichever order it closes the connections in. */
  lemma ShutdownIsARun(c: Configuration, w: World) returns (actions: seq<Action>)
    requires w.caller.Idle? && w.io.Resting? && w.fx.started && w.ps.running
    ensures Run(c, w, actions) == Some(w.(
      fx := AllClosed(w.fx, ActiveNames(w.fx)).(started := false), ps := RemoveAll(w.ps, TagsOf(w.fx, ActiveNames(w.fx)))))
  {
    hide Run, AllClosed, RemoveAll, TagsOf;
    var todo := ActiveNames(w.fx);
    var begun := w.(caller := Stopping(todo));
    RunOne(c, w, BeginShutdown);
    var rest := StoppingRun(c, begun);
    RunAppend(c, w, [BeginShutdown], rest);
    var end := Run(c, begun, rest).value;
    RunThen(c, w, [BeginShutdown] + rest, StopEnd);
    actions := [BeginShutdown] + rest + [StopEnd];
  }

  lemma {:induction false} StoppingRun(c: Configuration, w: World) returns (actions: seq<Action>)
    requires w.caller.Stopping? && w.caller.todo <= ActiveNames(w.fx) && w.io.Resting? && w.ps.running
    ensures Run(c, w, actions) == Some(w.(
      fx := AllClosed(w.fx, w.caller.todo), ps := RemoveAll(w.ps, TagsOf(w.fx, w.caller.todo)), caller := Stopping({})))
    decreases w.caller.todo
  {
    hide Run, AllClosed, RemoveAll, TagsOf;
    var todo := w.caller.todo;
    if todo == {} {
      actions := [];
      NothingToStop(c, w);
    } else {
      var n :| n in todo;
      var tag := w.fx.endpoints[n].ownerTag;
      var next := w.(fx := Closed(w.fx, n), ps := Remove(w.ps, tag), caller := Stopping(todo - {n}));
      OneStopped(c, w, n);
      ClosedKeepsActive(w.fx, n, todo - {n});
      RemoveKeepsRunning(w.ps, tag);
      var rest := StoppingRun(c, next);
      actions := [StopNext(n), RemoveNow, MarkClosed] + rest;
      RunAppend(c, w, [StopNext(n), RemoveNow, MarkClosed], rest);
      AllClosedStep(w.fx, n, todo);
      RemoveAllStep(w.ps, tag, TagsOf(Closed(w.fx, n), todo - {n}));
      TagsOfStep(w.fx, n, todo);
    }
  }

  lemma NothingToStop(c: Configuration, w: World)
    requires w.caller == Stopping({}) && w.ps.running
    ensures Run(c, w, []) == Some(w) && AllClosed(w.fx, {}) == w.fx && RemoveAll(w.ps, TagsOf(w.fx, {})) == w.ps
  {
  }

  lemma OneStopped(c: Configuration, w: World, n: Text)
    requires w.caller.Stopping? && n in w.caller.todo && w.caller.todo <= ActiveNames(w.fx) && w.io.Resting?
    ensures Run(c, w, [StopNext(n), RemoveNow, MarkClosed]) == Some(w.(
      fx := Closed(w.fx, n), ps := Remove(w.ps, w.fx.endpoints[n].ownerTag), caller := Stopping(w.caller.todo - {n})))
  {
    hide Remove, Closed, Run;
    RunOne(c, w, StopNext(n));
    RunThen(c, w, [StopNext(n)], RemoveNow);
    RunThen(c, w, [StopNext(n)] + [RemoveNow], MarkClosed);
    assert [StopNext(n)] + [RemoveNow] + [MarkClosed] == [StopNext(n), RemoveNow, MarkClosed];
  }

  lemma ClosedKeepsActive(s: Fx, n: Text, todo: set<Text>)
    requires n in s.endpoints && todo <= ActiveNames(s) && n !in todo
    ensures todo <= ActiveNames(Closed(s, n))
  {
  }

  // ---------------------------------------------------------------- whole calls keep the invariant

  /** What the methods of the FX engine ask of its table holds whenever the invariant does. */
  lemma SafeMeansCallable(c: Configuration, w: World)
    requires Inv(c, w)
    ensures w.fx.poisoned !! w.fx.endpoints.Keys && forall n :: n in w.fx.endpoints ==> ValidName(n)
    ensures Consistent(w.ps)
  {
    hide Corresponds, Handshake, ValidName, OwnerTag, Consistent;
    forall n | n in w.fx.endpoints
      ensures ValidName(n)
    {
      assert Tagged(c, n, w.fx.endpoints[n].entity, w.fx.endpoints[n].ownerTag);
    }
  }

  /** Whole establish, close and shutdown calls lead from a safe idle world to a safe idle world. */
  lemma CallsKeepSafe(c: Configuration, w: World, r: Request, auto: Option<Text>, env: Outcome, name: Text)
    requires TagSafe(c) && Inv(c, w) && w.caller.Idle? && w.io.Resting? && w.fx.started
    requires AutoChoice(w.fx, r.entity, auto)
    ensures Inv(c, w.(fx := Established(c, w.fx, w.ps, r, auto, env).0, ps := Established(c, w.fx, w.ps, r, auto, env).1))
    ensures name in w.fx.endpoints && w.fx.endpoints[name].active ==>
      Inv(c, w.(fx := Closed(w.fx, name), ps := Remove(w.ps, w.fx.endpoints[name].ownerTag)))
    ensures Inv(c, w.(
      fx := AllClosed(w.fx, ActiveNames(w.fx)).(started := false), ps := RemoveAll(w.ps, TagsOf(w.fx, ActiveNames(w.fx)))))
  {
    hide TagSafe, Run, Established, AutoChoice, Closed, Remove, AllClosed, RemoveAll, TagsOf, ActiveNames;
    assert w.ps.running by {
      assert LifeOk(w);
    }
    hide Inv;
    var actions := EstablishedIsARun(c, w, r, auto, env);
    RunKeepsSafe(c, w, actions);
    actions := ShutdownIsARun(c, w);
    RunKeepsSafe(c, w, actions);
    if name in w.fx.endpoints && w.fx.endpoints[name].active {
      ClosedIsARun(c, w, name);
      RunKeepsSafe(c, w, [BeginClose(name), RemoveNow, MarkClosed]);
    }
  }

  // ---------------------------------------------------------------- why entity names matter

  /** One way in which an entity can be connected: an output dataset, or an input dataset and a peer. */
  datatype Side = Publishing(dataset: Text) | Subscribing(dataset: Text, peer: ReaderKey) {
    function Role(): FxModel.Role {
      if Publishing? then Publisher else Subscriber
    }
  }

  /** The entity has the dataset, with fields. */
  predicate Offers(e: Entity, side: Side) {
    match side
    case Publishing(d) => FindDataset(e.outputs, d).Some? && FindDataset(e.outputs, d).value.fieldCount > 0
    case Subscribing(d, _) => FindDataset(e.inputs, d).Some? && FindDataset(e.inputs, d).value.fieldCount > 0
  }

  function GroupKeyOf(c: Configuration, e: Entity, side: Side): GroupKey
    requires side.Publishing? && Offers(e, side)
  {
    GroupKey(FindDataset(e.outputs, side.dataset).value.writerGroupId, c.publisherIdType, c.publisherId)
  }

  /** The wire coordinates are not in use. */
  predicate Free(c: Configuration, ps: PubSub, e: Entity, side: Side)
    requires Offers(e, side)
  {
    if side.Publishing? then !HasGroup(ps.groups, GroupKeyOf(c, e, side)) else side.peer !in ps.readers
  }

  /** Two sides have wire coordinates of their own. */
  predicate Apart(c: Configuration, e: Entity, first: Side, f: Entity, second: Side)
    requires Offers(e, first) && Offers(f, second)
  {
    && (first.Publishing? && second.Publishing? ==> GroupKeyOf(c, e, first) != GroupKeyOf(c, f, second))
    && (first.Subscribing? && second.Subscribing? ==> first.peer != second.peer)
  }

  function RequestOf(entity: Text, side: Side, name: Text): Request {
    Request(entity, Some(side.Role()), side.dataset, Some(ReceiverKey([], 4840)), Given(name), Absent, Absent,
            if side.Publishing? then Absent else Given(side.peer))
  }

  function TagFor(c: Configuration, e: Entity, name: Text): Text {
    OwnerTag(c.component, e.name, name)
  }

  /** The endpoint that a successful call leaves, and its name. */
  predicate Connected(c: Configuration, before: Fx, fx: Fx, e: Entity, side: Side, name: Text) {
    && name in fx.endpoints && fx.endpoints == before.endpoints[name := fx.endpoints[name]]
    && fx.started == before.started && fx.poisoned == before.poisoned
    && fx.endpoints[name].active && fx.endpoints[name].entity == e.name
    && fx.endpoints[name].role == side.Role() && fx.endpoints[name].ownerTag == TagFor(c, e, name)
  }

  /** What it adds to the containers. */
  predicate Added(c: Configuration, before: PubSub, ps: PubSub, e: Entity, side: Side, name: Text)
    requires Offers(e, side)
  {
    && ps.running == before.running
    && match side
       case Publishing(_) =>
         ps.groups == before.groups + [WriterGroup(GroupKeyOf(c, e, side), TagFor(c, e, name))] && ps.readers == before.readers
       case Subscribing(_, peer) =>
         && ps.groups == before.groups && peer in ps.readers && ps.readers == before.readers[peer := ps.readers[peer]]
         && ps.readers[peer].ownerTag == TagFor(c, e, name)
  }

  /** A connection of a so far unused entity, under a new name, with free coordinates: it is established. */
  lemma SideEstablished(c: Configuration, s: Fx, ps: PubSub, e: Entity, side: Side, name: Text)
    requires s.started && ps.running && FindEntity(c.entities, e.name) == Some(e) && Offers(e, side)
    requires ValidName(name) && name !in s.endpoints && name !in s.poisoned
    requires forall n :: n in s.endpoints ==> s.endpoints[n].entity != e.name
    requires Free(c, ps, e, side)
    ensures AutoChoice(s, e.name, Some(name))
    ensures var (fx, up, id) := Established(c, s, ps, RequestOf(e.name, side, name), Some(name), Outcome(true, true));
      id == Some(name) && Connected(c, s, fx, e, side, name) && Added(c, ps, up, e, side, name)
  {
    hide ValidName, OwnerTag, FindEntity, FindDataset, HasGroup, DataSeen;
    assert EndpointsOf(s.endpoints, e.name) == {};
    var r := RequestOf(e.name, side, name);
    var endpoint := Endpoint(e.name, side.dataset, side.Role(), TagFor(c, e, name), false, Initial);
    match side
    case Publishing(d) =>
      var p := PublisherPlan(name, endpoint, WriterGroup(GroupKeyOf(c, e, side), endpoint.ownerTag),
                             FindDataset(e.outputs, d).value.fieldCount);
      assert Planned(c, s, r, Some(name)) == Some(p);
    case Subscribing(d, peer) =>
      var p := SubscriberPlan(name, endpoint, peer, ReceiverKey([], 4840), FindDataset(e.inputs, d).value.fieldCount);
      assert Planned(c, s, r, Some(name)) == Some(p);
  }

  lemma {:induction false} FindEntityFinds(entities: seq<Entity>, i: nat)
    requires i < |entities| && forall k, l :: 0 <= k < l < |entities| ==> entities[k].name != entities[l].name
    ensures FindEntity(entities, entities[i].name) == Some(entities[i])
  {
    if i > 0 {
      FindEntityFinds(entities[1..], i - 1);
    }
  }

  /** An active endpoint with nothing under its tag: neither group nor reader. */
  predicate Lost(w: World, name: Text) {
    && name in w.fx.endpoints && w.fx.endpoints[name].active
    && !HasGroupTag(w.ps.groups, w.fx.endpoints[name].ownerTag)
    && !HasReaderTag(w.ps.readers, w.fx.endpoints[name].ownerTag)
  }

  /**
   Tag-safe entity names are needed, whatever the two connections do. When the name of one entity extends
   the other's past a slash, so that valid connection names make up the difference, and each can publish
   or subscribe, three successful calls, the establishing of both and the closing of one, leave the other
   active with neither a writer group nor a reader.
   */
  lemma CollisionLosesAConnection(c: Configuration, w: World, i: nat, j: nat, first: Side, second: Side)
    returns (actions: seq<Action>, name: Text)
    requires Initially(w) && i < |c.entities| && j < |c.entities|
    requires forall k, l :: 0 <= k < l < |c.entities| ==> c.entities[k].name != c.entities[l].name
    requires Collidable(c.entities[i].name, c.entities[j].name)
    requires Offers(c.entities[i], first) && Offers(c.entities[j], second)
    requires Free(c, w.ps, c.entities[i], first) && Free(c, w.ps, c.entities[j], second)
    requires Apart(c, c.entities[i], first, c.entities[j], second)
    ensures Run(c, w, actions).Some? && Run(c, w, actions).value.caller.Idle?
    ensures Lost(Run(c, w, actions).value, name)
  {
    hide FindEntity, OwnerTag, ValidName, Run, Established, AutoChoice, Offers, Consistent, Usage, WithoutTag, Collidable,
      GroupKeyOf, Free, Apart, HasGroup, Connected, Added;
    var e, f := c.entities[i], c.entities[j];
    var n, m := CollidingNames(c.component, e.name, f.name);
    LongerIsOther(e.name, f.name);
    FindEntityFinds(c.entities, i);
    FindEntityFinds(c.entities, j);
    NamesDiffer(c.component, e.name, n, f.name, m);
    SideEstablished(c, w.fx, w.ps, e, first, n);
    var a := EstablishedIsARun(c, w, RequestOf(e.name, first, n), Some(n), Outcome(true, true));
    var w1 := Run(c, w, a).value;
    StillFree(c, w, w1, e, first, n, f, second, m);
    SideEstablished(c, w1.fx, w1.ps, f, second, m);
    var b := EstablishedIsARun(c, w1, RequestOf(f.name, second, m), Some(m), Outcome(true, true));
    var w2 := Run(c, w1, b).value;
    RunAppend(c, w, a, b);
    BothStand(c, w, w1, w2, e, first, n, f, second, m);
    ClosedIsARun(c, w2, n);
    var close := [BeginClose(n), RemoveNow, MarkClosed];
    RunAppend(c, w, a + b, close);
    actions, name := a + b + close, m;
    NothingUnderTag(w2.ps, TagFor(c, e, n));
  }

  /** After the first connection the second can be established all the same. */
  lemma StillFree(
    c: Configuration, w: World, w1: World, e: Entity, first: Side, n: Text, f: Entity, second: Side, m: Text)
    requires w.fx.endpoints == map[] && w.fx.poisoned == {} && w.ps.running && w.fx.started && n != m && e.name != f.name
    requires Offers(e, first) && Offers(f, second) && Free(c, w.ps, f, second) && Apart(c, e, first, f, second)
    requires Connected(c, w.fx, w1.fx, e, first, n) && Added(c, w.ps, w1.ps, e, first, n)
    ensures w1.fx.started && w1.ps.running && m !in w1.fx.endpoints && m !in w1.fx.poisoned
    ensures forall x :: x in w1.fx.endpoints ==> w1.fx.endpoints[x].entity != f.name
    ensures Free(c, w1.ps, f, second)
  {
    hide OwnerTag, FindDataset;
  }

  /** Then both endpoints are active, under the same tag. */
  lemma BothStand(
    c: Configuration, w: World, w1: World, w2: World, e: Entity, first: Side, n: Text, f: Entity, second: Side, m: Text)
    requires n != m && TagFor(c, e, n) == TagFor(c, f, m) && w.fx.started && w.ps.running
    requires Offers(e, first) && Offers(f, second)
    requires Connected(c, w.fx, w1.fx, e, first, n) && Added(c, w.ps, w1.ps, e, first, n)
    requires Connected(c, w1.fx, w2.fx, f, second, m) && Added(c, w1.ps, w2.ps, f, second, m)
    ensures w2.fx.started && w2.ps.running
    ensures n in w2.fx.endpoints && w2.fx.endpoints[n].active && w2.fx.endpoints[n].ownerTag == TagFor(c, e, n)
    ensures m in w2.fx.endpoints && w2.fx.endpoints[m].active && w2.fx.endpoints[m].ownerTag == TagFor(c, e, n)
  {
    hide OwnerTag, FindDataset, Offers;
  }

  lemma NothingUnderTag(ps: PubSub, tag: Text)
    requires ps.running
    ensures !HasGroupTag(Remove(ps, tag).groups, tag) && !HasReaderTag(Remove(ps, tag).readers, tag)
  {
    hide WithoutTag, Usage;
    WithoutTagContents(ps.groups, tag);
  }

  lemma LostIsNotRepresented(w: World, name: Text)
    requires Lost(w, name)
    ensures !Represented(w.ps, w.fx.endpoints[name])
  {
    hide HasGroupTag, OneGroup;
    OneGroupIsThere(w.ps.groups, w.fx.endpoints[name].ownerTag);
  }

  lemma OneGroupIsThere(groups: seq<WriterGroup>, tag: Text)
    ensures OneGroup(groups, tag) ==> HasGroupTag(groups, tag)
  {
    forall i | 0 <= i < |groups| && groups[i].ownerTag == tag
      ensures HasGroupTag(groups, tag)
    {
      assert groups[i] in groups;
    }
  }

  lemma LongerIsOther(longer: Text, shorter: Text)
    requires Collidable(longer, shorter)
    ensures longer != shorter
  {
  }

  lemma NamesDiffer(component: Text, e: Text, n: Text, f: Text, m: Text)
    requires OwnerTag(component, e, n) == OwnerTag(component, f, m) && e != f
    ensures n != m
  {
    TagSuffix(component, e, n, f, m);
    if n == m {
      assert e + [SLASH] + n == e + ([SLASH] + n) && f + [SLASH] + n == f + ([SLASH] + n);
      assert |e| == |f|;
      SameLengthHeads(e, [SLASH] + n, f, [SLASH] + n);
    }
  }
}
