/**
 What holds in every world that the two engines can reach, whatever the interleaving and whatever
 fails: an inductive invariant, action by action, and the statements that follow from it.
 */
module ConnectionSafety {
  import opened Bytes
  import opened Wrappers
  import opened PubSubModel
  import opened FxModel
  import opened ConnectionSteps
  import opened Correspondence
  import FxEngine

  // ---------------------------------------------------------------- the invariant

  predicate Configured(c: Configuration, entity: Text) {
    exists i :: 0 <= i < |c.entities| && c.entities[i].name == entity
  }

  /** A name, an entity and the tag that belongs to them. */
  predicate Tagged(c: Configuration, name: Text, entity: Text, tag: Text) {
    ValidName(name) && Configured(c, entity) && tag == OwnerTag(c.component, entity, name)
  }

  predicate EndpointsTagged(c: Configuration, s: Fx) {
    forall n :: n in s.endpoints ==> Tagged(c, n, s.endpoints[n].entity, s.endpoints[n].ownerTag)
  }

  predicate ClosedShowInitial(s: Fx) {
    forall n :: n in s.endpoints && !s.endpoints[n].active ==> s.endpoints[n].status.Initial?
  }

  /** No entity has more endpoints than allowed. */
  ghost predicate WithinCeiling(s: Fx) {
    forall entity :: |EndpointsOf(s.endpoints, entity)| <= MAX_ENDPOINTS_PER_ENTITY
  }

  predicate SameUse(a: Endpoint, b: Endpoint) {
    a.entity == b.entity && a.role == b.role && a.dataset == b.dataset
  }

  /** At most one endpoint is active for an entity, a role and a dataset. */
  predicate OneActivePerDataset(s: Fx) {
    forall n, m :: n in s.endpoints && m in s.endpoints && n != m && s.endpoints[n].active && s.endpoints[m].active ==>
      !SameUse(s.endpoints[n], s.endpoints[m])
  }

  ghost predicate EndpointsOk(c: Configuration, s: Fx) {
    && s.poisoned !! s.endpoints.Keys
    && EndpointsTagged(c, s) && ClosedShowInitial(s) && WithinCeiling(s) && OneActivePerDataset(s)
  }

  /** A plan that has passed the checks and whose endpoint is not stored yet. */
  predicate PlanPending(c: Configuration, s: Fx, p: Plan) {
    && Tagged(c, p.name, p.endpoint.entity, p.endpoint.ownerTag)
    && (p.PublisherPlan? <==> p.endpoint.role.Publisher?)
    && (p.PublisherPlan? ==> p.group.ownerTag == p.endpoint.ownerTag)
    && NameUsable(s, p.endpoint.entity, p.name)
    && !Busy(s.endpoints, p.endpoint.entity, p.endpoint.role, p.endpoint.dataset)
  }

  /** A plan whose endpoint is stored and still shows Initial. */
  predicate PlanStored(s: Fx, p: Plan) {
    && p.name in s.endpoints
    && s.endpoints[p.name] == p.endpoint.(active := true, status := Initial)
    && (p.PublisherPlan? <==> p.endpoint.role.Publisher?)
  }

  /** Every reader under the tag has applied data. */
  predicate SeenUnder(ps: PubSub, tag: Text) {
    forall k :: k in ps.readers && ps.readers[k].ownerTag == tag ==> ps.readers[k].dataSeen
  }

  predicate AfterOk(s: Fx, name: Text, after: After) {
    && name in ActiveNames(s)
    && (after.ForShutdown? ==> name !in after.todo && ActiveNames(s) == after.todo + {name})
  }

  predicate CallerOk(c: Configuration, w: World) {
    match w.caller
    case Idle => true
    case Adding(p) => PlanPending(c, w.fx, p)
    case Building(p) => PlanPending(c, w.fx, p)
    case Undoing(p) => PlanPending(c, w.fx, p) && p.name !in w.fx.endpoints
    case Reconciling(p) => PlanStored(w.fx, p) && p.SubscriberPlan?
    case Finishing(p, st) =>
      PlanStored(w.fx, p) && (st.Operational? && p.SubscriberPlan? ==> SeenUnder(w.ps, p.endpoint.ownerTag))
    case Removing(n, after) => AfterOk(w.fx, n, after)
    case Removed(n, after) => AfterOk(w.fx, n, after)
    case Stopping(todo) => todo == ActiveNames(w.fx)
  }

  predicate ShowsOperational(s: Fx, name: Text) {
    name in s.endpoints && s.endpoints[name].active && s.endpoints[name].status.Operational?
  }

  /** One reader's part of the first-data handshake. */
  predicate HandshakeOf(s: Fx, r: Reader) {
    r.connection.Some? ==>
      && (ShowsOperational(s, r.connection.value) ==> r.dataSeen)
      && (r.firstDataSignalled ==> ShowsOperational(s, r.connection.value))
  }

  /**
   The first-data handshake: an endpoint that shows Operational has a reader that has applied data,
   and a reader that has signalled has an endpoint that shows Operational.
   */
  predicate Handshake(s: Fx, ps: PubSub) {
    forall k :: k in ps.readers ==> HandshakeOf(s, ps.readers[k])
  }

  predicate IoOk(w: World) {
    w.io.Signalling? ==>
      && w.io.key in w.ps.readers
      && w.ps.readers[w.io.key].connection.Some? && w.ps.readers[w.io.key].dataSeen
  }

  /** FX runs only over a running Pub/Sub engine, works only when started, and stops with nothing active. */
  predicate LifeOk(w: World) {
    && (w.fx.started ==> w.ps.running)
    && (!w.caller.Idle? ==> w.fx.started)
    && (!w.fx.started ==> ActiveNames(w.fx) == {})
  }

  ghost predicate Inv(c: Configuration, w: World) {
    && Consistent(w.ps)
    && EndpointsOk(c, w.fx)
    && CallerOk(c, w)
    && Corresponds(w.ps, LinksOf(w))
    && Handshake(w.fx, w.ps)
    && IoOk(w)
    && LifeOk(w)
  }

  // ---------------------------------------------------------------- establish

  lemma PlannedIsPending(c: Configuration, s: Fx, r: Request, auto: Option<Text>)
    requires AutoChoice(s, r.entity, auto)
    ensures Planned(c, s, r, auto).Some? ==> s.started && PlanPending(c, s, Planned(c, s, r, auto).value)
  {
    hide OwnerTag, ValidName, NameUsable, Busy, AllBusy;
    if Planned(c, s, r, auto).Some? {
      var entity := FindEntity(c.entities, r.entity).value;
      var i :| 0 <= i < |c.entities| && c.entities[i] == entity;
      assert Configured(c, r.entity);
    }
  }

  lemma SafeBegin(c: Configuration, w: World, r: Request, auto: Option<Text>)
    requires Inv(c, w) && Step(c, w, Begin(r, auto)).Some?
    ensures Inv(c, Step(c, w, Begin(r, auto)).value)
  {
    hide Planned, PlanPending, AutoChoice, Consistent, EndpointsOk, Corresponds, Handshake;
    PlannedIsPending(c, w.fx, r, auto);
  }

  /** The tag of a pending plan is that of no connection. */
  lemma PendingTagIsFresh(c: Configuration, s: Fx, p: Plan)
    requires TagSafe(c) && EndpointsTagged(c, s) && PlanPending(c, s, p)
    ensures p.name !in ActiveLinks(s, None) && FreshTag(ActiveLinks(s, None), p.endpoint.ownerTag)
  {
    hide OwnerTag, ValidName, Busy, TagSafe;
    TagNotEmpty(c.component, p.endpoint.entity, p.name);
    forall n | n in ActiveLinks(s, None)
      ensures s.endpoints[n].ownerTag != p.endpoint.ownerTag
    {
      if s.endpoints[n].ownerTag == p.endpoint.ownerTag {
        TaggedInjective(c, n, s.endpoints[n].entity, p.name, p.endpoint.entity, p.endpoint.ownerTag);
      }
    }
  }

  lemma TagNotEmpty(component: Text, entity: Text, name: Text)
    ensures OwnerTag(component, entity, name) != []
  {
  }

  lemma TaggedInjective(c: Configuration, n: Text, e: Text, m: Text, f: Text, tag: Text)
    requires TagSafe(c) && Tagged(c, n, e, tag) && Tagged(c, m, f, tag)
    ensures n == m && e == f
  {
    hide OwnerTag, ValidName, TagSafe;
    var i :| 0 <= i < |c.entities| && c.entities[i].name == e;
    var j :| 0 <= j < |c.entities| && c.entities[j].name == f;
    TagsInjective(c, i, n, j, m);
  }

  lemma SafeAdd(c: Configuration, w: World, socketOk: bool)
    requires TagSafe(c) && Inv(c, w) && Step(c, w, Add(socketOk)).Some?
    ensures Inv(c, Step(c, w, Add(socketOk)).value)
  {
    hide Consistent, Corresponds, Usage, Acquire, EndpointsTagged, WithinCeiling, OneActivePerDataset,
      Tagged, NameUsable, Busy, TagSafe, FreshTag;
    var p := w.caller.plan;
    var links := ActiveLinks(w.fx, None);
    PendingTagIsFresh(c, w.fx, p);
    FxEngine.ActivateKeepsConsistent(w.ps, p, socketOk);
    match Activate(w.ps, p, socketOk)
    case None =>
    case Some(up) =>
      match p
      case PublisherPlan(_, _, group, _) =>
        CorrespondsAddGroup(w.ps, links, p.name, group);
      case SubscriberPlan(_, _, key, _, _) =>
        CorrespondsAddReader(w.ps, links, p.name, key, PlanReader(p));
        CorrespondsLooksAt(SetReader(w.ps, key, PlanReader(p)), up, links[p.name := Link(Subscriber, p.endpoint.ownerTag)]);
        PendingShowsNothing(w.fx, p);
  }

  lemma PendingShowsNothing(s: Fx, p: Plan)
    requires ClosedShowInitial(s) && NameUsable(s, p.endpoint.entity, p.name)
    ensures !ShowsOperational(s, p.name)
  {
  }

  /** Receivers play no part in the correspondence. */
  lemma CorrespondsLooksAt(a: PubSub, b: PubSub, links: Links)
    requires Corresponds(a, links) && a.groups == b.groups && a.readers == b.readers
    ensures Corresponds(b, links)
  {
    hide GroupsMatch, ReadersMatch, TagsDistinct;
  }

  lemma StoringKeepsEndpointsOk(c: Configuration, s: Fx, p: Plan)
    requires EndpointsOk(c, s) && PlanPending(c, s, p)
    ensures EndpointsOk(c, Stored(s, p)) && PlanStored(Stored(s, p), p)
  {
    hide Tagged, WithinCeiling;
    StoringKeepsCeiling(s, p);
    var after := Stored(s, p);
    forall n | n in after.endpoints && n != p.name && after.endpoints[n].active
      ensures !SameUse(after.endpoints[n], after.endpoints[p.name])
    {
      assert after.endpoints[n] == s.endpoints[n];
    }
  }

  lemma StoringKeepsCeiling(s: Fx, p: Plan)
    requires WithinCeiling(s) && NameUsable(s, p.endpoint.entity, p.name)
    ensures WithinCeiling(Stored(s, p))
  {
    var after := Stored(s, p);
    forall entity
      ensures |EndpointsOf(after.endpoints, entity)| <= MAX_ENDPOINTS_PER_ENTITY
    {
      var was := EndpointsOf(s.endpoints, entity);
      if entity == p.endpoint.entity {
        assert EndpointsOf(after.endpoints, entity) == was + {p.name};
        if p.name in s.endpoints {
          assert was + {p.name} == was;
        }
      } else {
        assert EndpointsOf(after.endpoints, entity) == was;
      }
    }
  }

  /** Before its endpoint is stored, nobody has signalled for a pending plan. */
  lemma StoringKeepsHandshake(s: Fx, ps: PubSub, p: Plan)
    requires Handshake(s, ps) && ClosedShowInitial(s) && NameUsable(s, p.endpoint.entity, p.name)
    ensures Handshake(Stored(s, p), ps)
  {
    forall k | k in ps.readers
      ensures HandshakeOf(Stored(s, p), ps.readers[k])
    {
      assert HandshakeOf(s, ps.readers[k]);
    }
  }

  lemma SafeBuild(c: Configuration, w: World, nodesOk: bool)
    requires Inv(c, w) && Step(c, w, Build(nodesOk)).Some?
    ensures Inv(c, Step(c, w, Build(nodesOk)).value)
  {
    hide Consistent, EndpointsOk, Corresponds, PlanPending, PlanStored, Handshake, SeenUnder;
    var p, next := w.caller.plan, Step(c, w, Build(nodesOk)).value;
    if !next.caller.Undoing? {
      StoringKeepsEndpointsOk(c, w.fx, p);
      PendingBasics(c, w.fx, p);
      StoringKeepsHandshake(w.fx, w.ps, p);
      assert LinksOf(next) == LinksOf(w);
    }
  }

  lemma PendingBasics(c: Configuration, s: Fx, p: Plan)
    requires EndpointsOk(c, s) && PlanPending(c, s, p)
    ensures ClosedShowInitial(s) && NameUsable(s, p.endpoint.entity, p.name)
    ensures p.PublisherPlan? <==> p.endpoint.role.Publisher?
  {
  }

  lemma RemovingKeepsHandshake(s: Fx, ps: PubSub, tag: Text)
    requires Handshake(s, ps)
    ensures Handshake(s, Remove(ps, tag))
  {
    hide HandshakeOf, WithoutTag, Usage;
  }

  lemma SafeUndo(c: Configuration, w: World)
    requires TagSafe(c) && Inv(c, w) && Step(c, w, Undo).Some?
    ensures Inv(c, Step(c, w, Undo).value)
  {
    hide Consistent, Corresponds, Handshake, Remove, TagSafe, Tagged, Busy, FreshTag, EndpointsOk;
    var p, next := w.caller.plan, Step(c, w, Undo).value;
    assert EndpointsTagged(c, w.fx) by {
      EndpointsOkTagged(c, w.fx);
    }
    PendingTagIsFresh(c, w.fx, p);
    CorrespondsRemove(w.ps, LinksOf(w), p.name);
    assert LinksOf(next) == LinksOf(w) - {p.name};
    RemoveKeepsConsistent(w.ps, p.endpoint.ownerTag);
    RemovingKeepsHandshake(w.fx, w.ps, p.endpoint.ownerTag);
    RemoveKeepsRunning(w.ps, p.endpoint.ownerTag);
    PoisonKeepsHandshake(w.fx, next.ps, p.name);
    PoisonKeepsEndpointsOk(c, w.fx, p.name);
    assert ActiveNames(next.fx) == ActiveNames(w.fx);
  }

  lemma RemoveKeepsRunning(ps: PubSub, tag: Text)
    ensures Remove(ps, tag).running == ps.running
  {
  }

  lemma EndpointsOkTagged(c: Configuration, s: Fx)
    requires EndpointsOk(c, s)
    ensures EndpointsTagged(c, s)
  {
  }

  lemma PoisonKeepsEndpointsOk(c: Configuration, s: Fx, name: Text)
    requires EndpointsOk(c, s) && name !in s.endpoints
    ensures EndpointsOk(c, Poisoned(s, name))
  {
    hide Tagged, WithinCeiling;
    CeilingLooksAt(s, Poisoned(s, name));
  }

  lemma PoisonKeepsHandshake(s: Fx, ps: PubSub, name: Text)
    requires Handshake(s, ps)
    ensures Handshake(Poisoned(s, name), ps)
  {
    forall k | k in ps.readers
      ensures HandshakeOf(Poisoned(s, name), ps.readers[k])
    {
      assert HandshakeOf(s, ps.readers[k]);
    }
  }

  lemma DataSeenIsSeenUnder(ps: PubSub, tag: Text)
    requires ReaderTagsUnique(ps.readers) && tag != [] && DataSeen(ps, tag)
    ensures SeenUnder(ps, tag)
  {
  }

  lemma SafeReconcile(c: Configuration, w: World)
    requires Inv(c, w) && Step(c, w, Reconcile).Some?
    ensures Inv(c, Step(c, w, Reconcile).value)
  {
    hide Consistent, EndpointsOk, Handshake, DataSeen, SeenUnder, GroupsMatch;
    var p, next := w.caller.plan, Step(c, w, Reconcile).value;
    assert LinksOf(next) == LinksOf(w);
    if DataSeen(w.ps, p.endpoint.ownerTag) {
      assert p.name in LinksOf(w);
      DataSeenIsSeenUnder(w.ps, p.endpoint.ownerTag);
    }
  }

  lemma StatusKeepsEndpointsOk(c: Configuration, s: Fx, name: Text, status: EndpointStatus)
    requires EndpointsOk(c, s) && name in s.endpoints && (s.endpoints[name].active || status.Initial?)
    ensures EndpointsOk(c, WithStatus(s, name, status))
  {
    hide Tagged, WithinCeiling;
    var after := WithStatus(s, name, status);
    CeilingLooksAt(s, after);
  }

  lemma CeilingLooksAt(a: Fx, b: Fx)
    requires WithinCeiling(a) && a.endpoints.Keys == b.endpoints.Keys
    requires forall n :: n in a.endpoints ==> a.endpoints[n].entity == b.endpoints[n].entity
    ensures WithinCeiling(b)
  {
    forall entity
      ensures |EndpointsOf(b.endpoints, entity)| <= MAX_ENDPOINTS_PER_ENTITY
    {
      assert EndpointsOf(a.endpoints, entity) == EndpointsOf(b.endpoints, entity);
    }
  }

  lemma FinishingKeepsHandshake(w: World, p: Plan, status: EndpointStatus)
    requires Handshake(w.fx, w.ps) && PlanStored(w.fx, p) && ReadersMatch(w.ps.readers, LinksOf(w))
    requires w.caller.Finishing?
    requires status.Operational? && p.SubscriberPlan? ==> SeenUnder(w.ps, p.endpoint.ownerTag)
    ensures Handshake(WithStatus(w.fx, p.name, status), w.ps)
  {
    hide HasReaderTag;
    var after := WithStatus(w.fx, p.name, status);
    forall k | k in w.ps.readers
      ensures HandshakeOf(after, w.ps.readers[k])
    {
      assert HandshakeOf(w.fx, w.ps.readers[k]);
      assert ReaderLinked(w.ps.readers[k], LinksOf(w));
    }
  }

  lemma SafeFinish(c: Configuration, w: World)
    requires Inv(c, w) && Step(c, w, Finish).Some?
    ensures Inv(c, Step(c, w, Finish).value)
  {
    hide Consistent, EndpointsOk, Handshake, SeenUnder, GroupsMatch, ReadersMatch, TagsDistinct;
    var p, next := w.caller.plan, Step(c, w, Finish).value;
    assert LinksOf(next) == LinksOf(w);
    StatusKeepsEndpointsOk(c, w.fx, p.name, w.caller.status);
    FinishingKeepsHandshake(w, p, w.caller.status);
  }

  // ---------------------------------------------------------------- close and shutdown

  lemma SafeBeginClose(c: Configuration, w: World, name: Text)
    requires Inv(c, w) && Step(c, w, BeginClose(name)).Some?
    ensures Inv(c, Step(c, w, BeginClose(name)).value)
  {
    hide Consistent, EndpointsOk, Corresponds, Handshake;
    assert LinksOf(Step(c, w, BeginClose(name)).value) == LinksOf(w);
  }

  lemma SafeStopping(c: Configuration, w: World, a: Action)
    requires Inv(c, w) && Step(c, w, a).Some? && (a.BeginShutdown? || a.StopNext?)
    ensures Inv(c, Step(c, w, a).value)
  {
    hide Consistent, EndpointsOk, Corresponds, Handshake;
    assert LinksOf(Step(c, w, a).value) == LinksOf(w);
  }

  lemma SafeStopEnd(c: Configuration, w: World)
    requires Inv(c, w) && Step(c, w, StopEnd).Some?
    ensures Inv(c, Step(c, w, StopEnd).value)
  {
    hide Consistent, Corresponds, Tagged;
    var next := Step(c, w, StopEnd).value;
    assert LinksOf(next) == LinksOf(w);
    assert ActiveNames(next.fx) == ActiveNames(w.fx);
    CeilingLooksAt(w.fx, next.fx);
    forall k | k in w.ps.readers
      ensures HandshakeOf(next.fx, w.ps.readers[k])
    {
      assert HandshakeOf(w.fx, w.ps.readers[k]);
    }
  }

  lemma SafeRemoveNow(c: Configuration, w: World)
    requires Inv(c, w) && Step(c, w, RemoveNow).Some?
    ensures Inv(c, Step(c, w, RemoveNow).value)
  {
    hide Consistent, EndpointsOk, Corresponds, Handshake, Remove;
    var name, next := w.caller.name, Step(c, w, RemoveNow).value;
    var tag := w.fx.endpoints[name].ownerTag;
    CorrespondsRemove(w.ps, LinksOf(w), name);
    assert LinksOf(next) == LinksOf(w) - {name};
    RemoveKeepsConsistent(w.ps, tag);
    RemovingKeepsHandshake(w.fx, w.ps, tag);
    RemoveKeepsRunning(w.ps, tag);
  }

  lemma ClosingKeepsEndpointsOk(c: Configuration, s: Fx, name: Text)
    requires EndpointsOk(c, s) && name in s.endpoints
    ensures EndpointsOk(c, Closed(s, name))
  {
    hide Tagged, WithinCeiling;
    CeilingLooksAt(s, Closed(s, name));
  }

  lemma ClosingKeepsHandshake(w: World)
    requires Handshake(w.fx, w.ps) && ReadersMatch(w.ps.readers, LinksOf(w))
    requires w.caller.Removed? && w.caller.name in w.fx.endpoints
    ensures Handshake(Closed(w.fx, w.caller.name), w.ps)
  {
    hide HasReaderTag;
    forall k | k in w.ps.readers
      ensures HandshakeOf(Closed(w.fx, w.caller.name), w.ps.readers[k])
    {
      assert HandshakeOf(w.fx, w.ps.readers[k]);
      assert ReaderLinked(w.ps.readers[k], LinksOf(w));
    }
  }

  lemma SafeMarkClosed(c: Configuration, w: World)
    requires Inv(c, w) && Step(c, w, MarkClosed).Some?
    ensures Inv(c, Step(c, w, MarkClosed).value)
  {
    hide Consistent, EndpointsOk, GroupsMatch, ReadersMatch, TagsDistinct, Handshake;
    var name, next := w.caller.name, Step(c, w, MarkClosed).value;
    assert LinksOf(next) == LinksOf(w);
    ClosingKeepsEndpointsOk(c, w.fx, name);
    ClosingKeepsHandshake(w);
    assert ActiveNames(next.fx) == ActiveNames(w.fx) - {name};
  }

  lemma NothingLinked(s: Fx)
    requires ActiveNames(s) == {}
    ensures ActiveLinks(s, None) == map[]
  {
    forall n
      ensures n in ActiveLinks(s, None) ==> n in ActiveNames(s)
    {
    }
  }

  lemma SafeStopPubSub(c: Configuration, w: World)
    requires Inv(c, w) && Step(c, w, StopPubSub).Some?
    ensures Inv(c, Step(c, w, StopPubSub).value)
  {
    hide Consistent, EndpointsOk;
    var next := Step(c, w, StopPubSub).value;
    StoppedIsConsistent(w.ps);
    NothingLinked(next.fx);
  }

  // ---------------------------------------------------------------- the io thread

  lemma SafeDeliver(c: Configuration, w: World, key: ReaderKey)
    requires Inv(c, w) && Step(c, w, Deliver(key)).Some?
    ensures Inv(c, Step(c, w, Deliver(key)).value)
  {
    hide EndpointsOk, Corresponds, Usage, PlanPending, PlanStored, AfterOk;
    var next, r := Step(c, w, Deliver(key)).value, w.ps.readers[key];
    CorrespondsMark(w.ps, LinksOf(w), key, r.(dataSeen := true));
    UsageOfSamePlaces(w.ps.readers, next.ps.readers);
    assert LinksOf(next) == LinksOf(w);
    forall k | k in next.ps.readers
      ensures HandshakeOf(next.fx, next.ps.readers[k])
    {
      assert HandshakeOf(w.fx, w.ps.readers[k]);
    }
  }

  /** A reader's connection is an active subscriber endpoint, unless that endpoint is still to be stored. */
  lemma SignalFindsItsEndpoint(w: World, key: ReaderKey)
    requires ReadersMatch(w.ps.readers, LinksOf(w)) && w.caller.Idle?
    requires key in w.ps.readers && w.ps.readers[key].connection.Some?
    ensures var n := w.ps.readers[key].connection.value;
      n in w.fx.endpoints && w.fx.endpoints[n].active && w.fx.endpoints[n].role.Subscriber?
  {
    hide HasReaderTag;
    assert ReaderLinked(w.ps.readers[key], LinksOf(w));
  }

  lemma SignallingKeepsHandshake(w: World, next: World)
    requires Handshake(w.fx, w.ps) && ReadersMatch(w.ps.readers, LinksOf(w)) && w.caller.Idle? && IoOk(w)
    requires w.io.Signalling? && next == Signalled(w)
    ensures Handshake(next.fx, next.ps)
  {
    hide HasReaderTag;
    var key := w.io.key;
    SignalFindsItsEndpoint(w, key);
    forall k | k in next.ps.readers
      ensures HandshakeOf(next.fx, next.ps.readers[k])
    {
      assert HandshakeOf(w.fx, w.ps.readers[k]);
      assert ReaderLinked(w.ps.readers[k], LinksOf(w)) && ReaderLinked(w.ps.readers[key], LinksOf(w));
    }
  }

  lemma SafeSignal(c: Configuration, w: World)
    requires Inv(c, w) && Step(c, w, Signal).Some?
    ensures Inv(c, Step(c, w, Signal).value)
  {
    hide EndpointsOk, GroupsMatch, ReadersMatch, TagsDistinct, Usage, PlanPending, PlanStored, SeenUnder, AfterOk, Handshake;
    var next, key := Step(c, w, Signal).value, w.io.key;
    if w.caller.Idle? {
      var r := w.ps.readers[key];
      SignalFindsItsEndpoint(w, key);
      var n := r.connection.value;
      StatusKeepsEndpointsOk(c, w.fx, n, Operational);
      hide Corresponds;
      CorrespondsMark(w.ps, LinksOf(w), key, r.(firstDataSignalled := true));
      UsageOfSamePlaces(w.ps.readers, next.ps.readers);
      assert LinksOf(next) == LinksOf(w);
      SignallingKeepsHandshake(w, next);
      assert ActiveNames(next.fx) == ActiveNames(w.fx);
    } else {
      assert LinksOf(next) == LinksOf(w);
    }
  }

  // ---------------------------------------------------------------- every run

  lemma SafeStep(c: Configuration, w: World, a: Action)
    requires TagSafe(c) && Inv(c, w) && Step(c, w, a).Some?
    ensures Inv(c, Step(c, w, a).value)
  {
    hide Inv, TagSafe, Step;
    match a
    case Begin(r, auto) => SafeBegin(c, w, r, auto);
    case Add(socketOk) => SafeAdd(c, w, socketOk);
    case Build(nodesOk) => SafeBuild(c, w, nodesOk);
    case Undo => SafeUndo(c, w);
    case Reconcile => SafeReconcile(c, w);
    case Finish => SafeFinish(c, w);
    case BeginClose(name) => SafeBeginClose(c, w, name);
    case BeginShutdown => SafeStopping(c, w, a);
    case StopNext(_) => SafeStopping(c, w, a);
    case RemoveNow => SafeRemoveNow(c, w);
    case MarkClosed => SafeMarkClosed(c, w);
    case StopEnd => SafeStopEnd(c, w);
    case StopPubSub => SafeStopPubSub(c, w);
    case Deliver(key) => SafeDeliver(c, w, key);
    case Signal => SafeSignal(c, w);
  }

  lemma InitiallySafe(c: Configuration, w: World)
    requires Initially(w)
    ensures Inv(c, w)
  {
    assert LinksOf(w) == map[];
    forall entity
      ensures EndpointsOf(w.fx.endpoints, entity) == {}
    {
    }
    forall g | g in w.ps.groups
      ensures g.ownerTag == []
    {
    }
  }

  lemma {:induction false} RunKeepsSafe(c: Configuration, w: World, actions: seq<Action>)
    requires TagSafe(c) && Inv(c, w) && Run(c, w, actions).Some?
    ensures Inv(c, Run(c, w, actions).value)
  {
    hide Inv, Step, TagSafe;
    if actions == [] {
    } else {
      RunKeepsSafe(c, w, actions[..|actions| - 1]);
      SafeStep(c, Run(c, w, actions[..|actions| - 1]).value, actions[|actions| - 1]);
    }
  }

  lemma EveryRunIsSafe(c: Configuration, w: World, actions: seq<Action>)
    requires TagSafe(c) && Initially(w) && Run(c, w, actions).Some?
    ensures Inv(c, Run(c, w, actions).value)
  {
    hide Inv, Step, Initially, TagSafe, Run;
    InitiallySafe(c, w);
    RunKeepsSafe(c, w, actions);
  }
}
