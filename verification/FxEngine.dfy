/**
 The FX engine as it runs, one call at a time: the endpoint table and the poisoned names, changed in
 place, over the Pub/Sub engine. What interleaved calls do is the subject of `ConnectionSteps`.
 */
module FxEngine {
  import opened Bytes
  import opened Wrappers
  import opened WireFormat
  import opened PubSubModel
  import opened FxModel
  import opened ConnectionEffects
  import PubSubEngine

  /** The whole effect of an establish call that is not interleaved with anything. */
  function Established(
    c: Configuration, s: FxModel.State, ps: PubSubModel.State, r: Request, auto: Option<Text>, env: Outcome)
    : (FxModel.State, PubSubModel.State, Option<Text>)
  {
    match Planned(c, s, r, auto)
    case None => (s, ps, None)
    case Some(p) =>
      match Activate(ps, p, env.socketOk)
      case None => (s, ps, None)
      case Some(up) =>
        if p.name !in s.endpoints && !env.nodesOk then
          (Poisoned(s, p.name), Remove(up, p.endpoint.ownerTag), None)
        else
          var status := if p.SubscriberPlan? && !DataSeen(up, p.endpoint.ownerTag) then PreOperational else Operational;
          (WithStatus(Stored(s, p), p.name, status), up, Some(p.name))
  }

  lemma AllToCount(endpoints: map<Text, Endpoint>, entity: Text)
    ensures |EndpointsOf(endpoints, entity) - endpoints.Keys| == 0
    ensures |EndpointsOf(endpoints, entity) - {}| == |EndpointsOf(endpoints, entity)|
  {
    assert EndpointsOf(endpoints, entity) - endpoints.Keys == {};
    assert EndpointsOf(endpoints, entity) - {} == EndpointsOf(endpoints, entity);
  }

  /** Looking at one more endpoint, the count of those seen grows if it is one of the entity's. */
  lemma CountStep(endpoints: map<Text, Endpoint>, entity: Text, todo: set<Text>, n: Text)
    requires n in endpoints && n in todo
    ensures |EndpointsOf(endpoints, entity) - (todo - {n})|
      == |EndpointsOf(endpoints, entity) - todo| + if endpoints[n].entity == entity then 1 else 0
  {
    var all := EndpointsOf(endpoints, entity);
    assert all - (todo - {n}) == (all - todo) + if endpoints[n].entity == entity then {n} else {};
  }

  class Engine {
    const configuration: Configuration
    const pubSub: PubSubEngine.Engine
    var started: bool
    var endpoints: map<Text, Endpoint>
    var poisoned: set<Text>

    ghost function View(): FxModel.State
      reads this
    {
      FxModel.State(started, endpoints, poisoned)
    }

    constructor (configuration: Configuration, pubSub: PubSubEngine.Engine)
      ensures this.configuration == configuration && this.pubSub == pubSub
      ensures View() == FxModel.State(false, map[], {})
    {
      this.configuration, this.pubSub := configuration, pubSub;
      started, endpoints, poisoned := false, map[], {};
    }

    method EndpointCountOf(entity: Text) returns (count: nat)
      ensures count == |EndpointsOf(endpoints, entity)|
    {
      hide EndpointsOf;
      count := 0;
      var todo := endpoints.Keys;
      AllToCount(endpoints, entity);
      while todo != {}
        invariant todo <= endpoints.Keys && count == |EndpointsOf(endpoints, entity) - todo|
        decreases todo
      {
        var n :| n in todo;
        CountStep(endpoints, entity, todo, n);
        todo := todo - {n};
        if endpoints[n].entity == entity {
          count := count + 1;
        }
      }
    }

    method ActiveConnectionFor(entity: Text, role: Role, dataset: Text) returns (busy: bool)
      ensures busy == Busy(endpoints, entity, role, dataset)
    {
      var todo := endpoints.Keys;
      while todo != {}
        invariant todo <= endpoints.Keys
        invariant forall n :: n in endpoints && n !in todo ==>
          !(endpoints[n].active && endpoints[n].entity == entity
            && endpoints[n].role == role && endpoints[n].dataset == dataset)
        decreases todo
      {
        var n :| n in todo;
        if endpoints[n].active && endpoints[n].entity == entity
           && endpoints[n].role == role && endpoints[n].dataset == dataset {
          return true;
        }
        todo := todo - {n};
      }
      busy := false;
    }

    /** The first closed endpoint of the entity, in the order of names. */
    method FirstClosed(entity: Text) returns (r: Option<Text>)
      ensures LeastClosed(View(), entity, r)
    {
      r := None;
      var todo := endpoints.Keys;
      while todo != {}
        invariant todo <= endpoints.Keys
        invariant r.Some? ==> ClosedEndpoint(View(), entity, r.value)
        invariant forall n :: n in endpoints && n !in todo && ClosedEndpoint(View(), entity, n) ==>
          r.Some? && (r.value == n || Less(r.value, n))
        decreases todo
      {
        var n :| n in todo;
        todo := todo - {n};
        if !endpoints[n].active && endpoints[n].entity == entity {
          if r.None? || Less(n, r.value) {
            LessThanAll(r, n);
            r := Some(n);
          } else {
            LessIsTotal(n, r.value);
          }
        }
      }
    }

    /**
     The automatic name of a new connection: below the entity's ceiling the bounded search always
     finds the first that is free; at the ceiling the first closed endpoint is used again. Every name
     returned passes the later checks of an establish call, and the call fails, returning None,
     exactly when the entity is at its ceiling with every endpoint busy.
     */
    method FirstFreeAutoName(entity: Text) returns (r: Option<Text>)
      requires |endpoints| + |poisoned| + 1 < 0x1_0000_0000_0000_0000
      requires poisoned !! endpoints.Keys && forall n :: n in endpoints ==> ValidName(n)
      ensures r.Some? ==> NameUsable(View(), entity, r.value) && ValidName(r.value)
      ensures r.None? <==> AllBusy(View(), entity)
      ensures AutoNamed(View(), entity, r)
    {
      var count := EndpointCountOf(entity);
      if count < MAX_ENDPOINTS_PER_ENTITY {
        var bound := |endpoints| + |poisoned| + 1;
        var n := 1;
        while n <= bound
          invariant 1 <= n <= bound + 1
          invariant forall k :: 1 <= k < n ==> !Takeable(View(), entity, AutoName(k))
        {
          var candidate := AutoName(n);
          AutoNameValid(n);
          if candidate !in poisoned {
            if candidate !in endpoints {
              return Some(candidate);
            }
            if !endpoints[candidate].active && endpoints[candidate].entity == entity {
              return Some(candidate);
            }
          }
          n := n + 1;
        }
        ghost var free := Pigeonhole(endpoints.Keys + poisoned, bound);
        assert Takeable(View(), entity, AutoName(free));
        assert false;
      }
      r := FirstClosed(entity);
    }

    /** The first part of an establish call: name, checks and plan; nothing is changed. */
    method Plan(r: Request) returns (p: Option<FxModel.Plan>, ghost auto: Option<Text>)
      requires |endpoints| + |poisoned| + 1 < 0x1_0000_0000_0000_0000
      requires poisoned !! endpoints.Keys && forall n :: n in endpoints ==> ValidName(n)
      ensures auto.Some? ==> NameUsable(View(), r.entity, auto.value) && ValidName(auto.value)
      ensures auto.None? <==> AllBusy(View(), r.entity)
      ensures AutoNamed(View(), r.entity, auto)
      ensures p == Planned(configuration, View(), r, auto)
      ensures PlannedExactly(configuration, View(), r, auto, p)
    {
      hide NameUsable, AllBusy, Busy, ValidName, OwnerTag, EndpointsOf, AutoNamed, PlannedExactly;
      PlannedAsAsked(configuration, View(), r);
      p := None;
      var name := FirstFreeAutoName(r.entity);
      auto := name;
      if !started {
        return;
      }
      var entity := FindEntity(configuration.entities, r.entity);
      if entity.None? || r.role.None? {
        return;
      }
      match r.connectionName {
        case Absent =>
        case Malformed => return;
        case Given(n) =>
          if !ValidName(n) {
            return;
          }
          name := Some(n);
      }
      if name.None? {
        return;
      }
      var usable := CheckName(r.entity, name.value);
      var busy := ActiveConnectionFor(r.entity, r.role.value, r.dataset);
      if !usable || busy || r.address.None? {
        return;
      }
      var tag := OwnerTag(configuration.component, r.entity, name.value);
      var endpoint := Endpoint(r.entity, r.dataset, r.role.value, tag, false, Initial);
      match r.role.value
      case Publisher => p := PlannedPublisher(configuration, r, entity.value, name.value, endpoint);
      case Subscriber => p := PlannedSubscriber(r, entity.value, name.value, endpoint, r.address.value);
    }

    method CheckName(entity: Text, name: Text) returns (usable: bool)
      ensures usable == NameUsable(View(), entity, name)
    {
      if name in poisoned {
        return false;
      }
      if name in endpoints {
        return !endpoints[name].active && endpoints[name].entity == entity;
      }
      var count := EndpointCountOf(entity);
      usable := count < MAX_ENDPOINTS_PER_ENTITY;
    }

    /** Brings up the data plane of a plan, the step that can fail. */
    method BringUp(plan: FxModel.Plan, socketOk: bool) returns (ok: bool)
      requires Consistent(pubSub.View())
      modifies pubSub
      ensures Consistent(pubSub.View())
      ensures ok == Activate(old(pubSub.View()), plan, socketOk).Some?
      ensures pubSub.View() == if ok then Activate(old(pubSub.View()), plan, socketOk).value else old(pubSub.View())
    {
      hide Consistent, AddGroup, AddReader;
      ActivateKeepsConsistent(pubSub.View(), plan, socketOk);
      match plan
      case PublisherPlan(_, _, group, count) =>
        ok := pubSub.AddDynamicWriterGroup(group, count, socketOk);
      case SubscriberPlan(_, _, key, _, count) =>
        ok := pubSub.AddDynamicReader(key, PlanReader(plan), count, socketOk);
    }

    method EstablishConnections(r: Request, env: Outcome) returns (id: Option<Text>, ghost auto: Option<Text>)
      requires |endpoints| + |poisoned| + 1 < 0x1_0000_0000_0000_0000
      requires poisoned !! endpoints.Keys && forall n :: n in endpoints ==> ValidName(n)
      requires Consistent(pubSub.View())
      modifies this, pubSub
      ensures auto.Some? ==> NameUsable(old(View()), r.entity, auto.value)
      ensures auto.None? <==> AllBusy(old(View()), r.entity)
      ensures AutoNamed(old(View()), r.entity, auto)
      ensures Answers(configuration, old(View()), old(pubSub.View()), r, auto, env, View(), pubSub.View(), id)
      ensures (View(), pubSub.View(), id)
        == Established(configuration, old(View()), old(pubSub.View()), r, auto, env)
    {
      hide NameUsable, AllBusy, Planned, Consistent, DataSeen, Remove, Activate, ValidName, AutoNamed, Answers,
        PlannedExactly;
      var p;
      p, auto := Plan(r);
      EstablishedAnswers(configuration, View(), pubSub.View(), r, auto, env);
      if p.None? {
        return None, auto;
      }
      var plan := p.value;
      var ok := BringUp(plan, env.socketOk);
      if !ok {
        return None, auto;
      }
      if plan.name !in endpoints && !env.nodesOk {
        pubSub.RemoveDynamic(plan.endpoint.ownerTag);
        poisoned := poisoned + {plan.name};
        return None, auto;
      }
      var shown := if plan.name in endpoints then endpoints[plan.name].status else Initial;
      endpoints := endpoints[plan.name := plan.endpoint.(active := true, status := shown)];
      var status := Operational;
      if plan.SubscriberPlan? {
        var seen := pubSub.ReaderDataSeen(plan.endpoint.ownerTag);
        status := if seen then Operational else PreOperational;
      }
      endpoints := endpoints[plan.name := endpoints[plan.name].(status := status)];
      id := Some(plan.name);
    }

    method CloseConnections(name: Text) returns (ok: bool)
      requires Consistent(pubSub.View())
      modifies this, pubSub
      ensures ok == (old(started) && name in old(endpoints) && old(endpoints)[name].active)
      ensures Consistent(pubSub.View())
      ensures View() == if ok then Closed(old(View()), name) else old(View())
      ensures pubSub.View() == if ok then Remove(old(pubSub.View()), old(endpoints)[name].ownerTag)
                               else old(pubSub.View())
      ensures ok ==>
        && started && EndpointsClosed(old(View()), {name}, View())
        && Cleared(old(pubSub.View()), {old(endpoints)[name].ownerTag}, pubSub.View())
    {
      hide Consistent, ReadersWithoutTag, WithoutTag, Usage, Cleared;
      if !started || name !in endpoints || !endpoints[name].active {
        return false;
      }
      RemoveClears(pubSub.View(), endpoints[name].ownerTag);
      pubSub.RemoveDynamic(endpoints[name].ownerTag);
      endpoints := endpoints[name := endpoints[name].(active := false, status := Initial)];
      ok := true;
    }

    /** Closes every active connection, in whatever order, and stops. */
    method Shutdown()
      requires Consistent(pubSub.View())
      modifies this, pubSub
      ensures Consistent(pubSub.View())
      ensures old(started) ==>
        && View() == AllClosed(old(View()), ActiveNames(old(View()))).(started := false)
        && pubSub.View() == RemoveAll(old(pubSub.View()), TagsOf(old(View()), ActiveNames(old(View()))))
      ensures !old(started) ==> View() == old(View()) && pubSub.View() == old(pubSub.View())
      ensures old(started) ==>
        && !started && EndpointsClosed(old(View()), (set n | n in old(endpoints) && old(endpoints)[n].active), View())
        && Cleared(old(pubSub.View()), ActiveTags(old(View())), pubSub.View())
    {
      hide Consistent, Usage, Remove, RemoveAll, AllClosed, TagsOf, Cleared, EndpointsClosed, ActiveTags;
      if !started {
        return;
      }
      ShutdownClears(View(), pubSub.View());
      ghost var active := ActiveNames(View());
      var todo := endpoints.Keys;
      assert active == ActiveNames(View()) * todo;
      while todo != {}
        invariant started && todo <= endpoints.Keys && Consistent(pubSub.View())
        invariant ActiveNames(View()) <= todo
        invariant AllClosed(View(), ActiveNames(View())) == AllClosed(old(View()), active)
        invariant RemoveAll(pubSub.View(), TagsOf(View(), ActiveNames(View())))
               == RemoveAll(old(pubSub.View()), TagsOf(old(View()), active))
        decreases todo
      {
        var n :| n in todo;
        todo := todo - {n};
        if endpoints[n].active {
          ghost var before, was := View(), pubSub.View();
          pubSub.RemoveDynamic(endpoints[n].ownerTag);
          endpoints := endpoints[n := endpoints[n].(active := false, status := Initial)];
          ShutdownStep(before, was, n);
        }
      }
      NothingToClose(View(), pubSub.View());
      started := false;
    }
  }

  /** Closing one of the active connections leaves the rest of a shutdown to be done. */
  lemma ShutdownStep(s: FxModel.State, ps: PubSubModel.State, n: Text)
    requires n in ActiveNames(s)
    ensures var s', ps' := Closed(s, n), Remove(ps, s.endpoints[n].ownerTag);
      && ActiveNames(s') == ActiveNames(s) - {n}
      && AllClosed(s', ActiveNames(s')) == AllClosed(s, ActiveNames(s))
      && RemoveAll(ps', TagsOf(s', ActiveNames(s'))) == RemoveAll(ps, TagsOf(s, ActiveNames(s)))
  {
    hide Remove, RemoveAll, AllClosed, TagsOf;
    assert ActiveNames(Closed(s, n)) == ActiveNames(s) - {n};
    AllClosedStep(s, n, ActiveNames(s));
    TagsOfStep(s, n, ActiveNames(s));
    RemoveAllStep(ps, s.endpoints[n].ownerTag, TagsOf(Closed(s, n), ActiveNames(s) - {n}));
  }

  /** What a shutdown leaves, by the endpoints and tags that are active before it. */
  lemma ShutdownClears(s: FxModel.State, ps: PubSubModel.State)
    requires Consistent(ps)
    ensures EndpointsClosed(s, (set n | n in s.endpoints && s.endpoints[n].active),
                            AllClosed(s, ActiveNames(s)).(started := false))
    ensures Cleared(ps, ActiveTags(s), RemoveAll(ps, TagsOf(s, ActiveNames(s))))
  {
    hide Cleared, Consistent;
    assert ActiveNames(s) == set n | n in s.endpoints && s.endpoints[n].active;
    forall t
      ensures t in TagsOf(s, ActiveNames(s)) <==> t in ActiveTags(s)
    {
    }
    assert TagsOf(s, ActiveNames(s)) == ActiveTags(s);
    RemoveAllClears(ps, ActiveTags(s));
  }

  lemma NothingToClose(s: FxModel.State, ps: PubSubModel.State)
    requires ActiveNames(s) == {}
    ensures AllClosed(s, ActiveNames(s)) == s && RemoveAll(ps, TagsOf(s, ActiveNames(s))) == ps
  {
    hide Usage, WithoutTags;
  }

  lemma ActivateKeepsConsistent(ps: PubSubModel.State, p: FxModel.Plan, socketOk: bool)
    requires Consistent(ps)
    ensures Activate(ps, p, socketOk).Some? ==> Consistent(Activate(ps, p, socketOk).value)
  {
    hide Consistent;
    if Activate(ps, p, socketOk).Some? {
      match p
      case PublisherPlan(_, _, group, count) => AddGroupKeepsConsistent(ps, group, count, socketOk);
      case SubscriberPlan(_, _, key, _, count) => AddReaderKeepsConsistent(ps, key, PlanReader(p), count, socketOk);
    }
  }

  /**
   A refused establish changes nothing: not the endpoint table, not the Pub/Sub groups, readers and
   receivers; the only trace is at most one poisoned name, which is no key of the table.
   */
  lemma RefusedEstablishIsNoOp(
    c: Configuration, s: FxModel.State, ps: PubSubModel.State, r: Request, auto: Option<Text>, env: Outcome)
    requires Consistent(ps)
    requires Planned(c, s, r, auto).Some? ==> TagUnused(ps, Planned(c, s, r, auto).value.endpoint.ownerTag)
    ensures var (s', ps', id) := Established(c, s, ps, r, auto, env);
      id.None? ==>
        && ps' == ps && s'.started == s.started && s'.endpoints == s.endpoints
        && (s'.poisoned == s.poisoned
            || exists n :: n !in s.endpoints && s'.poisoned == s.poisoned + {n})
  {
    hide Consistent, Remove, Usage, DataSeen, NameUsable, Busy;
    if Planned(c, s, r, auto).Some? {
      var p := Planned(c, s, r, auto).value;
      if Activate(ps, p, env.socketOk).Some? {
        PlanTag(c, s, r, auto);
        match p
        case PublisherPlan(_, _, group, count) => AddGroupUndone(ps, group, count, env.socketOk);
        case SubscriberPlan(_, _, key, _, count) => AddReaderUndone(ps, key, PlanReader(p), count, env.socketOk);
      }
    }
  }

  lemma PlanTag(c: Configuration, s: FxModel.State, r: Request, auto: Option<Text>)
    ensures var p := Planned(c, s, r, auto);
      p.Some? && p.value.PublisherPlan? ==> p.value.group.ownerTag == p.value.endpoint.ownerTag
  {
    hide NameUsable, Busy, OwnerTag, FindEntity, FindDataset, ValidName;
  }

  /** Nothing is in the containers under this tag. */
  predicate TagUnused(ps: PubSubModel.State, tag: Text) {
    && (forall i :: 0 <= i < |ps.groups| ==> ps.groups[i].ownerTag != tag)
    && (forall k :: k in ps.readers ==> ps.readers[k].ownerTag != tag)
  }

  // ---------------------------------------------------------------- what a call does, by its request

  lemma {:induction false} FirstEntityFound(entities: seq<Entity>, name: Text, i: int)
    requires FirstEntity(entities, name, i)
    ensures FindEntity(entities, name) == Some(entities[i])
  {
    if i > 0 {
      FirstEntityFound(entities[1..], name, i - 1);
    }
  }

  lemma {:induction false} FoundEntityIsFirst(entities: seq<Entity>, name: Text) returns (i: int)
    requires FindEntity(entities, name).Some?
    ensures FirstEntity(entities, name, i) && FindEntity(entities, name) == Some(entities[i])
  {
    if entities[0].name == name {
      i := 0;
    } else {
      i := FoundEntityIsFirst(entities[1..], name);
      i := i + 1;
    }
  }

  lemma {:induction false} FirstDatasetFound(datasets: seq<Dataset>, name: Text, j: int)
    requires FirstDataset(datasets, name, j)
    ensures FindDataset(datasets, name) == Some(datasets[j])
  {
    if j > 0 {
      FirstDatasetFound(datasets[1..], name, j - 1);
    }
  }

  lemma {:induction false} FoundDatasetIsFirst(datasets: seq<Dataset>, name: Text) returns (j: int)
    requires FindDataset(datasets, name).Some?
    ensures FirstDataset(datasets, name, j) && FindDataset(datasets, name) == Some(datasets[j])
  {
    if datasets[0].name == name {
      j := 0;
    } else {
      j := FoundDatasetIsFirst(datasets[1..], name);
      j := j + 1;
    }
  }

  /** The dataset that the searches find is the one that the request asks for. */
  lemma RequestedIsFound(c: Configuration, r: Request, d: Dataset)
    ensures Requested(c, r, d) <==>
      && r.role.Some? && FindEntity(c.entities, r.entity).Some?
      && FindDataset(DatasetsFor(FindEntity(c.entities, r.entity).value, r.role.value), r.dataset) == Some(d)
  {
    hide FindEntity, FindDataset;
    if Requested(c, r, d) {
      var i, j :|
        && FirstEntity(c.entities, r.entity, i)
        && FirstDataset(DatasetsFor(c.entities[i], r.role.value), r.dataset, j)
        && d == DatasetsFor(c.entities[i], r.role.value)[j];
      FirstEntityFound(c.entities, r.entity, i);
      FirstDatasetFound(DatasetsFor(c.entities[i], r.role.value), r.dataset, j);
    }
    if r.role.Some? && FindEntity(c.entities, r.entity).Some? {
      var e := FindEntity(c.entities, r.entity).value;
      var datasets := DatasetsFor(e, r.role.value);
      if FindDataset(datasets, r.dataset) == Some(d) {
        var i := FoundEntityIsFirst(c.entities, r.entity);
        var j := FoundDatasetIsFirst(datasets, r.dataset);
      }
    }
  }

  lemma TagSpelled(c: Configuration, r: Request, name: Text)
    ensures OwnerTag(c.component, r.entity, name) == Tag(c, r, name)
  {
    assert Ascii("fx:") == TAG_PREFIX;
    assert Ascii("/") == [SLASH];
  }

  lemma NameFreeIsUsable(s: FxModel.State, entity: Text, name: Text)
    ensures NameUsable(s, entity, name) <==> NameFree(s, entity, name)
  {
    assert EndpointsOf(s.endpoints, entity) == set n | n in s.endpoints && s.endpoints[n].entity == entity;
  }

  lemma ConnectedIsBusy(s: FxModel.State, r: Request)
    requires r.role.Some?
    ensures Busy(s.endpoints, r.entity, r.role.value, r.dataset) <==> Connected(s, r)
  {
  }

  /** The name under which a request is checked. */
  lemma PlannedName(r: Request, auto: Option<Text>, name: Text)
    ensures NamedBy(r, auto, name) <==>
      match r.connectionName
      case Absent => auto == Some(name)
      case Malformed => false
      case Given(n) => n == name && ValidName(n)
  {
  }

  /** A request of the role that asks for what the role allows. */
  ghost predicate MembersFit(r: Request) {
    && r.address.Some? && r.role.Some?
    && (if r.role.value.Publisher? then r.peer.Absent? && !r.publishingInterval.Malformed? && !r.ttl.Malformed?
        else r.peer.Given? && r.publishingInterval.Absent? && r.ttl.Absent?)
  }

  /** A plan is made exactly for what is asked for, free and not connected yet. */
  ghost predicate Plannable(c: Configuration, s: FxModel.State, r: Request, name: Text, d: Dataset) {
    && s.started && MembersFit(r) && Requested(c, r, d) && NameFree(s, r.entity, name) && !Connected(s, r)
  }

  /** What the plan of such a request says. */
  ghost predicate PlanSays(c: Configuration, r: Request, name: Text, d: Dataset, p: FxModel.Plan)
    requires MembersFit(r)
  {
    var tag := Tag(c, r, name);
    && p.name == name && p.endpoint == Endpoint(r.entity, r.dataset, r.role.value, tag, false, Initial)
    && match p
       case PublisherPlan(_, _, group, count) =>
         && r.role.value.Publisher? && count == d.fieldCount
         && group == WriterGroup(GroupKey(d.writerGroupId, c.publisherIdType, c.publisherId), tag)
       case SubscriberPlan(_, _, key, at, count) =>
         r.role.value.Subscriber? && count == d.fieldCount && key == r.peer.value && at == r.address.value
  }

  lemma PlannedMeans(c: Configuration, s: FxModel.State, r: Request, auto: Option<Text>) returns (d: Dataset)
    requires Planned(c, s, r, auto).Some?
    ensures var p := Planned(c, s, r, auto).value;
      NamedBy(r, auto, p.name) && Plannable(c, s, r, p.name, d) && PlanSays(c, r, p.name, d, p)
  {
    hide NameUsable, Busy, OwnerTag, FindEntity, FindDataset, ValidName, Requested, NameFree, Connected, Tag, NamedBy;
    var p := Planned(c, s, r, auto).value;
    var e := FindEntity(c.entities, r.entity).value;
    d := FindDataset(DatasetsFor(e, r.role.value), r.dataset).value;
    RequestedIsFound(c, r, d);
    NameFreeIsUsable(s, r.entity, p.name);
    ConnectedIsBusy(s, r);
    PlannedName(r, auto, p.name);
    TagSpelled(c, r, p.name);
  }

  lemma PlannableIsPlanned(c: Configuration, s: FxModel.State, r: Request, auto: Option<Text>, name: Text, d: Dataset)
    requires NamedBy(r, auto, name) && Plannable(c, s, r, name, d)
    ensures Planned(c, s, r, auto).Some? && PlanSays(c, r, name, d, Planned(c, s, r, auto).value)
  {
    hide NameUsable, Busy, OwnerTag, FindEntity, FindDataset, ValidName, Requested, NameFree, Connected, Tag, NamedBy;
    RequestedIsFound(c, r, d);
    NameFreeIsUsable(s, r.entity, name);
    ConnectedIsBusy(s, r);
    PlannedName(r, auto, name);
    TagSpelled(c, r, name);
  }

  /** The data plane comes up exactly when the engine runs, there are fields, and nothing is in the way. */
  ghost predicate Activatable(c: Configuration, ps: PubSubModel.State, r: Request, d: Dataset, socketOk: bool)
    requires MembersFit(r)
  {
    && ps.running && d.fieldCount > 0
    && (if r.role.value.Publisher? then PublisherFits(c, ps, r, d, socketOk) else SubscriberFits(ps, r, socketOk))
  }

  lemma ActivatedMeans(
    c: Configuration, ps: PubSubModel.State, r: Request, name: Text, d: Dataset, p: FxModel.Plan, socketOk: bool)
    requires MembersFit(r) && PlanSays(c, r, name, d, p)
    ensures Activate(ps, p, socketOk).Some? <==> Activatable(c, ps, r, d, socketOk)
    ensures Activate(ps, p, socketOk).Some? ==>
      ps.running && DataPlaneAdded(c, ps, r, name, d, Activate(ps, p, socketOk).value)
  {
    hide Tag;
  }

  lemma AcceptedIsBoth(
    c: Configuration, s: FxModel.State, ps: PubSubModel.State, r: Request, name: Text, d: Dataset, socketOk: bool)
    ensures Accepted(c, s, ps, r, name, d, socketOk)
      <==> Plannable(c, s, r, name, d) && Activatable(c, ps, r, d, socketOk)
  {
    hide NameFree, Connected;
  }

  /** All positions one further. */
  function Further(idx: seq<nat>): (r: seq<nat>)
    ensures |r| == |idx| && forall i :: 0 <= i < |idx| ==> r[i] == idx[i] + 1
  {
    seq(|idx|, i requires 0 <= i < |idx| => idx[i] + 1)
  }

  lemma ListsFurther(idx: seq<nat>, k: nat)
    requires Lists(idx, k)
    ensures Lists(Further(idx), k + 1) && Lists([0] + Further(idx), k + 1)
  {
    var i :| 0 <= i < |idx| && idx[i] == k;
    assert Further(idx)[i] == k + 1 && ([0] + Further(idx))[i + 1] == k + 1;
  }

  lemma DroppedBehind(g: WriterGroup, groups: seq<WriterGroup>, tags: set<Text>, idx: seq<nat>, groups': seq<WriterGroup>)
    requires KeptGroups(groups, tags, idx, groups') && g.ownerTag in tags
    ensures KeptGroups([g] + groups, tags, Further(idx), groups')
  {
    hide Lists;
    var all := [g] + groups;
    forall k | 0 <= k < |all| && all[k].ownerTag !in tags
      ensures Lists(Further(idx), k)
    {
      assert all[k] == groups[k - 1];
      ListsFurther(idx, k - 1);
    }
  }

  lemma KeptBehind(g: WriterGroup, groups: seq<WriterGroup>, tags: set<Text>, idx: seq<nat>, groups': seq<WriterGroup>)
    requires KeptGroups(groups, tags, idx, groups') && g.ownerTag !in tags
    ensures KeptGroups([g] + groups, tags, [0] + Further(idx), [g] + groups')
  {
    hide Lists;
    var all, idx' := [g] + groups, [0] + Further(idx);
    forall k | 0 <= k < |all| && all[k].ownerTag !in tags
      ensures Lists(idx', k)
    {
      if k > 0 {
        assert all[k] == groups[k - 1];
        ListsFurther(idx, k - 1);
      } else {
        ListsFirst(idx');
      }
    }
  }

  lemma ListsFirst(idx: seq<nat>)
    requires |idx| > 0
    ensures Lists(idx, idx[0])
  {
  }

  /** The groups without the tags are those, in order, that do not carry any of them. */
  lemma {:induction false} WithoutTagsKeeps(groups: seq<WriterGroup>, tags: set<Text>) returns (idx: seq<nat>)
    ensures KeptGroups(groups, tags, idx, WithoutTags(groups, tags))
  {
    hide KeptGroups;
    if groups == [] {
      idx := [];
      NothingKept(tags);
    } else {
      var rest := WithoutTagsKeeps(groups[1..], tags);
      assert [groups[0]] + groups[1..] == groups;
      if groups[0].ownerTag in tags {
        DroppedBehind(groups[0], groups[1..], tags, rest, WithoutTags(groups[1..], tags));
        idx := Further(rest);
        assert WithoutTags(groups, tags) == [] + WithoutTags(groups[1..], tags) == WithoutTags(groups[1..], tags);
      } else {
        KeptBehind(groups[0], groups[1..], tags, rest, WithoutTags(groups[1..], tags));
        idx := [0] + Further(rest);
      }
    }
  }

  lemma NothingKept(tags: set<Text>)
    ensures KeptGroups([], tags, [], [])
  {
  }

  lemma {:induction false} WithoutOneTag(groups: seq<WriterGroup>, tag: Text)
    ensures WithoutTag(groups, tag) == WithoutTags(groups, {tag})
  {
    if groups != [] {
      WithoutOneTag(groups[1..], tag);
    }
  }

  /** The receivers are those that the remaining readers need. */
  lemma UsageCounts(readers: map<ReaderKey, Reader>, at: ReceiverKey)
    ensures at in Usage(readers) <==> exists k :: k in readers && readers[k].at == at
    ensures at in Usage(readers) ==> Usage(readers)[at] == |set k | k in readers && readers[k].at == at|
  {
    assert ReadersAt(readers, at) == set k | k in readers && readers[k].at == at;
  }

  /** Removing everything under some tags clears them. */
  lemma RemoveAllClears(ps: PubSubModel.State, tags: set<Text>)
    requires Consistent(ps) || tags != {}
    ensures Cleared(ps, tags, RemoveAll(ps, tags))
  {
    hide Usage, KeptGroups;
    if ps.running {
      var after := RemoveAll(ps, tags);
      var idx := WithoutTagsKeeps(ps.groups, tags);
      WithoutNoTags(ps.groups);
      assert KeptGroups(ps.groups, tags, idx, after.groups);
      assert after.receivers == Usage(after.readers);
      forall at
        ensures at in after.receivers <==> exists k :: k in after.readers && after.readers[k].at == at
        ensures at in after.receivers ==>
          after.receivers[at] == |set k | k in after.readers && after.readers[k].at == at|
      {
        UsageCounts(after.readers, at);
      }
    }
  }

  lemma RemoveClears(ps: PubSubModel.State, tag: Text)
    ensures Cleared(ps, {tag}, Remove(ps, tag))
  {
    hide Cleared, Usage;
    WithoutOneTag(ps.groups, tag);
    if ps.running {
      assert ReadersWithoutTag(ps.readers, tag) == ReadersWithoutTags(ps.readers, {tag});
      assert Remove(ps, tag) == RemoveAll(ps, {tag});
    }
    RemoveAllClears(ps, {tag});
  }

  lemma StoredEndpoint(
    c: Configuration, s: FxModel.State, ps': PubSubModel.State, r: Request, name: Text, d: Dataset, p: FxModel.Plan)
    requires MembersFit(r) && PlanSays(c, r, name, d, p)
    requires ps'.running
    ensures var status := if p.SubscriberPlan? && !DataSeen(ps', p.endpoint.ownerTag) then PreOperational else Operational;
      EndpointStored(c, s, ps', r, name, WithStatus(Stored(s, p), p.name, status))
  {
    hide Tag;
  }

  /** A plan is made exactly for a plannable request, and says what the request asks for. */
  ghost predicate PlannedExactly(
    c: Configuration, s: FxModel.State, r: Request, auto: Option<Text>, p: Option<FxModel.Plan>)
  {
    if p.Some? then
      NamedBy(r, auto, p.value.name) && exists d ::
        Plannable(c, s, r, p.value.name, d) && PlanSays(c, r, p.value.name, d, p.value)
    else forall name, d :: NamedBy(r, auto, name) ==> !Plannable(c, s, r, name, d)
  }

  lemma PlannedAsAsked(c: Configuration, s: FxModel.State, r: Request)
    ensures forall auto :: PlannedExactly(c, s, r, auto, Planned(c, s, r, auto))
  {
    hide Planned, Plannable, PlanSays, NamedBy;
    forall auto
      ensures PlannedExactly(c, s, r, auto, Planned(c, s, r, auto))
    {
      if Planned(c, s, r, auto).Some? {
        var d := PlannedMeans(c, s, r, auto);
      } else {
        forall name, d | NamedBy(r, auto, name)
          ensures !Plannable(c, s, r, name, d)
        {
          if Plannable(c, s, r, name, d) {
            PlannableIsPlanned(c, s, r, auto, name, d);
          }
        }
      }
    }
  }

  /** A lesser name than the least so far is less than all that are not. */
  lemma LessThanAll(least: Option<Text>, name: Text)
    requires least.Some? ==> Less(name, least.value)
    ensures least.Some? ==> forall n :: n == least.value || Less(least.value, n) ==> Less(name, n)
  {
    if least.Some? {
      forall n | n == least.value || Less(least.value, n)
        ensures Less(name, n)
      {
        if n != least.value {
          LessIsTransitive(name, least.value, n);
        }
      }
    }
  }

  /** An establish call that is not interleaved with anything answers as its request deserves. */
  lemma EstablishedAnswers(
    c: Configuration, s: FxModel.State, ps: PubSubModel.State, r: Request, auto: Option<Text>, env: Outcome)
    ensures var (s', ps', id) := Established(c, s, ps, r, auto, env);
      Answers(c, s, ps, r, auto, env, s', ps', id)
  {
    hide Planned, Activate, Plannable, Activatable, Accepted, NamedBy, DataPlaneAdded, Cleared, Remove, Tag, DataSeen;
    var (s', ps', id) := Established(c, s, ps, r, auto, env);
    if Planned(c, s, r, auto).None? {
      forall name, d | NamedBy(r, auto, name)
        ensures !Accepted(c, s, ps, r, name, d, env.socketOk)
      {
        AcceptedIsBoth(c, s, ps, r, name, d, env.socketOk);
        if Plannable(c, s, r, name, d) {
          PlannableIsPlanned(c, s, r, auto, name, d);
        }
      }
    } else {
      var p := Planned(c, s, r, auto).value;
      var d := PlannedMeans(c, s, r, auto);
      PlanFits(c, s, r, p.name, d);
      ActivatedMeans(c, ps, r, p.name, d, p, env.socketOk);
      AcceptedIsBoth(c, s, ps, r, p.name, d, env.socketOk);
      if Activate(ps, p, env.socketOk).None? {
        OtherwiseRefused(c, s, ps, r, auto, p.name, d, env);
      } else {
        var up := Activate(ps, p, env.socketOk).value;
        StillRunning(c, ps, r, p.name, d, up);
        if id.None? {
          RemoveClears(up, p.endpoint.ownerTag);
          assert LosesName(c, s, ps, r, env, p.name, d, up, s', ps');
        } else {
          StoredEndpoint(c, s, up, r, p.name, d, p);
          assert Establishes(c, s, ps, r, env, p.name, d, s', ps');
        }
      }
    }
  }

  lemma PlanFits(c: Configuration, s: FxModel.State, r: Request, name: Text, d: Dataset)
    requires Plannable(c, s, r, name, d)
    ensures MembersFit(r) && Requested(c, r, d)
  {
  }

  lemma StillRunning(c: Configuration, ps: PubSubModel.State, r: Request, name: Text, d: Dataset, ps': PubSubModel.State)
    requires MembersFit(r) && DataPlaneAdded(c, ps, r, name, d, ps')
    ensures ps'.running == ps.running
  {
  }

  /** One name and one dataset are asked for, so that no other could be accepted. */
  lemma OtherwiseRefused(
    c: Configuration, s: FxModel.State, ps: PubSubModel.State, r: Request, auto: Option<Text>, name: Text, d: Dataset,
    env: Outcome)
    requires NamedBy(r, auto, name) && Requested(c, r, d) && !Accepted(c, s, ps, r, name, d, env.socketOk)
    ensures Refuses(c, s, ps, r, auto, env)
  {
    hide FindEntity, FindDataset, NameFree, Connected, PublisherFits, SubscriberFits, Requested;
    forall name', d' | NamedBy(r, auto, name')
      ensures !Accepted(c, s, ps, r, name', d', env.socketOk)
    {
      RequestedIsFound(c, r, d);
      RequestedIsFound(c, r, d');
      assert name' == name;
    }
  }
}
