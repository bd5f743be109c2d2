/**
 What the calls of the FX engine do, in terms of the request and of what a caller can see before
 and after: which requests are accepted, what stands in the containers afterwards, and what a
 removal leaves. The definitions here use none of the functions that compute these effects.
 */
module ConnectionEffects {
  import opened Bytes
  import opened Wrappers
  import Decimal
  import opened PubSubModel
  import opened FxModel

  // ---------------------------------------------------------------- the request

  ghost predicate FirstEntity(entities: seq<Entity>, name: Text, i: int) {
    0 <= i < |entities| && entities[i].name == name && forall k :: 0 <= k < i ==> entities[k].name != name
  }

  ghost predicate FirstDataset(datasets: seq<Dataset>, name: Text, j: int) {
    0 <= j < |datasets| && datasets[j].name == name && forall k :: 0 <= k < j ==> datasets[k].name != name
  }

  /** A publisher sends one of the entity's outputs, a subscriber receives one of its inputs. */
  function DatasetsFor(e: Entity, role: Role): seq<Dataset> {
    if role.Publisher? then e.outputs else e.inputs
  }

  /** `d` is the dataset that the request asks for. */
  ghost predicate Requested(c: Configuration, r: Request, d: Dataset) {
    && r.role.Some?
    && exists i, j ::
         && FirstEntity(c.entities, r.entity, i)
         && FirstDataset(DatasetsFor(c.entities[i], r.role.value), r.dataset, j)
         && d == DatasetsFor(c.entities[i], r.role.value)[j]
  }

  /** The name that the request gives, from 1 to 64 bytes and no control characters, or else the automatic one. */
  ghost predicate NamedBy(r: Request, auto: Option<Text>, name: Text) {
    match r.connectionName
    case Absent => auto == Some(name)
    case Malformed => false
    case Given(n) => n == name && 1 <= |n| <= 64 && forall i :: 0 <= i < |n| ==> n[i] >= 0x20 && n[i] != 0x7F
  }

  /** A known name has to be a closed endpoint of the entity; for a new one there has to be room. */
  ghost predicate NameFree(s: FxModel.State, entity: Text, name: Text) {
    && name !in s.poisoned
    && (name in s.endpoints ==> !s.endpoints[name].active && s.endpoints[name].entity == entity)
    && (name !in s.endpoints ==> |set n | n in s.endpoints && s.endpoints[n].entity == entity| < 64)
  }

  /** A name that is not lost, and not taken but by a closed endpoint of the entity. */
  ghost predicate Takeable(s: FxModel.State, entity: Text, name: Text) {
    && name !in s.poisoned
    && (name in s.endpoints ==> !s.endpoints[name].active && s.endpoints[name].entity == entity)
  }

  ghost predicate ClosedEndpoint(s: FxModel.State, entity: Text, name: Text) {
    name in s.endpoints && !s.endpoints[name].active && s.endpoints[name].entity == entity
  }

  /** The first closed endpoint of the entity in the order of names, if there is any. */
  ghost predicate LeastClosed(s: FxModel.State, entity: Text, name: Option<Text>) {
    match name
    case None => forall n :: n in s.endpoints ==> !ClosedEndpoint(s, entity, n)
    case Some(least) =>
      && ClosedEndpoint(s, entity, least)
      && forall n :: n in s.endpoints && ClosedEndpoint(s, entity, n) ==> n == least || Less(least, n)
  }

  /** The first of "cep-1", "cep-2", … that can be taken. */
  ghost predicate FirstTakeable(s: FxModel.State, entity: Text, name: Option<Text>) {
    name.Some? && exists n: nat ::
      && n >= 1 && name.value == AutoName(n) && Takeable(s, entity, name.value)
      && forall k :: 1 <= k < n ==> !Takeable(s, entity, AutoName(k))
  }

  /** The automatic name for an entity: a new one while it has fewer than 64 endpoints, then a used one. */
  ghost predicate AutoNamed(s: FxModel.State, entity: Text, name: Option<Text>) {
    if |set n | n in s.endpoints && s.endpoints[n].entity == entity| < 64 then FirstTakeable(s, entity, name)
    else LeastClosed(s, entity, name)
  }

  lemma AutoNameSpelled(n: nat)
    ensures AutoName(n) == Ascii("cep-") + Decimal.DigitsOf(n)
  {
  }

  /** Some active endpoint already connects the dataset in the role. */
  ghost predicate Connected(s: FxModel.State, r: Request) {
    exists n ::
      && n in s.endpoints && s.endpoints[n].active && s.endpoints[n].entity == r.entity
      && s.endpoints[n].dataset == r.dataset && r.role == Some(s.endpoints[n].role)
  }

  /** A publisher names no peer; its writer group must not be in use. */
  ghost predicate PublisherFits(c: Configuration, ps: PubSubModel.State, r: Request, d: Dataset, socketOk: bool) {
    && r.peer.Absent? && !r.publishingInterval.Malformed? && !r.ttl.Malformed?
    && (forall i :: 0 <= i < |ps.groups| ==>
          ps.groups[i].key != GroupKey(d.writerGroupId, c.publisherIdType, c.publisherId))
    && socketOk
  }

  /** A subscriber names a peer that nobody reads yet, and neither interval nor time to live. */
  ghost predicate SubscriberFits(ps: PubSubModel.State, r: Request, socketOk: bool) {
    && r.peer.Given? && r.publishingInterval.Absent? && r.ttl.Absent? && r.address.Some?
    && r.peer.value !in ps.readers
    && (r.address.value in ps.receivers || socketOk)
  }

  /** The request is accepted under this name, as far as its data plane goes. */
  ghost predicate Accepted(
    c: Configuration, s: FxModel.State, ps: PubSubModel.State, r: Request, name: Text, d: Dataset, socketOk: bool)
  {
    && s.started && ps.running && r.address.Some?
    && Requested(c, r, d) && d.fieldCount > 0
    && NameFree(s, r.entity, name) && !Connected(s, r)
    && (if r.role == Some(Publisher) then PublisherFits(c, ps, r, d, socketOk) else SubscriberFits(ps, r, socketOk))
  }

  // ---------------------------------------------------------------- the effect of an establish

  /** "fx:component/entity/name" */
  function Tag(c: Configuration, r: Request, name: Text): Text {
    Ascii("fx:") + c.component + Ascii("/") + r.entity + Ascii("/") + name
  }

  /** The endpoint is stored as active; a subscriber waits for its first data. */
  ghost predicate EndpointStored(
    c: Configuration, s: FxModel.State, ps: PubSubModel.State, r: Request, name: Text, s': FxModel.State)
    requires r.role.Some?
  {
    var dataSeen := exists k :: k in ps.readers && ps.readers[k].ownerTag == Tag(c, r, name) && ps.readers[k].dataSeen;
    var status := if r.role == Some(Subscriber) && !dataSeen then PreOperational else Operational;
    && s'.started == s.started && s'.poisoned == s.poisoned
    && s'.endpoints.Keys == s.endpoints.Keys + {name}
    && (forall n :: n in s.endpoints && n != name ==> s'.endpoints[n] == s.endpoints[n])
    && s'.endpoints[name] == Endpoint(r.entity, r.dataset, r.role.value, Tag(c, r, name), true, status)
  }

  /** The writer group of the dataset is added after the others, under the configured publisher id. */
  ghost predicate GroupAdded(
    c: Configuration, ps: PubSubModel.State, r: Request, name: Text, d: Dataset, ps': PubSubModel.State)
  {
    var key := GroupKey(d.writerGroupId, c.publisherIdType, c.publisherId);
    && ps'.groups == ps.groups + [WriterGroup(key, Tag(c, r, name))]
    && ps'.readers == ps.readers && ps'.receivers == ps.receivers && ps'.running == ps.running
  }

  /** A reader of the peer is added at the requested address, whose receiver has one user more. */
  ghost predicate ReaderAdded(
    c: Configuration, ps: PubSubModel.State, r: Request, name: Text, ps': PubSubModel.State)
    requires r.peer.Given? && r.address.Some?
  {
    var key, at := r.peer.value, r.address.value;
    && ps'.groups == ps.groups && ps'.running == ps.running
    && ps'.readers.Keys == ps.readers.Keys + {key}
    && (forall k :: k in ps.readers && k != key ==> ps'.readers[k] == ps.readers[k])
    && ps'.readers[key] == Reader(Tag(c, r, name), at, Some(name), false, false)
    && ps'.receivers.Keys == ps.receivers.Keys + {at}
    && (forall x :: x in ps.receivers && x != at ==> ps'.receivers[x] == ps.receivers[x])
    && ps'.receivers[at] == (if at in ps.receivers then ps.receivers[at] else 0) + 1
  }

  ghost predicate DataPlaneAdded(
    c: Configuration, ps: PubSubModel.State, r: Request, name: Text, d: Dataset, ps': PubSubModel.State)
    requires r.role.Some? && (r.role.value.Subscriber? ==> r.peer.Given? && r.address.Some?)
  {
    if r.role.value.Publisher? then GroupAdded(c, ps, r, name, d, ps') else ReaderAdded(c, ps, r, name, ps')
  }

  // ---------------------------------------------------------------- the effect of a removal

  ghost predicate Lists(idx: seq<nat>, k: nat) {
    exists i :: 0 <= i < |idx| && idx[i] == k
  }

  /** `idx` lists, in order, the groups that are kept: those whose owner tag is not among `tags`. */
  ghost predicate KeptGroups(groups: seq<WriterGroup>, tags: set<Text>, idx: seq<nat>, groups': seq<WriterGroup>) {
    && |idx| == |groups'|
    && (forall i :: 0 <= i < |idx| ==> idx[i] < |groups| && groups'[i] == groups[idx[i]] && groups'[i].ownerTag !in tags)
    && (forall i, j :: 0 <= i < j < |idx| ==> idx[i] < idx[j])
    && (forall k :: 0 <= k < |groups| && groups[k].ownerTag !in tags ==> Lists(idx, k))
  }

  /** Everything under the tags is gone, all else is as it was, and no receiver is left idle; a stopped engine stays. */
  ghost predicate Cleared(ps: PubSubModel.State, tags: set<Text>, ps': PubSubModel.State) {
    && (!ps.running ==> ps' == ps)
    && (ps.running ==> ps'.running && AllCleared(ps, tags, ps'))
  }

  ghost predicate AllCleared(ps: PubSubModel.State, tags: set<Text>, ps': PubSubModel.State) {
    && (exists idx :: KeptGroups(ps.groups, tags, idx, ps'.groups))
    && (forall k :: k in ps'.readers <==> k in ps.readers && ps.readers[k].ownerTag !in tags)
    && (forall k :: k in ps'.readers ==> ps'.readers[k] == ps.readers[k])
    && (forall at :: at in ps'.receivers <==> exists k :: k in ps'.readers && ps'.readers[k].at == at)
    && (forall at :: at in ps'.receivers ==>
          ps'.receivers[at] == |set k | k in ps'.readers && ps'.readers[k].at == at|)
  }

  /** The owner tags of the active endpoints. */
  function ActiveTags(s: FxModel.State): set<Text> {
    set n | n in s.endpoints && s.endpoints[n].active :: s.endpoints[n].ownerTag
  }

  /** The endpoints of these names are inactive and show Initial; the others are as they were. */
  ghost predicate EndpointsClosed(s: FxModel.State, names: set<Text>, s': FxModel.State) {
    && s'.poisoned == s.poisoned && s'.endpoints.Keys == s.endpoints.Keys
    && forall n :: n in s.endpoints ==>
         s'.endpoints[n] == if n in names then s.endpoints[n].(active := false, status := Initial) else s.endpoints[n]
  }

  // ---------------------------------------------------------------- an establish call

  /** What a successful establish does. */
  ghost predicate Establishes(
    c: Configuration, s: FxModel.State, ps: PubSubModel.State, r: Request, env: Outcome, name: Text, d: Dataset,
    s': FxModel.State, ps': PubSubModel.State)
  {
    && Accepted(c, s, ps, r, name, d, env.socketOk)
    && (name in s.endpoints || env.nodesOk)
    && EndpointStored(c, s, ps', r, name, s') && DataPlaneAdded(c, ps, r, name, d, ps')
  }

  /**
   The request is acceptable, but the nodes of its new endpoint cannot be created: the data plane
   comes up as `mid` and is taken down again, and the name is lost.
   */
  ghost predicate LosesName(
    c: Configuration, s: FxModel.State, ps: PubSubModel.State, r: Request, env: Outcome, name: Text, d: Dataset,
    mid: PubSubModel.State, s': FxModel.State, ps': PubSubModel.State)
  {
    && Accepted(c, s, ps, r, name, d, env.socketOk)
    && name !in s.endpoints && !env.nodesOk
    && DataPlaneAdded(c, ps, r, name, d, mid) && Cleared(mid, {Tag(c, r, name)}, ps')
    && s' == s.(poisoned := s.poisoned + {name})
  }

  /** Under no name is the request acceptable. */
  ghost predicate Refuses(
    c: Configuration, s: FxModel.State, ps: PubSubModel.State, r: Request, auto: Option<Text>, env: Outcome)
  {
    forall name, d :: NamedBy(r, auto, name) ==> !Accepted(c, s, ps, r, name, d, env.socketOk)
  }

  /** An establish call answers `id` and leaves the engines as `s'` and `ps'`. */
  ghost predicate Answers(
    c: Configuration, s: FxModel.State, ps: PubSubModel.State, r: Request, auto: Option<Text>, env: Outcome,
    s': FxModel.State, ps': PubSubModel.State, id: Option<Text>)
  {
    if id.Some? then
      NamedBy(r, auto, id.value) && exists d :: Establishes(c, s, ps, r, env, id.value, d, s', ps')
    else
      || (Refuses(c, s, ps, r, auto, env) && s' == s && ps' == ps)
      || (exists name, d, mid :: NamedBy(r, auto, name) && LosesName(c, s, ps, r, env, name, d, mid, s', ps'))
  }

  /** A call succeeds exactly when its request is acceptable and a new endpoint's nodes can be created. */
  lemma AnsweredExactly(
    c: Configuration, s: FxModel.State, ps: PubSubModel.State, r: Request, auto: Option<Text>, env: Outcome,
    s': FxModel.State, ps': PubSubModel.State, id: Option<Text>)
    requires Answers(c, s, ps, r, auto, env, s', ps', id)
    ensures id.Some? <==> exists name, d ::
      && NamedBy(r, auto, name) && Accepted(c, s, ps, r, name, d, env.socketOk)
      && (name in s.endpoints || env.nodesOk)
  {
    hide Accepted, EndpointStored, DataPlaneAdded, Cleared;
  }
}
