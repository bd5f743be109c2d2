/**
 The FX engine: its configuration, its table of connection endpoints, and the decisions of
 EstablishConnections and CloseConnections.
 */
module FxModel {
  import opened Bytes
  import opened Wrappers
  import opened Decimal
  import opened WireFormat
  import opened PubSubModel

  const MAX_ENDPOINTS_PER_ENTITY := 64
  const MAX_NAME_LENGTH := 64

  const SLASH: byte := 0x2F
  /** "fx:" */
  const TAG_PREFIX: Text := [0x66, 0x78, 0x3A]
  /** "cep-" */
  const AUTO_PREFIX: Text := [0x63, 0x65, 0x70, 0x2D]

  datatype Role = Publisher | Subscriber

  /** The status values of OPC 10000-81, section 10.17, that an endpoint shows. */
  datatype EndpointStatus = Initial | PreOperational | Operational

  datatype Dataset = Dataset(name: Text, writerGroupId: uint16, dataSetWriterId: uint16, fieldCount: nat)

  datatype Entity = Entity(name: Text, outputs: seq<Dataset>, inputs: seq<Dataset>)

  datatype Configuration = Configuration(
    component: Text, publisherIdType: PublisherIdType, publisherId: uint64, entities: seq<Entity>)

  /** An endpoint. Its nodes are permanent; `status` is the value of its status variable. */
  datatype Endpoint = Endpoint(
    entity: Text, dataset: Text, role: Role, ownerTag: Text, active: bool, status: EndpointStatus)

  datatype State = State(started: bool, endpoints: map<Text, Endpoint>, poisoned: set<Text>)

  /** An optional member of a request. */
  datatype Field<+T> = Absent | Malformed | Given(value: T)

  /** A connection request whose required members are strings and whose members are all known. */
  datatype Request = Request(
    entity: Text,
    role: Option<Role>,
    dataset: Text,
    address: Option<ReceiverKey>,
    connectionName: Field<Text>,
    publishingInterval: Field<()>,
    ttl: Field<()>,
    peer: Field<ReaderKey>)

  /** What the environment lets happen during a call. */
  datatype Outcome = Outcome(socketOk: bool, nodesOk: bool)

  function OwnerTag(component: Text, entity: Text, name: Text): Text {
    TAG_PREFIX + component + [SLASH] + entity + [SLASH] + name
  }

  predicate ValidName(name: Text) {
    && 0 < |name| <= MAX_NAME_LENGTH
    && forall i :: 0 <= i < |name| ==> name[i] >= 0x20 && name[i] != 0x7F
  }

  function FindEntity(entities: seq<Entity>, name: Text): (r: Option<Entity>)
    ensures r.Some? ==> r.value in entities && r.value.name == name
    ensures r.None? ==> forall i :: 0 <= i < |entities| ==> entities[i].name != name
  {
    if entities == [] then None
    else if entities[0].name == name then Some(entities[0])
    else FindEntity(entities[1..], name)
  }

  function FindDataset(datasets: seq<Dataset>, name: Text): (r: Option<Dataset>)
    ensures r.Some? ==> r.value in datasets && r.value.name == name
  {
    if datasets == [] then None
    else if datasets[0].name == name then Some(datasets[0])
    else FindDataset(datasets[1..], name)
  }

  function EndpointsOf(endpoints: map<Text, Endpoint>, entity: Text): set<Text> {
    set n | n in endpoints && endpoints[n].entity == entity
  }

  predicate Busy(endpoints: map<Text, Endpoint>, entity: Text, role: Role, dataset: Text) {
    exists n :: n in endpoints && endpoints[n].active && endpoints[n].entity == entity
      && endpoints[n].role == role && endpoints[n].dataset == dataset
  }

  function AutoName(n: nat): Text {
    AUTO_PREFIX + DigitsOf(n)
  }

  /** A name under which the entity can establish a connection, as far as the endpoint table goes. */
  predicate NameUsable(s: State, entity: Text, name: Text) {
    && name !in s.poisoned
    && (if name in s.endpoints then !s.endpoints[name].active && s.endpoints[name].entity == entity
        else |EndpointsOf(s.endpoints, entity)| < MAX_ENDPOINTS_PER_ENTITY)
  }

  predicate AllBusy(s: State, entity: Text) {
    && |EndpointsOf(s.endpoints, entity)| >= MAX_ENDPOINTS_PER_ENTITY
    && forall n :: n in s.endpoints && s.endpoints[n].entity == entity ==> s.endpoints[n].active
  }

  /** What a connection will be once it is established: its data plane and its endpoint. */
  datatype Plan =
    | PublisherPlan(name: Text, endpoint: Endpoint, group: WriterGroup, fieldCount: nat)
    | SubscriberPlan(name: Text, endpoint: Endpoint, key: ReaderKey, at: ReceiverKey, targetCount: nat)

  function PlanReader(p: Plan): Reader
    requires p.SubscriberPlan?
  {
    Reader(p.endpoint.ownerTag, p.at, Some(p.name), false, false)
  }

  /**
   The checks of an establish request before anything is changed. `auto` is the automatic name,
   used when the request names none; None refuses the request.
   */
  function Planned(c: Configuration, s: State, r: Request, auto: Option<Text>): (p: Option<Plan>)
    ensures p.Some? ==> (p.value.PublisherPlan? <==> p.value.endpoint.role.Publisher?)
  {
    if !s.started then None
    else
      var entity :- FindEntity(c.entities, r.entity);
      var role :- r.role;
      var name :- (match r.connectionName
                   case Absent => auto
                   case Malformed => None
                   case Given(n) => if ValidName(n) then Some(n) else None);
      if !NameUsable(s, r.entity, name) || Busy(s.endpoints, r.entity, role, r.dataset) then None
      else
        var at :- r.address;
        var endpoint := Endpoint(r.entity, r.dataset, role, OwnerTag(c.component, r.entity, name), false, Initial);
        match role
        case Publisher => PlannedPublisher(c, r, entity, name, endpoint)
        case Subscriber => PlannedSubscriber(r, entity, name, endpoint, at)
  }

  function PlannedPublisher(c: Configuration, r: Request, entity: Entity, name: Text, endpoint: Endpoint): (p: Option<Plan>)
    ensures p.Some? ==> p.value.PublisherPlan?
  {
    if !r.peer.Absent? || r.publishingInterval.Malformed? || r.ttl.Malformed? then None
    else
      var dataset :- FindDataset(entity.outputs, r.dataset);
      var key := GroupKey(dataset.writerGroupId, c.publisherIdType, c.publisherId);
      Some(PublisherPlan(name, endpoint, WriterGroup(key, endpoint.ownerTag), dataset.fieldCount))
  }

  function PlannedSubscriber(r: Request, entity: Entity, name: Text, endpoint: Endpoint, at: ReceiverKey): (p: Option<Plan>)
    ensures p.Some? ==> p.value.SubscriberPlan?
  {
    if !r.publishingInterval.Absent? || !r.ttl.Absent? || !r.peer.Given? then None
    else
      var dataset :- FindDataset(entity.inputs, r.dataset);
      Some(SubscriberPlan(name, endpoint, r.peer.value, at, dataset.fieldCount))
  }

  /** Brings up the data plane of a plan, or refuses and changes nothing. */
  function Activate(ps: PubSubModel.State, p: Plan, socketOk: bool): Option<PubSubModel.State> {
    match p
    case PublisherPlan(_, _, group, count) => AddGroup(ps, group, count, socketOk)
    case SubscriberPlan(_, _, key, _, count) => AddReader(ps, key, PlanReader(p), count, socketOk)
  }

  /** Stores the endpoint of a plan as active. */
  function Stored(s: State, p: Plan): State {
    s.(endpoints := s.endpoints[p.name := p.endpoint.(active := true, status := StatusBefore(s, p))])
  }

  /** The status variable of a reused endpoint still shows what it showed; a new one shows Initial. */
  function StatusBefore(s: State, p: Plan): EndpointStatus {
    if p.name in s.endpoints then s.endpoints[p.name].status else Initial
  }

  function WithStatus(s: State, name: Text, status: EndpointStatus): State
    requires name in s.endpoints
  {
    s.(endpoints := s.endpoints[name := s.endpoints[name].(status := status)])
  }

  function Closed(s: State, name: Text): State
    requires name in s.endpoints
  {
    s.(endpoints := s.endpoints[name := s.endpoints[name].(active := false, status := Initial)])
  }

  function ActiveNames(s: State): set<Text> {
    set n | n in s.endpoints && s.endpoints[n].active
  }

  /** All of these endpoints closed. */
  function AllClosed(s: State, names: set<Text>): State {
    s.(endpoints := map n | n in s.endpoints ::
         if n in names then s.endpoints[n].(active := false, status := Initial) else s.endpoints[n])
  }

  /** The owner tags of these endpoints. */
  function TagsOf(s: State, names: set<Text>): set<Text> {
    set n | n in names && n in s.endpoints :: s.endpoints[n].ownerTag
  }

  lemma AllClosedStep(s: State, n: Text, names: set<Text>)
    requires n in names && n in s.endpoints
    ensures AllClosed(Closed(s, n), names - {n}) == AllClosed(s, names)
  {
  }

  lemma TagsOfStep(s: State, n: Text, names: set<Text>)
    requires n in names && n in s.endpoints
    ensures TagsOf(Closed(s, n), names - {n}) + {s.endpoints[n].ownerTag} == TagsOf(s, names)
  {
    var after := Closed(s, n);
    forall t
      ensures t in TagsOf(after, names - {n}) + {s.endpoints[n].ownerTag} <==> t in TagsOf(s, names)
    {
      if t in TagsOf(s, names) {
        var m :| m in names && m in s.endpoints && s.endpoints[m].ownerTag == t;
        assert m == n || (m in names - {n} && after.endpoints[m].ownerTag == t);
      }
      if t in TagsOf(after, names - {n}) {
        var m :| m in names - {n} && m in after.endpoints && after.endpoints[m].ownerTag == t;
        assert s.endpoints[m].ownerTag == t;
      }
    }
  }

  function Poisoned(s: State, name: Text): State {
    s.(poisoned := s.poisoned + {name})
  }

  // ---------------------------------------------------------------- owner tags

  /** The entity name continues the other one past a slash, so that names can make up the difference. */
  predicate ExtendsPastSlash(longer: Text, shorter: Text) {
    |longer| > |shorter| && longer[..|shorter| + 1] == shorter + [SLASH]
  }

  /** The rest of the longer entity name is short and clean enough to stand in a connection name. */
  predicate Collidable(longer: Text, shorter: Text) {
    && ExtendsPastSlash(longer, shorter)
    && |longer| - |shorter| - 1 + 2 <= MAX_NAME_LENGTH
    && forall i :: |shorter| < i < |longer| ==> longer[i] >= 0x20 && longer[i] != 0x7F
  }

  /** Entity names that no valid connection names can make collide; names without a slash are. */
  predicate TagSafe(c: Configuration) {
    forall i, j :: 0 <= i < |c.entities| && 0 <= j < |c.entities| ==>
      !Collidable(c.entities[i].name, c.entities[j].name)
  }

  lemma TagSuffix(component: Text, e1: Text, n1: Text, e2: Text, n2: Text)
    ensures OwnerTag(component, e1, n1) == OwnerTag(component, e2, n2)
      <==> e1 + [SLASH] + n1 == e2 + [SLASH] + n2
  {
    var head := TAG_PREFIX + component + [SLASH];
    assert OwnerTag(component, e1, n1) == head + (e1 + [SLASH] + n1);
    assert OwnerTag(component, e2, n2) == head + (e2 + [SLASH] + n2);
    assert (head + (e1 + [SLASH] + n1))[|head|..] == e1 + [SLASH] + n1;
    assert (head + (e2 + [SLASH] + n2))[|head|..] == e2 + [SLASH] + n2;
  }

  lemma TagForcesExtension(longer: Text, n1: Text, shorter: Text, n2: Text)
    requires longer + [SLASH] + n1 == shorter + [SLASH] + n2
    requires ValidName(n1) && ValidName(n2) && |longer| > |shorter|
    ensures Collidable(longer, shorter)
  {
    var s := longer + [SLASH] + n1;
    assert s == longer + ([SLASH] + n1);
    assert s[..|shorter| + 1] == longer[..|shorter| + 1];
    assert s[..|shorter| + 1] == shorter + [SLASH];
    assert s[|shorter| + 1..] == n2;
    assert |n2| == |longer| - |shorter| + |n1|;
    forall i | |shorter| < i < |longer|
      ensures longer[i] >= 0x20 && longer[i] != 0x7F
    {
      assert longer[i] == s[i] == n2[i - |shorter| - 1];
    }
  }

  lemma SameLengthHeads(a: Text, x: Text, b: Text, y: Text)
    requires a + x == b + y && |a| == |b|
    ensures a == b
  {
    assert a == (a + x)[..|a|] && b == (b + y)[..|b|];
  }

  lemma ExtensionHasSlash(longer: Text, shorter: Text)
    ensures ExtendsPastSlash(longer, shorter) ==> SLASH in longer
  {
    if ExtendsPastSlash(longer, shorter) {
      assert longer[|shorter|] == (shorter + [SLASH])[|shorter|];
    }
  }

  /** Owner tags of two entities can coincide exactly when one entity name extends the other so. */
  lemma TagsCollideExactly(component: Text, e1: Text, e2: Text)
    requires e1 != e2
    ensures (exists n1, n2 :: ValidName(n1) && ValidName(n2)
               && OwnerTag(component, e1, n1) == OwnerTag(component, e2, n2))
      <==> Collidable(e1, e2) || Collidable(e2, e1)
  {
    forall n1, n2 | ValidName(n1) && ValidName(n2) && OwnerTag(component, e1, n1) == OwnerTag(component, e2, n2)
      ensures Collidable(e1, e2) || Collidable(e2, e1)
    {
      TagSuffix(component, e1, n1, e2, n2);
      if |e1| > |e2| {
        TagForcesExtension(e1, n1, e2, n2);
      } else if |e2| > |e1| {
        TagForcesExtension(e2, n2, e1, n1);
      } else {
        assert e1 + [SLASH] + n1 == e1 + ([SLASH] + n1) && e2 + [SLASH] + n2 == e2 + ([SLASH] + n2);
        SameLengthHeads(e1, [SLASH] + n1, e2, [SLASH] + n2);
      }
    }
    if Collidable(e1, e2) {
      var n1, n2 := CollidingNames(component, e1, e2);
    }
    if Collidable(e2, e1) {
      var n2, n1 := CollidingNames(component, e2, e1);
    }
  }

  lemma CollidingNames(component: Text, longer: Text, shorter: Text) returns (n1: Text, n2: Text)
    requires Collidable(longer, shorter)
    ensures ValidName(n1) && ValidName(n2)
    ensures OwnerTag(component, longer, n1) == OwnerTag(component, shorter, n2)
  {
    n1 := [0x61];
    n2 := longer[|shorter| + 1..] + [SLASH] + n1;
    assert longer == shorter + [SLASH] + longer[|shorter| + 1..];
    assert shorter + [SLASH] + n2 == longer + [SLASH] + n1;
    TagSuffix(component, longer, n1, shorter, n2);
  }

  /** Within a tag-safe configuration an owner tag names one entity and one connection. */
  lemma TagsInjective(c: Configuration, i: nat, n1: Text, j: nat, n2: Text)
    requires TagSafe(c) && i < |c.entities| && j < |c.entities|
    requires ValidName(n1) && ValidName(n2)
    requires OwnerTag(c.component, c.entities[i].name, n1) == OwnerTag(c.component, c.entities[j].name, n2)
    ensures c.entities[i].name == c.entities[j].name && n1 == n2
  {
    var e1, e2 := c.entities[i].name, c.entities[j].name;
    TagSuffix(c.component, e1, n1, e2, n2);
    if e1 != e2 {
      TagsCollideExactly(c.component, e1, e2);
    } else {
      assert (e1 + [SLASH] + n1)[|e1| + 1..] == n1;
      assert (e1 + [SLASH] + n2)[|e1| + 1..] == n2;
    }
  }

  /** Entity names without a slash make a configuration tag-safe. */
  lemma NoSlashIsTagSafe(c: Configuration)
    requires forall i :: 0 <= i < |c.entities| ==> SLASH !in c.entities[i].name
    ensures TagSafe(c)
  {
    forall i, j | 0 <= i < |c.entities| && 0 <= j < |c.entities|
      ensures !Collidable(c.entities[i].name, c.entities[j].name)
    {
      ExtensionHasSlash(c.entities[i].name, c.entities[j].name);
    }
  }

  // ---------------------------------------------------------------- automatic names

  lemma AutoNamesDiffer(m: nat, n: nat)
    requires AutoName(m) == AutoName(n)
    ensures m == n
  {
    assert AutoName(m)[|AUTO_PREFIX|..] == DigitsOf(m);
    assert AutoName(n)[|AUTO_PREFIX|..] == DigitsOf(n);
    DigitsInjective(m, n);
  }

  /** Among the first `bound` automatic names, more than there are unavailable ones, one is available. */
  lemma {:induction false} Pigeonhole(taken: set<Text>, bound: nat) returns (n: nat)
    requires bound > |taken|
    ensures 1 <= n <= bound && AutoName(n) !in taken
    decreases bound
  {
    if AutoName(bound) !in taken {
      n := bound;
    } else {
      var rest := taken - {AutoName(bound)};
      n := Pigeonhole(rest, bound - 1);
      if AutoName(n) in taken {
        AutoNamesDiffer(n, bound);
      }
    }
  }

  lemma {:induction false} DigitsLength(n: nat, k: nat)
    requires n < Pow10(k) && k > 0
    ensures |DigitsOf(n)| <= k
    decreases k
  {
    if n >= 10 {
      DigitsLength(n / 10, k - 1);
    }
  }

  function Pow10(k: nat): nat {
    if k == 0 then 1 else 10 * Pow10(k - 1)
  }

  lemma Pow10Values()
    ensures Pow10(20) == 100_000_000_000_000_000_000
  {
    assert Pow10(5) == 100_000;
    assert Pow10(10) == 10_000_000_000;
    assert Pow10(15) == 1_000_000_000_000_000;
  }

  /** Automatic names are valid connection names, up to the largest number that a size holds. */
  lemma AutoNameValid(n: nat)
    requires n < 0x1_0000_0000_0000_0000
    ensures ValidName(AutoName(n))
  {
    hide DigitsOf;
    Pow10Values();
    DigitsLength(n, 20);
  }
}
