/**
 The FX engine over the Pub/Sub engine, step by step. A caller thread that holds the FX lock works
 through an establish, a close or a shutdown; whenever it needs the Pub/Sub containers it posts a
 task to the io thread and waits. Between those tasks the io thread applies datagrams and signals
 first data, for which it only tries the FX lock. Sockets and nodes may fail to be created.
 */
module ConnectionSteps {
  import opened Bytes
  import opened Wrappers
  import opened PubSubModel
  import opened FxModel

  type Fx = FxModel.State
  type PubSub = PubSubModel.State

  /** Why a connection is being taken down: it is closed, or the engine stops and `todo` is left. */
  datatype After = ForClose | ForShutdown(todo: set<Text>)

  /** Where the holder of the FX lock stands; nobody holds it when Idle. */
  datatype Caller =
    | Idle
    | Adding(plan: Plan)
    | Building(plan: Plan)
    | Undoing(plan: Plan)
    | Reconciling(plan: Plan)
    | Finishing(plan: Plan, status: EndpointStatus)
    | Removing(name: Text, after: After)
    | Removed(name: Text, after: After)
    | Stopping(todo: set<Text>)

  /** The io thread: free for the next task, or about to signal the first data of a reader. */
  datatype Io = Resting | Signalling(key: ReaderKey)

  datatype World = World(fx: Fx, ps: PubSub, caller: Caller, io: Io)

  datatype Action =
    | Begin(request: Request, auto: Option<Text>)
    | Add(socketOk: bool)
    | Build(nodesOk: bool)
    | Undo
    | Reconcile
    | Finish
    | BeginClose(name: Text)
    | BeginShutdown
    | StopNext(name: Text)
    | RemoveNow
    | MarkClosed
    | StopEnd
    | StopPubSub
    | Deliver(key: ReaderKey)
    | Signal

  /** A name that the automatic naming may choose; None when it gives up. */
  predicate AutoChoice(s: Fx, entity: Text, auto: Option<Text>) {
    if auto.Some? then NameUsable(s, entity, auto.value) && ValidName(auto.value) else AllBusy(s, entity)
  }

  function SetReader(ps: PubSub, key: ReaderKey, r: Reader): PubSub {
    ps.(readers := ps.readers[key := r])
  }

  /** The io thread applies a DataSetMessage to the reader `key`. */
  function Delivered(w: World, key: ReaderKey): World
    requires key in w.ps.readers
  {
    var r := w.ps.readers[key];
    w.(ps := SetReader(w.ps, key, r.(dataSeen := true)),
       io := if r.connection.Some? && !r.firstDataSignalled then Signalling(key) else Resting)
  }

  /**
   The first-data callback. It tries the FX lock: if a caller holds it, the callback reports that it
   was not handled, and the next message tries again.
   */
  function Signalled(w: World): World
    requires w.io.Signalling? && w.io.key in w.ps.readers && w.ps.readers[w.io.key].connection.Some?
  {
    var r := w.ps.readers[w.io.key];
    if !w.caller.Idle? then w.(io := Resting)
    else
      var n := r.connection.value;
      var shows := n in w.fx.endpoints && w.fx.endpoints[n].active && w.fx.endpoints[n].role.Subscriber?;
      w.(fx := if shows then WithStatus(w.fx, n, Operational) else w.fx,
         ps := SetReader(w.ps, w.io.key, r.(firstDataSignalled := true)),
         io := Resting)
  }

  /** The next world, if the action can happen now. Posted tasks run only when the io thread rests. */
  function Step(c: Configuration, w: World, a: Action): Option<World> {
    match a
    case Begin(r, auto) =>
      if !w.caller.Idle? || !AutoChoice(w.fx, r.entity, auto) then None
      else
        (match Planned(c, w.fx, r, auto)
         case None => Some(w)
         case Some(p) => Some(w.(caller := Adding(p))))
    case Add(socketOk) =>
      if !w.caller.Adding? || !w.io.Resting? then None
      else
        (match Activate(w.ps, w.caller.plan, socketOk)
         case None => Some(w.(caller := Idle))
         case Some(up) => Some(w.(ps := up, caller := Building(w.caller.plan))))
    case Build(nodesOk) =>
      if !w.caller.Building? then None
      else
        var p := w.caller.plan;
        if p.name !in w.fx.endpoints && !nodesOk then Some(w.(caller := Undoing(p)))
        else Some(w.(fx := Stored(w.fx, p),
                     caller := if p.PublisherPlan? then Finishing(p, Operational) else Reconciling(p)))
    case Undo =>
      if !w.caller.Undoing? || !w.io.Resting? then None
      else
        var p := w.caller.plan;
        Some(w.(fx := Poisoned(w.fx, p.name), ps := Remove(w.ps, p.endpoint.ownerTag), caller := Idle))
    case Reconcile =>
      if !w.caller.Reconciling? || !w.io.Resting? then None
      else
        var p := w.caller.plan;
        Some(w.(caller := Finishing(p, if DataSeen(w.ps, p.endpoint.ownerTag) then Operational else PreOperational)))
    case Finish =>
      if !w.caller.Finishing? || w.caller.plan.name !in w.fx.endpoints then None
      else Some(w.(fx := WithStatus(w.fx, w.caller.plan.name, w.caller.status), caller := Idle))
    case BeginClose(name) =>
      if !w.caller.Idle? || !w.fx.started || name !in ActiveNames(w.fx) then None
      else Some(w.(caller := Removing(name, ForClose)))
    case BeginShutdown =>
      if !w.caller.Idle? || !w.fx.started then None
      else Some(w.(caller := Stopping(ActiveNames(w.fx))))
    case StopNext(name) =>
      if !w.caller.Stopping? || name !in w.caller.todo then None
      else Some(w.(caller := Removing(name, ForShutdown(w.caller.todo - {name}))))
    case RemoveNow =>
      if !w.caller.Removing? || !w.io.Resting? || w.caller.name !in w.fx.endpoints then None
      else Some(w.(ps := Remove(w.ps, w.fx.endpoints[w.caller.name].ownerTag),
                   caller := Removed(w.caller.name, w.caller.after)))
    case MarkClosed =>
      if !w.caller.Removed? || w.caller.name !in w.fx.endpoints then None
      else Some(w.(fx := Closed(w.fx, w.caller.name),
                   caller := if w.caller.after.ForClose? then Idle else Stopping(w.caller.after.todo)))
    case StopEnd =>
      if !w.caller.Stopping? || w.caller.todo != {} then None
      else Some(w.(fx := w.fx.(started := false), caller := Idle))
    case StopPubSub =>
      if !w.caller.Idle? || w.fx.started || !w.io.Resting? then None
      else Some(w.(ps := Stopped(w.ps)))
    case Deliver(key) =>
      if !w.io.Resting? || key !in w.ps.readers then None else Some(Delivered(w, key))
    case Signal =>
      if !w.io.Signalling? || w.io.key !in w.ps.readers || w.ps.readers[w.io.key].connection.None? then None
      else Some(Signalled(w))
  }

  /** The world that a sequence of actions leads to, if they can all happen. */
  function Run(c: Configuration, w: World, actions: seq<Action>): Option<World> {
    if actions == [] then Some(w)
    else
      var before :- Run(c, w, actions[..|actions| - 1]);
      Step(c, before, actions[|actions| - 1])
  }

  /** A reader configured at startup: no owner, and nobody waits for its first data. */
  predicate IsStatic(r: Reader) {
    r.ownerTag == [] && r.connection.None? && !r.firstDataSignalled
  }

  /** Both engines have started; the Pub/Sub engine may hold configured groups and readers. */
  ghost predicate Initially(w: World) {
    && w.fx == FxModel.State(true, map[], {})
    && w.ps.running && Consistent(w.ps)
    && (forall i :: 0 <= i < |w.ps.groups| ==> w.ps.groups[i].ownerTag == [])
    && (forall k :: k in w.ps.readers ==> IsStatic(w.ps.readers[k]))
    && w.caller.Idle? && w.io.Resting?
  }
}
