/**
 The closed-socket protocol of a UDP receiver: every completion of a receive arms the next one, until
 the socket is closed; a completion may be queued at that moment.
 */
module UdpReceiver {
  import opened Bytes
  import opened Wrappers

  /** How an outstanding receive stands. A queued completion has a datagram, or an error and no bytes. */
  datatype Receive = Armed | Aborted | Completed(failed: bool, data: seq<byte>)

  datatype Receiver = Receiver(open: bool, receives: seq<Receive>, delivered: seq<seq<byte>>)

  datatype Action = Complete(i: nat, failed: bool, data: seq<byte>) | Stop | Handle(i: nat)

  /** A receiver that has been started. */
  const Started := Receiver(true, [Armed], [])

  /** Closing the socket aborts the receives that have not completed. */
  function Closed(receives: seq<Receive>): seq<Receive> {
    seq(|receives|, i requires 0 <= i < |receives| => if receives[i].Armed? then Aborted else receives[i])
  }

  /** The completion handler: nothing once aborted or closed; otherwise it delivers, if there is anything, and arms again. */
  function Handled(r: Receiver, i: nat): Receiver
    requires i < |r.receives| && !r.receives[i].Armed?
  {
    var rest := r.receives[..i] + r.receives[i + 1..];
    var done := r.receives[i];
    if done.Aborted? || !r.open then r.(receives := rest)
    else
      r.(receives := rest + [Armed],
         delivered := if !done.failed && done.data != [] then r.delivered + [done.data] else r.delivered)
  }

  function Step(r: Receiver, a: Action): Option<Receiver> {
    match a
    case Complete(i, failed, data) =>
      if i >= |r.receives| || !r.receives[i].Armed? then None
      else Some(r.(receives := r.receives[i := Completed(failed, data)]))
    case Stop => Some(r.(open := false, receives := Closed(r.receives)))
    case Handle(i) =>
      if i >= |r.receives| || r.receives[i].Armed? then None else Some(Handled(r, i))
  }

  function Run(r: Receiver, actions: seq<Action>): Option<Receiver> {
    if actions == [] then Some(r)
    else
      var before :- Run(r, actions[..|actions| - 1]);
      Step(before, actions[|actions| - 1])
  }

  /** An open receiver has exactly one receive, not aborted; a closed one at most one, not armed. */
  predicate Inv(r: Receiver) {
    if r.open then |r.receives| == 1 && !r.receives[0].Aborted?
    else r.receives == [] || (|r.receives| == 1 && !r.receives[0].Armed?)
  }

  /** In every run an open receiver has exactly one receive outstanding. */
  lemma {:induction false} OpenIsArmedOnce(actions: seq<Action>)
    requires Run(Started, actions).Some?
    ensures Inv(Run(Started, actions).value)
  {
    if actions != [] {
      OpenIsArmedOnce(actions[..|actions| - 1]);
    }
  }

  /** After it has been stopped, a receiver delivers nothing, stays closed and arms nothing. */
  lemma {:induction false} StoppedIsSilent(r: Receiver, actions: seq<Action>)
    requires !r.open && (forall i :: 0 <= i < |r.receives| ==> !r.receives[i].Armed?) && Run(r, actions).Some?
    ensures var end := Run(r, actions).value;
      && !end.open && end.delivered == r.delivered && |end.receives| <= |r.receives|
      && forall i :: 0 <= i < |end.receives| ==> !end.receives[i].Armed?
  {
    if actions != [] {
      StoppedIsSilent(r, actions[..|actions| - 1]);
    }
  }

  /** So whatever is queued when a receiver is stopped is dropped. */
  lemma NothingAfterStop(before: seq<Action>, after: seq<Action>)
    requires Run(Started, before).Some? && Run(Step(Run(Started, before).value, Stop).value, after).Some?
    ensures var r := Run(Started, before).value;
      var end := Run(Step(r, Stop).value, after).value;
      !end.open && end.delivered == r.delivered && |end.receives| <= 1
  {
    hide Run;
    OpenIsArmedOnce(before);
    var r := Run(Started, before).value;
    StoppedIsSilent(Step(r, Stop).value, after);
  }
}
