/**
 Reads and writes of source variables over the thread pool. A request is answered at once, when it is
 refused or handled synchronously, or by its job when that is executed.
 */
module SourceRequests {
  import opened Wrappers
  import opened ThreadPool

  /** How a variable handles a request: what is configured for it, and what its delegates give. */
  datatype Request =
    | WithoutDelegate
    | MutexMissing
    | Synchronous
    | Asynchronous(mutex: Option<Mutex>, hasPool: bool)

  datatype Handling = Immediate | ByJob(job: Job)

  /** The pool, the requests so far, the requests that jobs belong to, and the answers given. */
  datatype Desk = Desk(pool: State, requests: seq<Handling>, owner: map<Job, nat>, answers: seq<nat>)

  datatype Action = Submit(request: Request) | InPool(step: ThreadPool.Action)

  function Initial(c: Setup): Desk {
    Desk(ThreadPool.Initial(c), [], map[], [])
  }

  function AnsweredNow(d: Desk): Desk {
    d.(requests := d.requests + [Immediate], answers := d.answers + [|d.requests|])
  }

  function Submitted(c: Setup, d: Desk, r: Request): Desk {
    match r
    case Asynchronous(m, hasPool) =>
      if !hasPool || |d.pool.pending| >= c.maxJobs then AnsweredNow(d)
      else
        var job := Job(|d.pool.accepted|, m);
        d.(pool := ThreadPool.Step(c, d.pool, Add(m)).value,
           requests := d.requests + [ByJob(job)], owner := d.owner[job := |d.requests|])
    case _ => AnsweredNow(d)
  }

  function Step(c: Setup, d: Desk, a: Action): Option<Desk> {
    match a
    case Submit(r) => Some(Submitted(c, d, r))
    case InPool(step) =>
      var next :- ThreadPool.Step(c, d.pool, step);
      if step.Execute? && d.pool.workers[step.worker].job in d.owner then
        Some(d.(pool := next, answers := d.answers + [d.owner[d.pool.workers[step.worker].job]]))
      else Some(d.(pool := next))
  }

  function Run(c: Setup, d: Desk, actions: seq<Action>): Option<Desk> {
    if actions == [] then Some(d)
    else
      var before :- Run(c, d, actions[..|actions| - 1]);
      Step(c, before, actions[|actions| - 1])
  }

  /** How often a request has been answered. */
  function Answered(answers: seq<nat>, r: nat): nat {
    if answers == [] then 0 else Answered(answers[..|answers| - 1], r) + if answers[|answers| - 1] == r then 1 else 0
  }

  lemma AnsweredOne(answers: seq<nat>, x: nat, r: nat)
    ensures Answered(answers + [x], r) == Answered(answers, r) + if x == r then 1 else 0
  {
    assert (answers + [x])[..|answers|] == answers;
  }

  lemma {:induction false} NotAnswered(answers: seq<nat>, r: nat)
    requires forall i :: 0 <= i < |answers| ==> answers[i] < r
    ensures Answered(answers, r) == 0
  {
    if answers == [] {
    } else {
      NotAnswered(answers[..|answers| - 1], r);
    }
  }

  /** How often a request must have been answered: once at once, or as often as its job was executed. */
  function Due(d: Desk, r: nat): nat
    requires r < |d.requests|
  {
    if d.requests[r].Immediate? then 1 else Times(d.pool.executed, d.requests[r].job)
  }

  predicate OwnersOk(d: Desk) {
    && (forall r :: 0 <= r < |d.requests| && d.requests[r].ByJob? ==>
          d.requests[r].job in d.pool.accepted && d.requests[r].job in d.owner && d.owner[d.requests[r].job] == r)
    && (forall j :: j in d.owner ==> d.owner[j] < |d.requests| && d.requests[d.owner[j]] == ByJob(j))
    && (forall i :: 0 <= i < |d.answers| ==> d.answers[i] < |d.requests|)
  }

  predicate AnswersOk(d: Desk) {
    forall r :: 0 <= r < |d.requests| ==> Answered(d.answers, r) == Due(d, r)
  }

  ghost predicate Inv(c: Setup, d: Desk) {
    Reachable(c, d.pool) && OwnersOk(d) && AnswersOk(d)
  }

  lemma StaysReachable(c: Setup, s: State, a: ThreadPool.Action)
    requires Reachable(c, s) && ThreadPool.Step(c, s, a).Some?
    ensures Reachable(c, ThreadPool.Step(c, s, a).value)
  {
    hide ThreadPool.Run, ThreadPool.Step, ThreadPool.Initial;
    var actions :| ThreadPool.Run(c, ThreadPool.Initial(c), actions) == Some(s);
    RunThen(c, ThreadPool.Initial(c), actions, a);
    assert ThreadPool.Run(c, ThreadPool.Initial(c), actions + [a]) == ThreadPool.Step(c, s, a);
  }

  /** A job that is not accepted yet has not been executed. */
  lemma NotExecutedYet(c: Setup, s: State, j: Job)
    requires Reachable(c, s) && j !in s.accepted
    ensures Times(s.executed, j) == 0
  {
    hide Reachable, Times, WorkersAt;
    JobsAreConserved(c, s, j);
  }

  lemma NextNumberIsNew(c: Setup, s: State, m: Option<Mutex>)
    requires Reachable(c, s)
    ensures Job(|s.accepted|, m) !in s.accepted
  {
    hide ThreadPool.Run, ThreadPool.Initial, Conserved;
    var actions :| ThreadPool.Run(c, ThreadPool.Initial(c), actions) == Some(s);
    ConservationHolds(c, actions, Job(0, m));
  }

  lemma SubmitKept(c: Setup, d: Desk, r: Request)
    requires Inv(c, d)
    ensures Inv(c, Submitted(c, d, r))
  {
    hide Reachable, Answered, Times, FirstRunnable;
    var next, n := Submitted(c, d, r), |d.requests|;
    NotAnswered(d.answers, n);
    if next.pool != d.pool {
      StaysReachable(c, d.pool, Add(r.mutex));
      NextNumberIsNew(c, d.pool, r.mutex);
      NotExecutedYet(c, d.pool, Job(|d.pool.accepted|, r.mutex));
    }
    forall q | 0 <= q < |next.requests|
      ensures Answered(next.answers, q) == Due(next, q)
    {
      if next.pool == d.pool {
        AnsweredOne(d.answers, n, q);
      }
      if q < n {
        assert Answered(d.answers, q) == Due(d, q);
      }
    }
  }

  /** Every step of the pool but an execution leaves the executed jobs alone. */
  lemma ExecutedBy(c: Setup, s: State, a: ThreadPool.Action)
    requires ThreadPool.Step(c, s, a).Some?
    ensures ThreadPool.Step(c, s, a).value.executed
      == if a.Execute? then s.executed + [s.workers[a.worker].job] else s.executed
    ensures s.accepted <= ThreadPool.Step(c, s, a).value.accepted
  {
  }

  lemma PoolStepKept(c: Setup, d: Desk, step: ThreadPool.Action)
    requires Inv(c, d) && Step(c, d, InPool(step)).Some?
    ensures Inv(c, Step(c, d, InPool(step)).value)
  {
    hide Reachable, Answered, Times;
    var next := Step(c, d, InPool(step)).value;
    StaysReachable(c, d.pool, step);
    ExecutedBy(c, d.pool, step);
    hide ThreadPool.Step;
    forall r | 0 <= r < |d.requests|
      ensures Answered(next.answers, r) == Due(next, r)
    {
      assert Answered(d.answers, r) == Due(d, r);
      if step.Execute? {
        var job := d.pool.workers[step.worker].job;
        if d.requests[r].ByJob? {
          TimesOne(d.pool.executed, job, d.requests[r].job);
        }
        if job in d.owner {
          AnsweredOne(d.answers, d.owner[job], r);
        }
      }
    }
    forall r | 0 <= r < |d.requests| && d.requests[r].ByJob?
      ensures d.requests[r].job in next.pool.accepted
    {
      assert d.requests[r].job in d.pool.accepted;
    }
  }

  lemma {:induction false} RunKept(c: Setup, actions: seq<Action>)
    requires Run(c, Initial(c), actions).Some?
    ensures Inv(c, Run(c, Initial(c), actions).value)
  {
    hide Inv, ThreadPool.Step;
    if actions == [] {
      InitiallyInv(c);
    } else {
      RunKept(c, actions[..|actions| - 1]);
      var d := Run(c, Initial(c), actions[..|actions| - 1]).value;
      match actions[|actions| - 1]
      case Submit(r) => SubmitKept(c, d, r);
      case InPool(step) => PoolStepKept(c, d, step);
    }
  }

  lemma InitiallyInv(c: Setup)
    ensures Inv(c, Initial(c))
  {
    assert ThreadPool.Run(c, ThreadPool.Initial(c), []) == Some(ThreadPool.Initial(c));
  }

  /** Where a request is while it waits for its answer, or why it will have none. */
  function Unanswered(d: Desk, r: nat): nat
    requires r < |d.requests|
  {
    if d.requests[r].Immediate? then 0
    else
      var job := d.requests[r].job;
      Times(d.pool.pending, job) + WorkersAt(d.pool.workers, job) + Times(d.pool.dropped, job)
  }

  /**
   In every run a request is answered exactly once, unless its job is waiting, with a worker, or among
   those dropped when the pool was destroyed; and then it has not been answered.
   */
  lemma AnsweredExactlyOnce(c: Setup, actions: seq<Action>, r: nat)
    requires Run(c, Initial(c), actions).Some? && r < |Run(c, Initial(c), actions).value.requests|
    ensures var d := Run(c, Initial(c), actions).value;
      Answered(d.answers, r) + Unanswered(d, r) == 1
  {
    hide Run, Reachable, Answered, Times, WorkersAt;
    RunKept(c, actions);
    var d := Run(c, Initial(c), actions).value;
    if d.requests[r].ByJob? {
      JobsAreConserved(c, d.pool, d.requests[r].job);
    }
  }
}
