/**
 The thread pool: a bounded list of jobs, some of them with a mutex that no two of them may run under
 at a time, and workers that each take the first job whose mutex is free.
 */
module ThreadPool {
  import opened Wrappers

  type Mutex = nat

  /** A job, numbered in the order of acceptance. */
  datatype Job = Job(id: nat, mutex: Option<Mutex>)

  predicate Runnable(j: Job, locked: set<Mutex>) {
    j.mutex.None? || j.mutex.value !in locked
  }

  /** The index of the first job that can run now, or the length of the list. */
  function FirstRunnable(pending: seq<Job>, locked: set<Mutex>): (k: nat)
    ensures k <= |pending|
    ensures k < |pending| ==> Runnable(pending[k], locked)
    ensures forall i :: 0 <= i < k ==> !Runnable(pending[i], locked)
  {
    if pending == [] || Runnable(pending[0], locked) then 0
    else 1 + FirstRunnable(pending[1..], locked)
  }

  function Without(pending: seq<Job>, k: nat): seq<Job>
    requires k < |pending|
  {
    pending[..k] + pending[k + 1..]
  }

  function Locking(locked: set<Mutex>, j: Job): set<Mutex> {
    if j.mutex.Some? then locked + {j.mutex.value} else locked
  }

  function Unlocking(locked: set<Mutex>, j: Job): set<Mutex> {
    if j.mutex.Some? then locked - {j.mutex.value} else locked
  }

  ghost predicate Blocked(j: Job, locked: set<Mutex>) {
    exists m :: m in locked && j.mutex == Some(m)
  }

  /**
   What taking a duty does: the job taken is the first that is not blocked, its mutex is held in addition,
   and the others stay in their order; without such a job nothing changes.
   */
  ghost predicate Takes(
    pending: seq<Job>, locked: set<Mutex>, duty: Option<Job>, pending': seq<Job>, locked': set<Mutex>)
  {
    match duty
    case None =>
      && (forall i :: 0 <= i < |pending| ==> Blocked(pending[i], locked))
      && pending' == pending && locked' == locked
    case Some(job) =>
      && |pending'| + 1 == |pending|
      && (exists k ::
            && 0 <= k < |pending| && pending[k] == job && !Blocked(job, locked)
            && (forall i :: 0 <= i < k ==> Blocked(pending[i], locked) && pending'[i] == pending[i])
            && (forall i :: k < i < |pending| ==> pending'[i - 1] == pending[i]))
      && (forall m :: m in locked' <==> m in locked || job.mutex == Some(m))
  }

  /** The pool's list as its methods change it, each under the access lock. */
  class Pool {
    const maxJobs: nat
    var pending: seq<Job>
    var locked: set<Mutex>
    var accepted: nat
    var finished: nat

    constructor (maxJobs: nat)
      ensures this.maxJobs == maxJobs && pending == [] && locked == {} && accepted == 0 && finished == 0
    {
      this.maxJobs := maxJobs;
      pending, locked, accepted, finished := [], {}, 0, 0;
    }

    /**
     Takes the first job that has no mutex or a free one, and locks that. Jobs before it stay, and
     all of those have their mutex held; if there is none to take, nothing changes.
     */
    method FindSomeDuty() returns (duty: Option<Job>)
      modifies this`pending, this`locked
      ensures var k := FirstRunnable(old(pending), old(locked));
        if k == |old(pending)| then duty.None? && pending == old(pending) && locked == old(locked)
        else
          && duty == Some(old(pending)[k]) && pending == Without(old(pending), k)
          && locked == Locking(old(locked), old(pending)[k])
      ensures Takes(old(pending), old(locked), duty, pending, locked)
    {
      var i := 0;
      while i < |pending|
        invariant i <= |pending| && pending == old(pending) && locked == old(locked)
        invariant forall j :: 0 <= j < i ==> !Runnable(pending[j], locked)
      {
        var job := pending[i];
        if job.mutex.None? {
          FirstIsUnique(pending, locked, i);
          pending := pending[..i] + pending[i + 1..];
          return Some(job);
        } else if job.mutex.value !in locked {
          FirstIsUnique(pending, locked, i);
          locked := locked + {job.mutex.value};
          pending := pending[..i] + pending[i + 1..];
          return Some(job);
        }
        i := i + 1;
      }
      duty := None;
    }

    method AddJob(mutex: Option<Mutex>) returns (ok: bool)
      modifies this`pending, this`accepted
      ensures ok == (|old(pending)| < maxJobs)
      ensures ok ==> pending == old(pending) + [Job(old(accepted), mutex)] && accepted == old(accepted) + 1
      ensures !ok ==> pending == old(pending) && accepted == old(accepted)
    {
      if |pending| >= maxJobs {
        return false;
      }
      pending := pending + [Job(accepted, mutex)];
      accepted := accepted + 1;
      ok := true;
    }

    method Finish(job: Job)
      modifies this`locked, this`finished
      ensures locked == Unlocking(old(locked), job) && finished == old(finished) + 1
      ensures forall m :: m in locked <==> m in old(locked) && job.mutex != Some(m)
    {
      if job.mutex.Some? {
        locked := locked - {job.mutex.value};
      }
      finished := finished + 1;
    }
  }

  lemma FirstIsUnique(pending: seq<Job>, locked: set<Mutex>, k: nat)
    requires k < |pending| && Runnable(pending[k], locked)
    requires forall i :: 0 <= i < k ==> !Runnable(pending[i], locked)
    ensures FirstRunnable(pending, locked) == k
  {
  }

  // ---------------------------------------------------------------- workers, step by step

  /**
   Where a worker stands. A worker that is Ending has given its mutex back once and has yet to end
   its iteration, where the duty's own lock is destroyed and gives the mutex back a second time.
   */
  datatype Worker = Idle | Executing(job: Job) | Releasing(job: Job) | Ending(job: Job) | Returned

  /** `twice` is the code as it is; without it a mutex is given back once, as the code intends. */
  datatype Setup = Setup(maxThreads: nat, maxJobs: nat, twice: bool)

  datatype State = State(
    pending: seq<Job>, workers: seq<Worker>, locked: set<Mutex>, quit: bool,
    accepted: seq<Job>, started: seq<Job>, executed: seq<Job>, dropped: seq<Job>)

  datatype Action =
    | Add(mutex: Option<Mutex>)
    | Grab(worker: nat)
    | Execute(worker: nat)
    | Release(worker: nat)
    | End(worker: nat)
    | Quit
    | Leave(worker: nat)
    | Destroy

  function Initial(c: Setup): State {
    State([], seq(c.maxThreads, _ => Idle), {}, false, [], [], [], [])
  }

  function Grabbed(s: State, w: nat, k: nat): State
    requires w < |s.workers| && k < |s.pending|
  {
    var j := s.pending[k];
    s.(pending := Without(s.pending, k), workers := s.workers[w := Executing(j)],
       locked := Locking(s.locked, j), started := s.started + [j])
  }

  function Step(c: Setup, s: State, a: Action): Option<State> {
    match a
    case Add(m) =>
      if |s.pending| >= c.maxJobs then Some(s)
      else
        var j := Job(|s.accepted|, m);
        Some(s.(pending := s.pending + [j], accepted := s.accepted + [j]))
    case Grab(w) =>
      if w >= |s.workers| || !s.workers[w].Idle? || s.quit then None
      else
        var k := FirstRunnable(s.pending, s.locked);
        if k == |s.pending| then Some(s) else Some(Grabbed(s, w, k))
    case Execute(w) =>
      if w >= |s.workers| || !s.workers[w].Executing? then None
      else Some(s.(workers := s.workers[w := Releasing(s.workers[w].job)], executed := s.executed + [s.workers[w].job]))
    case Release(w) =>
      if w >= |s.workers| || !s.workers[w].Releasing? then None
      else Some(s.(workers := s.workers[w := if c.twice then Ending(s.workers[w].job) else Idle],
                   locked := Unlocking(s.locked, s.workers[w].job)))
    case End(w) =>
      if w >= |s.workers| || !s.workers[w].Ending? then None
      else Some(s.(workers := s.workers[w := Idle], locked := Unlocking(s.locked, s.workers[w].job)))
    case Quit => Some(s.(quit := true))
    case Leave(w) =>
      if w >= |s.workers| || !s.workers[w].Idle? || !s.quit then None
      else Some(s.(workers := s.workers[w := Returned]))
    case Destroy =>
      if !s.quit || exists w :: 0 <= w < |s.workers| && !s.workers[w].Returned? then None
      else Some(s.(pending := [], dropped := s.dropped + s.pending))
  }

  function Run(c: Setup, s: State, actions: seq<Action>): Option<State> {
    if actions == [] then Some(s)
    else
      var before :- Run(c, s, actions[..|actions| - 1]);
      Step(c, before, actions[|actions| - 1])
  }

  ghost predicate Reachable(c: Setup, s: State) {
    exists actions :: Run(c, Initial(c), actions) == Some(s)
  }

  // ---------------------------------------------------------------- exclusion

  /** The mutex that a worker runs its job under. */
  function Holds(w: Worker): Option<Mutex> {
    if w.Executing? || w.Releasing? then w.job.mutex else None
  }

  predicate Overlap(s: State, i: nat, j: nat) {
    i < j < |s.workers| && Holds(s.workers[i]).Some? && Holds(s.workers[i]) == Holds(s.workers[j])
  }

  /** No two workers are busy under the same mutex. */
  predicate Exclusive(s: State) {
    forall i, j :: 0 <= i < |s.workers| && 0 <= j < |s.workers| && i != j && Holds(s.workers[i]).Some? ==>
      Holds(s.workers[i]) != Holds(s.workers[j])
  }

  predicate Held(s: State, m: Mutex) {
    exists i :: 0 <= i < |s.workers| && Holds(s.workers[i]) == Some(m)
  }

  /** The locked mutexes are exactly those that some worker runs under, one worker each. */
  predicate LocksOk(s: State) {
    && Exclusive(s)
    && (forall i :: 0 <= i < |s.workers| && Holds(s.workers[i]).Some? ==> Holds(s.workers[i]).value in s.locked)
    && (forall i :: 0 <= i < |s.workers| ==> !s.workers[i].Ending?)
    && (forall m :: m in s.locked ==> Held(s, m))
  }

  lemma LocksKept(c: Setup, s: State, a: Action)
    requires !c.twice && LocksOk(s) && Step(c, s, a).Some?
    ensures LocksOk(Step(c, s, a).value)
  {
    hide Without, Held;
    var next := Step(c, s, a).value;
    forall m | m in next.locked
      ensures Held(next, m)
    {
      HeldKept(c, s, a, m);
    }
  }

  lemma HeldKept(c: Setup, s: State, a: Action, m: Mutex)
    requires !c.twice && LocksOk(s) && Step(c, s, a).Some? && m in Step(c, s, a).value.locked
    ensures Held(Step(c, s, a).value, m)
  {
    hide Without, Exclusive;
    var next := Step(c, s, a).value;
    if m in s.locked {
      var i :| 0 <= i < |s.workers| && Holds(s.workers[i]) == Some(m);
      assert Holds(next.workers[i]) == Some(m);
    } else {
      assert Holds(next.workers[a.worker]) == Some(m);
    }
  }

  /** No worker: nothing runs. One worker: nothing runs beside it. No room: nothing is ever accepted. */
  predicate Idling(s: State) {
    s.pending == [] && forall i :: 0 <= i < |s.workers| ==> s.workers[i].Idle? || s.workers[i].Returned?
  }

  predicate ExclusionInv(c: Setup, s: State) {
    && |s.workers| == c.maxThreads
    && (!c.twice ==> LocksOk(s))
    && (c.maxJobs == 0 ==> Idling(s))
  }

  lemma {:induction false} ExclusionHolds(c: Setup, actions: seq<Action>)
    requires Run(c, Initial(c), actions).Some?
    ensures ExclusionInv(c, Run(c, Initial(c), actions).value)
  {
    hide LocksOk, Without;
    if actions == [] {
      InitiallyLocksOk(c);
    } else {
      var front, last := actions[..|actions| - 1], actions[|actions| - 1];
      ExclusionHolds(c, front);
      var s := Run(c, Initial(c), front).value;
      if !c.twice {
        LocksKept(c, s, last);
      }
    }
  }

  lemma InitiallyLocksOk(c: Setup)
    ensures LocksOk(Initial(c))
  {
  }

  /** With a second release, two workers and room for one job are enough to run two jobs under one mutex. */
  lemma SecondReleaseBreaksExclusion(c: Setup) returns (actions: seq<Action>)
    requires c.twice && c.maxThreads >= 2 && c.maxJobs >= 1
    ensures Run(c, Initial(c), actions).Some? && Overlap(Run(c, Initial(c), actions).value, 0, 1)
  {
    var m := Some(0);
    var s0 := Initial(c);
    // Worker 0 runs a job and gives its mutex back for the first time.
    var a1 := [Add(m), Grab(0), Execute(0), Release(0)];
    var j := Job(0, m);
    var s1 := s0.(workers := s0.workers[0 := Ending(j)], accepted := [j], started := [j], executed := [j]);
    FirstTurn(c);
    // Worker 1 takes the mutex; worker 0 ends its iteration and gives away what is no longer its own.
    var s2 := s1.(pending := [Job(1, m)], accepted := [Job(0, m)] + [Job(1, m)]);
    assert s1.pending + [Job(1, m)] == [Job(1, m)];
    RunThen(c, s0, a1, Add(m));
    assert Run(c, s0, a1 + [Add(m)]) == Some(s2);
    var s3 := Grabbed(s2, 1, 0);
    RunThen(c, s0, a1 + [Add(m)], Grab(1));
    assert Run(c, s0, a1 + [Add(m)] + [Grab(1)]) == Some(s3);
    RunThen(c, s0, a1 + [Add(m)] + [Grab(1)], End(0));
    var a2 := a1 + [Add(m)] + [Grab(1)] + [End(0)];
    var s4 := s3.(workers := s3.workers[0 := Idle], locked := {});
    assert Run(c, s0, a2) == Some(s4);
    // Worker 0 finds the mutex free.
    RunThen(c, s0, a2, Add(m));
    RunThen(c, s0, a2 + [Add(m)], Grab(0));
    actions := a2 + [Add(m)] + [Grab(0)];
  }

  lemma FirstTurn(c: Setup)
    requires c.twice && c.maxThreads >= 2 && c.maxJobs >= 1
    ensures var s0, j := Initial(c), Job(0, Some(0));
      Run(c, s0, [Add(Some(0)), Grab(0), Execute(0), Release(0)])
        == Some(s0.(workers := s0.workers[0 := Ending(j)], accepted := [j], started := [j], executed := [j]))
  {
    var s0, j := Initial(c), Job(0, Some(0));
    RunOne(c, s0, Add(Some(0)));
    var s1 := s0.(pending := [j], accepted := [j]);
    RunThen(c, s0, [Add(Some(0))], Grab(0));
    var s2 := Grabbed(s1, 0, 0);
    RunThen(c, s0, [Add(Some(0))] + [Grab(0)], Execute(0));
    var s3 := s2.(workers := s2.workers[0 := Releasing(j)], executed := [j]);
    RunThen(c, s0, [Add(Some(0))] + [Grab(0)] + [Execute(0)], Release(0));
    assert [Add(Some(0))] + [Grab(0)] + [Execute(0)] + [Release(0)] == [Add(Some(0)), Grab(0), Execute(0), Release(0)];
    assert s3.workers[0 := Ending(j)] == s0.workers[0 := Ending(j)];
  }

  lemma RunOne(c: Setup, s: State, a: Action)
    ensures Run(c, s, [a]) == Step(c, s, a)
  {
    hide Step;
    assert [a][..0] == [];
    assert Run(c, s, []) == Some(s);
  }

  lemma RunThen(c: Setup, s: State, actions: seq<Action>, a: Action)
    requires Run(c, s, actions).Some?
    ensures Run(c, s, actions + [a]) == Step(c, Run(c, s, actions).value, a)
  {
    hide Step;
    assert (actions + [a])[..|actions|] == actions;
  }

  /**
   Exclusion, exactly. No reachable state has two busy workers under one mutex if and only if a mutex
   is given back once, or there is at most one worker, or the pool accepts no job at all.
   */
  lemma ExclusionExactly(c: Setup)
    ensures (forall s :: Reachable(c, s) ==> Exclusive(s)) <==> !c.twice || c.maxThreads <= 1 || c.maxJobs == 0
  {
    hide Run, Initial;
    if !c.twice || c.maxThreads <= 1 || c.maxJobs == 0 {
      forall s | Reachable(c, s)
        ensures Exclusive(s)
      {
        var actions :| Run(c, Initial(c), actions) == Some(s);
        ExclusionHolds(c, actions);
      }
    } else {
      var actions := SecondReleaseBreaksExclusion(c);
      assert Reachable(c, Run(c, Initial(c), actions).value);
    }
  }

  // ---------------------------------------------------------------- order

  /** The jobs of one mutex, or those of none. */
  function Under(jobs: seq<Job>, m: Option<Mutex>): seq<Job> {
    if jobs == [] then []
    else Under(jobs[..|jobs| - 1], m) + if jobs[|jobs| - 1].mutex == m then [jobs[|jobs| - 1]] else []
  }

  lemma UnderOne(jobs: seq<Job>, j: Job, m: Option<Mutex>)
    ensures Under(jobs + [j], m) == Under(jobs, m) + if j.mutex == m then [j] else []
  {
    assert (jobs + [j])[..|jobs|] == jobs;
  }

  lemma {:induction false} UnderAppend(a: seq<Job>, b: seq<Job>, m: Option<Mutex>)
    ensures Under(a + b, m) == Under(a, m) + Under(b, m)
  {
    if b == [] {
      assert a + b == a;
    } else {
      UnderAppend(a, b[..|b| - 1], m);
      assert (a + b)[..|a + b| - 1] == a + b[..|b| - 1];
    }
  }

  lemma {:induction false} NoneUnder(jobs: seq<Job>, m: Option<Mutex>)
    requires forall i :: 0 <= i < |jobs| ==> jobs[i].mutex != m
    ensures Under(jobs, m) == []
  {
    if jobs == [] {
    } else {
      NoneUnder(jobs[..|jobs| - 1], m);
    }
  }

  /** Taking the first runnable job takes the first of its mutex. */
  lemma TakenIsFirst(pending: seq<Job>, locked: set<Mutex>, m: Option<Mutex>)
    requires FirstRunnable(pending, locked) < |pending|
    ensures var k := FirstRunnable(pending, locked);
      Under(pending, m) == (if pending[k].mutex == m then [pending[k]] else []) + Under(Without(pending, k), m)
  {
    hide Under;
    var k := FirstRunnable(pending, locked);
    var front, rest := pending[..k], pending[k + 1..];
    assert pending == front + [pending[k]] + rest;
    UnderAppend(front + [pending[k]], rest, m);
    UnderOne(front, pending[k], m);
    UnderAppend(front, rest, m);
    if pending[k].mutex == m {
      NoneUnder(front, m);
    }
  }

  /** What has been accepted is what has started, then what waits, then what was dropped, mutex by mutex. */
  predicate InOrder(s: State, m: Option<Mutex>) {
    Under(s.accepted, m) == Under(s.started, m) + Under(s.dropped, m) + Under(s.pending, m)
  }

  predicate Flow(c: Setup, s: State) {
    && |s.workers| == c.maxThreads && |s.pending| <= c.maxJobs
    && (s.dropped != [] ==> AllReturned(s))
  }

  predicate AllReturned(s: State) {
    s.quit && forall w :: 0 <= w < |s.workers| ==> s.workers[w].Returned?
  }

  lemma OrderKept(c: Setup, s: State, a: Action, m: Option<Mutex>)
    requires Flow(c, s) && InOrder(s, m) && Step(c, s, a).Some?
    ensures Flow(c, Step(c, s, a).value) && InOrder(Step(c, s, a).value, m)
  {
    hide Under;
    match a
    case Add(mutex) =>
      var j := Job(|s.accepted|, mutex);
      UnderOne(s.accepted, j, m);
      UnderOne(s.pending, j, m);
    case Grab(_) =>
      var k := FirstRunnable(s.pending, s.locked);
      if k < |s.pending| {
        TakenIsFirst(s.pending, s.locked, m);
        UnderOne(s.started, s.pending[k], m);
        NoneUnder([], m);
      }
    case Destroy =>
      UnderAppend(s.dropped, s.pending, m);
      NoneUnder([], m);
    case _ =>
  }

  lemma {:induction false} OrderHolds(c: Setup, actions: seq<Action>, m: Option<Mutex>)
    requires Run(c, Initial(c), actions).Some?
    ensures Flow(c, Run(c, Initial(c), actions).value) && InOrder(Run(c, Initial(c), actions).value, m)
  {
    hide Step, Flow, InOrder;
    if actions == [] {
      InitiallyInOrder(c, m);
    } else {
      OrderHolds(c, actions[..|actions| - 1], m);
      OrderKept(c, Run(c, Initial(c), actions[..|actions| - 1]).value, actions[|actions| - 1], m);
    }
  }

  lemma InitiallyInOrder(c: Setup, m: Option<Mutex>)
    ensures Flow(c, Initial(c)) && InOrder(Initial(c), m)
  {
  }

  /**
   Jobs of one mutex start in the order in which they were accepted, and so do jobs without one; there
   are never more jobs waiting than allowed.
   */
  lemma StartsInOrder(c: Setup, s: State, m: Option<Mutex>)
    requires Reachable(c, s)
    ensures Under(s.started, m) <= Under(s.accepted, m) && |s.pending| <= c.maxJobs
  {
    hide Run, Initial, Under;
    var actions :| Run(c, Initial(c), actions) == Some(s);
    OrderHolds(c, actions, m);
  }

  /** A job is passed over only while its mutex is held, and a free worker never leaves a runnable job. */
  lemma PassedOverOnlyWhileHeld(c: Setup, s: State, w: nat, i: nat)
    requires Reachable(c, s) && !c.twice && Step(c, s, Grab(w)).Some? && i < |s.pending|
    ensures var next := Step(c, s, Grab(w)).value;
      next == s || i < FirstRunnable(s.pending, s.locked) ==> s.pending[i].mutex.Some? && Held(s, s.pending[i].mutex.value)
  {
    hide Run, Initial, Exclusive, Held;
    var actions :| Run(c, Initial(c), actions) == Some(s);
    ExclusionHolds(c, actions);
    var k := FirstRunnable(s.pending, s.locked);
    if k < |s.pending| {
      assert Step(c, s, Grab(w)).value.started != s.started;
    }
  }

  // ---------------------------------------------------------------- conservation

  /** How often a job is in a list. */
  function Times(jobs: seq<Job>, j: Job): nat {
    if jobs == [] then 0 else Times(jobs[..|jobs| - 1], j) + if jobs[|jobs| - 1] == j then 1 else 0
  }

  /** How many workers are at a job that they have not executed yet. */
  function WorkersAt(workers: seq<Worker>, j: Job): nat {
    if workers == [] then 0
    else WorkersAt(workers[..|workers| - 1], j) + if workers[|workers| - 1] == Executing(j) then 1 else 0
  }

  lemma TimesOne(jobs: seq<Job>, x: Job, j: Job)
    ensures Times(jobs + [x], j) == Times(jobs, j) + if x == j then 1 else 0
  {
    assert (jobs + [x])[..|jobs|] == jobs;
  }

  lemma {:induction false} TimesAppend(a: seq<Job>, b: seq<Job>, j: Job)
    ensures Times(a + b, j) == Times(a, j) + Times(b, j)
  {
    if b == [] {
      assert a + b == a;
    } else {
      TimesAppend(a, b[..|b| - 1], j);
      assert (a + b)[..|a + b| - 1] == a + b[..|b| - 1];
    }
  }

  lemma TimesWithout(jobs: seq<Job>, k: nat, j: Job)
    requires k < |jobs|
    ensures Times(Without(jobs, k), j) + (if jobs[k] == j then 1 else 0) == Times(jobs, j)
  {
    hide Times;
    assert jobs == jobs[..k] + [jobs[k]] + jobs[k + 1..];
    TimesAppend(jobs[..k] + [jobs[k]], jobs[k + 1..], j);
    TimesOne(jobs[..k], jobs[k], j);
    TimesAppend(jobs[..k], jobs[k + 1..], j);
  }

  lemma {:induction false} WorkersUpdate(workers: seq<Worker>, w: nat, v: Worker, j: Job)
    requires w < |workers|
    ensures WorkersAt(workers[w := v], j) + (if workers[w] == Executing(j) then 1 else 0)
      == WorkersAt(workers, j) + if v == Executing(j) then 1 else 0
  {
    var last := |workers| - 1;
    if w == last {
      assert workers[w := v][..last] == workers[..last];
    } else {
      assert workers[w := v][..last] == workers[..last][w := v];
      WorkersUpdate(workers[..last], w, v, j);
    }
  }

  lemma {:induction false} NobodyAt(workers: seq<Worker>, j: Job)
    requires forall w :: 0 <= w < |workers| ==> workers[w] != Executing(j)
    ensures WorkersAt(workers, j) == 0
  {
    if workers == [] {
    } else {
      NobodyAt(workers[..|workers| - 1], j);
    }
  }

  /** An accepted job is as often pending, being executed, executed or dropped as it was accepted. */
  predicate Conserved(s: State, j: Job) {
    Times(s.accepted, j)
      == Times(s.pending, j) + WorkersAt(s.workers, j) + Times(s.executed, j) + Times(s.dropped, j)
  }

  predicate Numbered(s: State) {
    forall i :: 0 <= i < |s.accepted| ==> s.accepted[i].id == i
  }

  lemma ConservationKept(c: Setup, s: State, a: Action, j: Job)
    requires Conserved(s, j) && Numbered(s) && Step(c, s, a).Some?
    ensures Conserved(Step(c, s, a).value, j) && Numbered(Step(c, s, a).value)
  {
    hide Times, WorkersAt, Without, Locking, Unlocking;
    match a
    case Add(m) =>
      TimesOne(s.accepted, Job(|s.accepted|, m), j);
      TimesOne(s.pending, Job(|s.accepted|, m), j);
    case Grab(w) =>
      var k := FirstRunnable(s.pending, s.locked);
      if k < |s.pending| {
        WorkersUpdate(s.workers, w, Executing(s.pending[k]), j);
        TimesWithout(s.pending, k, j);
      }
    case Execute(w) =>
      WorkersUpdate(s.workers, w, Releasing(s.workers[w].job), j);
      TimesOne(s.executed, s.workers[w].job, j);
    case Release(w) => WorkersUpdate(s.workers, w, if c.twice then Ending(s.workers[w].job) else Idle, j);
    case End(w) => WorkersUpdate(s.workers, w, Idle, j);
    case Quit =>
    case Leave(w) => WorkersUpdate(s.workers, w, Returned, j);
    case Destroy =>
      TimesAppend(s.dropped, s.pending, j);
      TimesOfNone(j);
  }

  lemma TimesOfNone(j: Job)
    ensures Times([], j) == 0
  {
  }

  lemma {:induction false} ConservationHolds(c: Setup, actions: seq<Action>, j: Job)
    requires Run(c, Initial(c), actions).Some?
    ensures Conserved(Run(c, Initial(c), actions).value, j) && Numbered(Run(c, Initial(c), actions).value)
  {
    hide Step, Conserved, Numbered;
    if actions == [] {
      InitiallyConserved(c, j);
    } else {
      ConservationHolds(c, actions[..|actions| - 1], j);
      ConservationKept(c, Run(c, Initial(c), actions[..|actions| - 1]).value, actions[|actions| - 1], j);
    }
  }

  lemma InitiallyConserved(c: Setup, j: Job)
    ensures Conserved(Initial(c), j) && Numbered(Initial(c))
  {
    NobodyAt(Initial(c).workers, j);
  }

  lemma {:induction false} NumberedOnce(jobs: seq<Job>, j: Job)
    requires forall i :: 0 <= i < |jobs| ==> jobs[i].id == i
    ensures Times(jobs, j) == if j in jobs then 1 else 0
  {
    if jobs == [] {
    } else {
      var front, last := jobs[..|jobs| - 1], jobs[|jobs| - 1];
      NumberedOnce(front, j);
      assert jobs == front + [last];
    }
  }

  /**
   Job conservation. An accepted job is in exactly one place, once: waiting, with one worker, executed,
   or dropped; so it is executed at most once, and a job that was not accepted is nowhere. Jobs are
   dropped only when no worker is at one.
   */
  lemma JobsAreConserved(c: Setup, s: State, j: Job)
    requires Reachable(c, s)
    ensures Times(s.pending, j) + WorkersAt(s.workers, j) + Times(s.executed, j) + Times(s.dropped, j)
      == if j in s.accepted then 1 else 0
    ensures s.dropped != [] ==> WorkersAt(s.workers, j) == 0
  {
    hide Run, Initial, WorkersAt, InOrder, Times;
    var actions :| Run(c, Initial(c), actions) == Some(s);
    ConservationHolds(c, actions, j);
    NumberedOnce(s.accepted, j);
    OrderHolds(c, actions, None);
    if s.dropped != [] {
      NobodyAt(s.workers, j);
    }
  }
}
