/**
 Reactive (JIT) mode of the orchestrator: a poller dispatches one task per queued job,
 and any number of tasks share a semaphore, a LIFO slot pool, a set of seen job ids and
 a counter.

 One action is one atomic section of the code: a semaphore operation or a block under
 one lock.  Scheduling is arbitrary, and GitHub may report any job id at any time.
 */
module Jit {
  import opened Wrappers
  import opened Tally

  /** Where a dispatched task stands. */
  datatype Phase =
    | Waiting               // spawned, queued on the semaphore
    | Permitted             // has a permit, has not asked for a slot
    | Slotted(slot: nat)    // has popped a slot
    | Running(slot: nat)    // counted in active_jobs; its VM may be executing
    | Returned              // slot pushed back, still counted
    | Uncounted             // counter decremented, cleaning up runners
    | Forgotten             // job id removed from seen_jobs, permit still held
    | Finished              // ended, permit released
    | Stranded              // found the slot pool empty and returned early

  datatype Task = Task(job: nat, phase: Phase)

  datatype State = State(
    permits: nat,
    slotPool: seq<nat>,
    seen: set<nat>,
    active: int,
    inHand: Option<nat>,    // a job the poller has inserted but not yet dispatched
    tasks: seq<Task>)

  datatype Action =
    | Poll(job: nat)
    | Dispatch
    | Acquire(t: nat)
    | TakeSlot(t: nat)
    | CountUp(t: nat)
    | ReturnSlot(t: nat)
    | CountDown(t: nat)
    | Forget(t: nat)
    | Finish(t: nat)

  /** An action of a job's task, as opposed to the poller's. */
  predicate OfTask(a: Action) { !a.Poll? && !a.Dispatch? }

  function Init(max: nat): State {
    State(max, Range(max), {}, 0, None, [])
  }

  predicate Enabled(s: State, a: Action) {
    match a
    case Poll(_) => s.inHand.None?
    case Dispatch => s.inHand.Some?
    case Acquire(t) => t < |s.tasks| && s.tasks[t].phase.Waiting? && s.permits > 0
    case TakeSlot(t) => t < |s.tasks| && s.tasks[t].phase.Permitted?
    case CountUp(t) => t < |s.tasks| && s.tasks[t].phase.Slotted?
    case ReturnSlot(t) => t < |s.tasks| && s.tasks[t].phase.Running?
    case CountDown(t) => t < |s.tasks| && s.tasks[t].phase.Returned?
    case Forget(t) => t < |s.tasks| && s.tasks[t].phase.Uncounted?
    case Finish(t) => t < |s.tasks| && s.tasks[t].phase.Forgotten?
  }

  function Move(s: State, t: nat, phase: Phase): seq<Task>
    requires t < |s.tasks|
  {
    s.tasks[t := s.tasks[t].(phase := phase)]
  }

  function Apply(s: State, a: Action): State
    requires Enabled(s, a)
  {
    match a
    case Poll(job) =>
      if job in s.seen then s else s.(seen := s.seen + {job}, inHand := Some(job))
    case Dispatch =>
      s.(inHand := None, tasks := s.tasks + [Task(s.inHand.value, Waiting)])
    case Acquire(t) =>
      s.(permits := s.permits - 1, tasks := Move(s, t, Permitted))
    case TakeSlot(t) =>
      if s.slotPool == [] then
        s.(permits := s.permits + 1, tasks := Move(s, t, Stranded))
      else
        var n := |s.slotPool| - 1;
        s.(slotPool := s.slotPool[..n], tasks := Move(s, t, Slotted(s.slotPool[n])))
    case CountUp(t) =>
      s.(active := s.active + 1, tasks := Move(s, t, Running(s.tasks[t].phase.slot)))
    case ReturnSlot(t) =>
      s.(slotPool := s.slotPool + [s.tasks[t].phase.slot], tasks := Move(s, t, Returned))
    case CountDown(t) =>
      s.(active := s.active - 1, tasks := Move(s, t, Uncounted))
    case Forget(t) =>
      s.(seen := s.seen - {s.tasks[t].job}, tasks := Move(s, t, Forgotten))
    case Finish(t) =>
      s.(permits := s.permits + 1, tasks := Move(s, t, Finished))
  }

  /** The state after a schedule, or `None` if some action of it could not happen. */
  function Exec(max: nat, acts: seq<Action>): Option<State> {
    if acts == [] then Some(Init(max))
    else
      var before := Exec(max, acts[..|acts| - 1]);
      var a := acts[|acts| - 1];
      if before.Some? && Enabled(before.value, a) then Some(Apply(before.value, a)) else None
  }

  /** A schedule extended by one enabled action. */
  lemma ExecOne(max: nat, acts: seq<Action>, a: Action, s: State, s': State)
    requires Exec(max, acts) == Some(s) && Enabled(s, a) && s' == Apply(s, a)
    ensures Exec(max, acts + [a]) == Some(s')
  {
    assert (acts + [a])[..|acts|] == acts;
  }

  // ---- What each task holds ----

  predicate HoldsPermit(t: Task) { !t.phase.Waiting? && !t.phase.Finished? && !t.phase.Stranded? }

  predicate HoldsSlot(t: Task) { t.phase.Slotted? || t.phase.Running? }

  predicate IsCounted(t: Task) { t.phase.Running? || t.phase.Returned? }

  /** Dispatched and not yet past the removal of its id from `seen_jobs`. */
  predicate IsLive(t: Task) { !t.phase.Forgotten? && !t.phase.Finished? && !t.phase.Stranded? }

  function SlotsOf(t: Task): multiset<nat> { if HoldsSlot(t) then multiset{t.phase.slot} else multiset{} }

  function JobsOf(t: Task): multiset<nat> { if IsLive(t) then multiset{t.job} else multiset{} }

  function JobInHand(s: State): multiset<nat> { if s.inHand.Some? then multiset{s.inHand.value} else multiset{} }

  // ---- The invariant ----

  ghost predicate PermitsBalance(max: nat, s: State) {
    s.permits + Count(s.tasks, HoldsPermit) == max
  }

  ghost predicate SlotsBalance(max: nat, s: State) {
    multiset(s.slotPool) + Gather(s.tasks, SlotsOf) == AllSlots(max)
  }

  ghost predicate SeenIsLive(s: State) {
    multiset(s.seen) == Gather(s.tasks, JobsOf) + JobInHand(s)
  }

  ghost predicate NoneStranded(s: State) {
    forall i | 0 <= i < |s.tasks| :: !s.tasks[i].phase.Stranded?
  }

  ghost predicate Inv(max: nat, s: State) {
    && PermitsBalance(max, s)
    && SlotsBalance(max, s)
    && SeenIsLive(s)
    && NoneStranded(s)
    && s.active == Count(s.tasks, IsCounted)
  }

  /**
   The counting argument: a task that has a permit but no slot makes the slot holders a
   strict subset of the permit holders, so some slot is still free.
   */
  lemma PermitFindsSlot(max: nat, s: State, t: nat)
    requires PermitsBalance(max, s) && SlotsBalance(max, s)
    requires t < |s.tasks| && s.tasks[t].phase.Permitted?
    ensures s.slotPool != []
  {
    GatherSize(s.tasks, SlotsOf, HoldsSlot);
    CountStronger(s.tasks, HoldsSlot, HoldsPermit);
    assert HoldsPermit(s.tasks[t]) && !HoldsSlot(s.tasks[t]);
    AllSlotsOnce(max, 0);
    assert |multiset(s.slotPool) + Gather(s.tasks, SlotsOf)| == |s.slotPool| + Count(s.tasks, HoldsSlot);
  }

  /**
   The local law of a step of task `t`: whatever the shared state gains, the task gives
   up, and the other way round.
   */
  ghost predicate Exchange(s: State, s': State, t: nat) {
    && t < |s.tasks| == |s'.tasks| && s'.tasks == s.tasks[t := s'.tasks[t]]
    && !s'.tasks[t].phase.Stranded?
    && s'.inHand == s.inHand
    && s'.permits + (if HoldsPermit(s'.tasks[t]) then 1 else 0) ==
      s.permits + (if HoldsPermit(s.tasks[t]) then 1 else 0)
    && s'.active - (if IsCounted(s'.tasks[t]) then 1 else 0) == s.active - (if IsCounted(s.tasks[t]) then 1 else 0)
    && multiset(s'.slotPool) + SlotsOf(s'.tasks[t]) == multiset(s.slotPool) + SlotsOf(s.tasks[t])
    && multiset(s'.seen) + JobsOf(s.tasks[t]) == multiset(s.seen) + JobsOf(s'.tasks[t])
  }

  lemma ExchangeKeepsSlots(max: nat, s: State, s': State, t: nat)
    requires SlotsBalance(max, s) && Exchange(s, s', t)
    ensures SlotsBalance(max, s')
  {
    GatherUpdate(s.tasks, t, s'.tasks[t], SlotsOf);
    Cancel(multiset(s.slotPool), multiset(s'.slotPool), Gather(s.tasks, SlotsOf), Gather(s'.tasks, SlotsOf),
           SlotsOf(s.tasks[t]), SlotsOf(s'.tasks[t]));
  }

  lemma ExchangeKeepsSeen(s: State, s': State, t: nat)
    requires SeenIsLive(s) && Exchange(s, s', t)
    ensures SeenIsLive(s')
  {
    GatherUpdate(s.tasks, t, s'.tasks[t], JobsOf);
    var g, g', hand := Gather(s.tasks, JobsOf), Gather(s'.tasks, JobsOf), JobInHand(s);
    var j, j' := JobsOf(s.tasks[t]), JobsOf(s'.tasks[t]);
    Trade(multiset(s.seen), multiset(s'.seen), g, g', hand, j, j');
  }

  lemma ExchangeKeepsInv(max: nat, s: State, s': State, t: nat)
    requires Inv(max, s) && Exchange(s, s', t)
    ensures Inv(max, s')
  {
    ExchangeKeepsSlots(max, s, s', t);
    ExchangeKeepsSeen(s, s', t);
    CountUpdate(s.tasks, t, s'.tasks[t], HoldsPermit);
    CountUpdate(s.tasks, t, s'.tasks[t], IsCounted);
  }

  lemma TakeExchanges(s: State, t: nat)
    requires Enabled(s, TakeSlot(t)) && s.slotPool != []
    ensures Exchange(s, Apply(s, TakeSlot(t)), t)
  {
    var n := |s.slotPool| - 1;
    assert s.slotPool == s.slotPool[..n] + [s.slotPool[n]];
  }

  lemma ReturnExchanges(s: State, t: nat)
    requires Enabled(s, ReturnSlot(t))
    ensures Exchange(s, Apply(s, ReturnSlot(t)), t)
  {
  }

  lemma ForgetExchanges(s: State, t: nat)
    requires Enabled(s, Forget(t)) && s.tasks[t].job in s.seen
    ensures Exchange(s, Apply(s, Forget(t)), t)
  {
    var job := s.tasks[t].job;
    assert multiset(s.seen - {job}) + multiset{job} == multiset(s.seen);
  }

  /** The other actions of a task move neither slots nor jobs: permits first, then the counter. */
  lemma PermitExchanges(s: State, a: Action)
    requires Enabled(s, a) && (a.Acquire? || a.Finish?)
    ensures Exchange(s, Apply(s, a), a.t)
  {
  }

  lemma CounterExchanges(s: State, a: Action)
    requires Enabled(s, a) && (a.CountUp? || a.CountDown?)
    ensures Exchange(s, Apply(s, a), a.t)
  {
  }

  lemma TaskInv(max: nat, s: State, a: Action)
    requires Inv(max, s) && Enabled(s, a) && OfTask(a)
    ensures Inv(max, Apply(s, a))
  {
    if a.TakeSlot? {
      PermitFindsSlot(max, s, a.t);
      TakeExchanges(s, a.t);
    } else if a.ReturnSlot? {
      ReturnExchanges(s, a.t);
    } else if a.Forget? {
      GatherAt(s.tasks, a.t, JobsOf);
      assert s.tasks[a.t].job in multiset(s.seen);
      ForgetExchanges(s, a.t);
    } else if a.Acquire? || a.Finish? {
      PermitExchanges(s, a);
    } else {
      CounterExchanges(s, a);
    }
    ExchangeKeepsInv(max, s, Apply(s, a), a.t);
  }

  lemma PollInv(max: nat, s: State, job: nat)
    requires Inv(max, s) && Enabled(s, Poll(job))
    ensures Inv(max, Apply(s, Poll(job)))
  {
    if job !in s.seen {
      assert multiset(s.seen + {job}) == multiset(s.seen) + multiset{job};
    }
  }

  lemma DispatchInv(max: nat, s: State, s': State)
    requires Inv(max, s) && s.inHand.Some?
    requires s' == s.(inHand := None, tasks := s.tasks + [Task(s.inHand.value, Waiting)])
    ensures Inv(max, s')
  {
    var x := Task(s.inHand.value, Waiting);
    CountAppend(s.tasks, x, HoldsPermit);
    CountAppend(s.tasks, x, IsCounted);
    DispatchSlots(max, s, s', x);
    DispatchSeen(s, s', x);
  }

  lemma DispatchSlots(max: nat, s: State, s': State, x: Task)
    requires SlotsBalance(max, s) && x.phase.Waiting? && s'.tasks == s.tasks + [x] && s'.slotPool == s.slotPool
    ensures SlotsBalance(max, s')
  {
    GatherAppend(s.tasks, x, SlotsOf);
  }

  lemma DispatchSeen(s: State, s': State, x: Task)
    requires SeenIsLive(s) && s.inHand == Some(x.job) && x.phase.Waiting?
    requires s'.tasks == s.tasks + [x] && s'.inHand == None && s'.seen == s.seen
    ensures SeenIsLive(s')
  {
    GatherAppend(s.tasks, x, JobsOf);
  }

  lemma InvStep(max: nat, s: State, a: Action)
    requires Inv(max, s) && Enabled(s, a)
    ensures Inv(max, Apply(s, a))
  {
    if a.Poll? {
      PollInv(max, s, a.job);
    } else if a.Dispatch? {
      DispatchInv(max, s, Apply(s, a));
    } else {
      TaskInv(max, s, a);
    }
  }

  lemma {:induction false} Reachable(max: nat, acts: seq<Action>)
    requires Exec(max, acts).Some?
    ensures Inv(max, Exec(max, acts).value)
  {
    if acts == [] {
      RangeIsAllSlots(max);
    } else {
      var before := acts[..|acts| - 1];
      Reachable(max, before);
      InvStep(max, Exec(max, before).value, acts[|acts| - 1]);
    }
  }

  // ---- What holds of every schedule ----

  /** The branch "no slot available despite semaphore permit" is unreachable. */
  lemma PermitHolderAlwaysFindsSlot(max: nat, acts: seq<Action>, t: nat)
    requires Exec(max, acts).Some?
    requires t < |Exec(max, acts).value.tasks| && Exec(max, acts).value.tasks[t].phase.Permitted?
    ensures Exec(max, acts).value.slotPool != []
    ensures NoneStranded(Exec(max, acts).value)
  {
    Reachable(max, acts);
    PermitFindsSlot(max, Exec(max, acts).value, t);
  }

  /** The number of free slots and of held slots add up, and holders never exceed permits. */
  lemma SlotCounts(max: nat, acts: seq<Action>)
    requires Exec(max, acts).Some?
    ensures var s := Exec(max, acts).value;
      && |s.slotPool| + Count(s.tasks, HoldsSlot) == max
      && Count(s.tasks, HoldsSlot) <= Count(s.tasks, HoldsPermit) <= max
  {
    Reachable(max, acts);
    var s := Exec(max, acts).value;
    GatherSize(s.tasks, SlotsOf, HoldsSlot);
    CountStronger(s.tasks, HoldsSlot, HoldsPermit);
    AllSlotsOnce(max, 0);
    assert |multiset(s.slotPool) + Gather(s.tasks, SlotsOf)| == |s.slotPool| + Count(s.tasks, HoldsSlot);
  }

  /** Each slot index is below `max` exactly if it is free or held. */
  lemma SlotsCovered(max: nat, acts: seq<Action>, x: nat)
    requires Exec(max, acts).Some?
    ensures var s := Exec(max, acts).value;
      x < max <==> x in s.slotPool || exists i :: 0 <= i < |s.tasks| && x in SlotsOf(s.tasks[i])
  {
    Reachable(max, acts);
    var s := Exec(max, acts).value;
    AllSlotsOnce(max, x);
    assert x < max <==> x in multiset(s.slotPool) + Gather(s.tasks, SlotsOf);
    if x in Gather(s.tasks, SlotsOf) {
      var i := GatherMember(s.tasks, x, SlotsOf);
    }
    if i :| 0 <= i < |s.tasks| && x in SlotsOf(s.tasks[i]) {
      GatherAt(s.tasks, i, SlotsOf);
    }
  }

  /** A held slot is a real slot and is not also free. */
  lemma HeldSlotIsNotFree(max: nat, acts: seq<Action>, i: nat)
    requires Exec(max, acts).Some?
    requires i < |Exec(max, acts).value.tasks| && HoldsSlot(Exec(max, acts).value.tasks[i])
    ensures var s := Exec(max, acts).value;
      s.tasks[i].phase.slot < max && s.tasks[i].phase.slot !in s.slotPool
  {
    Reachable(max, acts);
    var s := Exec(max, acts).value;
    GatherAt(s.tasks, i, SlotsOf);
    HeldOnce(max, multiset(s.slotPool), Gather(s.tasks, SlotsOf), s.tasks[i].phase.slot);
  }

  /** No two tasks hold the same slot: VM executions are exclusive per slot. */
  lemma SlotsExclusive(max: nat, acts: seq<Action>, i: nat, j: nat)
    requires Exec(max, acts).Some?
    requires i < j < |Exec(max, acts).value.tasks|
    requires HoldsSlot(Exec(max, acts).value.tasks[i]) && HoldsSlot(Exec(max, acts).value.tasks[j])
    ensures Exec(max, acts).value.tasks[i].phase.slot != Exec(max, acts).value.tasks[j].phase.slot
  {
    Reachable(max, acts);
    var s := Exec(max, acts).value;
    GatherPair(s.tasks, i, j, SlotsOf);
    HeldOnce(max, multiset(s.slotPool), Gather(s.tasks, SlotsOf), s.tasks[i].phase.slot);
    assert (SlotsOf(s.tasks[i]) + SlotsOf(s.tasks[j]))[s.tasks[i].phase.slot] <= 1;
    assert SlotsOf(s.tasks[j])[s.tasks[j].phase.slot] == 1;
  }

  /**
   `seen_jobs` is exactly the set of ids in the poller's hand or of live tasks: a live job
   is never dispatched again, and no id stays blocked after its task.
   */
  lemma SeenJobsExact(max: nat, acts: seq<Action>, job: nat)
    requires Exec(max, acts).Some?
    ensures var s := Exec(max, acts).value;
      job in s.seen <==>
        s.inHand == Some(job) || exists i :: 0 <= i < |s.tasks| && IsLive(s.tasks[i]) && s.tasks[i].job == job
  {
    Reachable(max, acts);
    var s := Exec(max, acts).value;
    assert job in s.seen <==> job in Gather(s.tasks, JobsOf) + JobInHand(s);
    if job in Gather(s.tasks, JobsOf) {
      var i := GatherMember(s.tasks, job, JobsOf);
    }
    if i :| 0 <= i < |s.tasks| && IsLive(s.tasks[i]) && s.tasks[i].job == job {
      GatherAt(s.tasks, i, JobsOf);
    }
  }

  /** No job id has two live tasks, and the poller never holds the id of a live task. */
  lemma OneExecutionPerJob(max: nat, acts: seq<Action>, i: nat, j: nat)
    requires Exec(max, acts).Some?
    requires i < j < |Exec(max, acts).value.tasks|
    requires IsLive(Exec(max, acts).value.tasks[i])
    ensures var s := Exec(max, acts).value;
      && (IsLive(s.tasks[j]) ==> s.tasks[i].job != s.tasks[j].job)
      && s.inHand != Some(s.tasks[i].job)
  {
    Reachable(max, acts);
    var s := Exec(max, acts).value;
    var job := s.tasks[i].job;
    GatherPair(s.tasks, i, j, JobsOf);
    assert multiset(s.seen)[job] == Gather(s.tasks, JobsOf)[job] + JobInHand(s)[job];
    assert multiset(s.seen)[job] <= 1;
  }

  /** `active_jobs` counts the running tasks, so its unsigned decrement never wraps. */
  lemma ActiveJobsNeverUnderflows(max: nat, acts: seq<Action>, t: nat)
    requires Exec(max, acts).Some?
    ensures var s := Exec(max, acts).value;
      && s.active == Count(s.tasks, IsCounted)
      && (Enabled(s, CountDown(t)) ==> s.active > 0)
  {
    Reachable(max, acts);
    CounterIsExact(max, Exec(max, acts).value, t);
  }

  lemma CounterIsExact(max: nat, s: State, t: nat)
    requires Inv(max, s)
    ensures s.active == Count(s.tasks, IsCounted) && (Enabled(s, CountDown(t)) ==> s.active > 0)
  {
    hide PermitsBalance, SlotsBalance, SeenIsLive;
    if Enabled(s, CountDown(t)) {
      CountAt(s.tasks, t, IsCounted);
    }
  }

  /** Once every task has ended, all shared state is back where it started. */
  lemma QuiescentStateIsClean(max: nat, acts: seq<Action>)
    requires Exec(max, acts).Some?
    requires Exec(max, acts).value.inHand.None?
    requires forall i | 0 <= i < |Exec(max, acts).value.tasks| ::
      Exec(max, acts).value.tasks[i].phase.Finished? || Exec(max, acts).value.tasks[i].phase.Stranded?
    ensures var s := Exec(max, acts).value;
      s.permits == max && s.seen == {} && s.active == 0 && multiset(s.slotPool) == AllSlots(max)
  {
    Reachable(max, acts);
    var s := Exec(max, acts).value;
    CountNone(s.tasks, HoldsPermit);
    CountNone(s.tasks, IsCounted);
    GatherNone(s.tasks, SlotsOf);
    GatherNone(s.tasks, JobsOf);
    assert multiset(s.seen) == multiset{};
    forall x ensures x !in s.seen {
      assert multiset(s.seen)[x] == 0;
    }
  }
}
