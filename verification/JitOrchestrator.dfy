/**
 The orchestrator object of reactive mode.  The object carries the schedule that led to its
 state.  Each method is one atomic section of the code, on the shared fields it locks, and
 extends the schedule by the matching action, so everything proved of schedules holds of
 the object.
 */
module JitOrchestrator {
  import opened Wrappers
  import opened Interference
  import opened Jit
  import opened Tally

  /** A queued job as GitHub reports it. */
  datatype QueuedJob = QueuedJob(id: nat, labels: seq<string>)

  predicate LabelsMatch(configured: seq<string>, labels: seq<string>) {
    forall l | l in configured :: l in labels
  }

  /** Every one of these labels is among the job's; it may have more. */
  predicate HasAll(labels: seq<string>, configured: seq<string>) {
    forall i | 0 <= i < |configured| :: configured[i] in labels
  }

  /** The ids a poll dispatches: matching, not seen before, first occurrence only. */
  function Fresh(configured: seq<string>, jobs: seq<QueuedJob>, seen: set<nat>): seq<nat> {
    if jobs == [] then []
    else
      var earlier := Fresh(configured, jobs[..|jobs| - 1], seen);
      var job := jobs[|jobs| - 1];
      if LabelsMatch(configured, job.labels) && job.id !in seen && job.id !in earlier
      then earlier + [job.id] else earlier
  }

  /** `Fresh` lists each unseen id of a job that has all configured labels exactly once. */
  lemma {:induction false} FreshIsExact(configured: seq<string>, jobs: seq<QueuedJob>, seen: set<nat>)
    ensures var ids := Fresh(configured, jobs, seen);
      && (forall id :: id in ids <==>
            id !in seen && exists i :: 0 <= i < |jobs| && jobs[i].id == id && HasAll(jobs[i].labels, configured))
      && (forall i, j | 0 <= i < j < |ids| :: ids[i] != ids[j])
  {
    if jobs != [] {
      var n := |jobs| - 1;
      FreshIsExact(configured, jobs[..n], seen);
      var ids, earlier := Fresh(configured, jobs, seen), Fresh(configured, jobs[..n], seen);
      forall id
        ensures id in ids <==>
          id !in seen && exists i :: 0 <= i < |jobs| && jobs[i].id == id && HasAll(jobs[i].labels, configured)
      {
        if id in earlier {
          var i :| 0 <= i < n && jobs[..n][i].id == id && HasAll(jobs[..n][i].labels, configured);
          assert jobs[i].id == id;
        }
        if i :| 0 <= i < |jobs| && jobs[i].id == id && HasAll(jobs[i].labels, configured) {
          if i < n {
            assert jobs[..n][i] == jobs[i];
          }
        }
      }
    }
  }

  function WaitingTasks(ids: seq<nat>): seq<Task> {
    if ids == [] then [] else WaitingTasks(ids[..|ids| - 1]) + [Task(ids[|ids| - 1], Waiting)]
  }

  function Ids(ids: seq<nat>): set<nat> { set id | id in ids }

  /** The effect of polling a list of jobs while no task acts: one waiting task for each fresh id. */
  ghost predicate PolledQuietly(configured: seq<string>, jobs: seq<QueuedJob>, s: State, s': State) {
    var ids := Fresh(configured, jobs, s.seen);
    && s'.tasks == s.tasks + WaitingTasks(ids) && s'.seen == s.seen + Ids(ids)
    && s'.permits == s.permits && s'.slotPool == s.slotPool && s'.active == s.active
  }

  lemma PolledNext(configured: seq<string>, jobs: seq<QueuedJob>, k: nat, s: State, s1: State, s2: State)
    requires k < |jobs| && PolledQuietly(configured, jobs[..k], s, s1)
    requires if LabelsMatch(configured, jobs[k].labels) && jobs[k].id !in s1.seen
             then s2.tasks == s1.tasks + [Task(jobs[k].id, Waiting)] && s2.seen == s1.seen + {jobs[k].id}
             else s2.tasks == s1.tasks && s2.seen == s1.seen
    requires s2.permits == s1.permits && s2.slotPool == s1.slotPool && s2.active == s1.active
    ensures PolledQuietly(configured, jobs[..k + 1], s, s2)
  {
    FreshNext(configured, jobs, k, s.seen);
  }

  lemma FreshNext(configured: seq<string>, jobs: seq<QueuedJob>, k: nat, seen: set<nat>)
    requires k < |jobs|
    ensures var earlier, ids := Fresh(configured, jobs[..k], seen), Fresh(configured, jobs[..k + 1], seen);
      var id := jobs[k].id;
      if LabelsMatch(configured, jobs[k].labels) && id !in seen + Ids(earlier)
      then WaitingTasks(ids) == WaitingTasks(earlier) + [Task(id, Waiting)] && Ids(ids) == Ids(earlier) + {id}
      else ids == earlier
  {
    assert jobs[..k + 1][..k] == jobs[..k];
    var earlier, id := Fresh(configured, jobs[..k], seen), jobs[k].id;
    assert (earlier + [id])[..|earlier|] == earlier;
  }

  /** The ids a poll dispatches, given the seen set at each look: matching and not seen then. */
  function Chosen(configured: seq<string>, jobs: seq<QueuedJob>, seenAt: seq<set<nat>>): seq<nat>
    requires |seenAt| == |jobs|
  {
    if jobs == [] then []
    else
      var n := |jobs| - 1;
      Chosen(configured, jobs[..n], seenAt[..n])
      + if LabelsMatch(configured, jobs[n].labels) && jobs[n].id !in seenAt[n] then [jobs[n].id] else []
  }

  /** Where an action of a job's task leads. */
  function TaskStep(s: State, a: Action): Option<State> {
    if OfTask(a) && Enabled(s, a) then Some(Apply(s, a)) else None
  }

  /** What the schedule gains when a job is looked at in state `s`, the tasks doing `between` before a dispatch. */
  function Look(configured: seq<string>, s: State, job: QueuedJob, between: seq<Action>): seq<Action>
    requires s.inHand.None?
  {
    if !LabelsMatch(configured, job.labels) then []
    else if job.id in s.seen then [Poll(job.id)]
    else [Poll(job.id)] + Taken(TaskStep, Apply(s, Poll(job.id)), between) + [Dispatch]
  }

  /**
   One round of a poll takes the schedule `h` to `h'`: first the tasks do `others`, then the job
   is looked at, when the seen set is `seen`, and nothing else happens.
   */
  ghost predicate Round(max: nat, configured: seq<string>, h: seq<Action>, job: QueuedJob, others: seq<Action>,
                        between: seq<Action>, seen: set<nat>, h': seq<Action>)
  {
    && Exec(max, h).Some?
    && var s := Amid(TaskStep, Exec(max, h).value, others);
    && s.inHand.None? && seen == s.seen
    && h' == h + Taken(TaskStep, Exec(max, h).value, others) + Look(configured, s, job, between)
  }

  /** The schedule grows from `at[0]` to the last of `at` by one round for each job, and by nothing else. */
  ghost predicate Rounds(max: nat, configured: seq<string>, jobs: seq<QueuedJob>, others: nat -> seq<Action>,
                         between: nat -> seq<Action>, seenAt: seq<set<nat>>, at: seq<seq<Action>>)
  {
    && |seenAt| == |jobs| && |at| == |jobs| + 1
    && forall k | 0 <= k < |jobs| ::
         Round(max, configured, at[k], jobs[k], others(k), between(k), seenAt[k], at[k + 1])
  }

  lemma RoundsNext(max: nat, configured: seq<string>, jobs: seq<QueuedJob>, k: nat, others: nat -> seq<Action>,
                   between: nat -> seq<Action>, seenAt: seq<set<nat>>, at: seq<seq<Action>>,
                   seen: set<nat>, h: seq<Action>)
    requires k < |jobs| && Rounds(max, configured, jobs[..k], others, between, seenAt, at)
    requires Round(max, configured, at[k], jobs[k], others(k), between(k), seen, h)
    ensures Rounds(max, configured, jobs[..k + 1], others, between, seenAt + [seen], at + [h])
  {
  }

  /** What the job tasks cannot change meanwhile: which tasks there are, for which jobs, and the poller's hand. */
  ghost predicate Meanwhile(s: State, s': State) {
    && s'.inHand == s.inHand && |s'.tasks| == |s.tasks|
    && forall i | 0 <= i < |s.tasks| :: s'.tasks[i].job == s.tasks[i].job
  }

  lemma MeanwhileStep(s: State, a: Action)
    requires OfTask(a) && Enabled(s, a)
    ensures Meanwhile(s, Apply(s, a))
  {
  }

  lemma {:induction false} AmidMeanwhile(s: State, acts: seq<Action>)
    ensures Meanwhile(s, Amid(TaskStep, s, acts))
  {
    if acts != [] {
      var before, a := acts[..|acts| - 1], acts[|acts| - 1];
      AmidMeanwhile(s, before);
      if OfTask(a) && Enabled(Amid(TaskStep, s, before), a) {
        MeanwhileStep(Amid(TaskStep, s, before), a);
      }
    }
  }

  /** The task list has grown by one task for each of these ids; earlier tasks keep theirs. */
  ghost predicate Grown(before: seq<Task>, after: seq<Task>, ids: seq<nat>) {
    && |after| == |before| + |ids|
    && (forall i | 0 <= i < |before| :: after[i].job == before[i].job)
    && (forall i | 0 <= i < |ids| :: after[|before| + i].job == ids[i])
  }

  lemma GrownTwice(a: seq<Task>, b: seq<Task>, c: seq<Task>, ids: seq<nat>, more: seq<nat>)
    requires Grown(a, b, ids) && Grown(b, c, more)
    ensures Grown(a, c, ids + more)
  {
  }

  lemma ChosenNext(configured: seq<string>, jobs: seq<QueuedJob>, k: nat, seenAt: seq<set<nat>>, seen: set<nat>)
    requires k < |jobs| && |seenAt| == k
    ensures Chosen(configured, jobs[..k + 1], seenAt + [seen]) ==
      Chosen(configured, jobs[..k], seenAt)
      + if LabelsMatch(configured, jobs[k].labels) && jobs[k].id !in seen then [jobs[k].id] else []
  {
    assert jobs[..k + 1][..k] == jobs[..k] && (seenAt + [seen])[..k] == seenAt;
  }

  /** What a round leaves of the state: a new task if the job was `sent`, and without interference nothing else. */
  ghost predicate RoundLeaves(s: State, s': State, job: nat, sent: bool, seen: set<nat>, quiet: bool) {
    && Grown(s.tasks, s'.tasks, if sent then [job] else [])
    && (quiet ==>
          && seen == s.seen
          && (if sent then s'.tasks == s.tasks + [Task(job, Waiting)] && s'.seen == s.seen + {job}
              else s'.tasks == s.tasks && s'.seen == s.seen)
          && s'.permits == s.permits && s'.slotPool == s.slotPool && s'.active == s.active)
  }

  /** The tasks act, then the job is looked at. */
  lemma RoundAfter(s: State, s1: State, s2: State, job: nat, sent: bool, seen: set<nat>, still: bool, quiet: bool)
    requires Meanwhile(s, s1) && (still ==> s1 == s) && RoundLeaves(s1, s2, job, sent, seen, quiet)
    ensures RoundLeaves(s, s2, job, sent, seen, still && quiet)
  {
    GrownTwice(s.tasks, s1.tasks, s2.tasks, [], if sent then [job] else []);
    assert [] + (if sent then [job] else []) == if sent then [job] else [];
  }

  /** A job inserted in state `s` and dispatched after the tasks have done `between`. */
  lemma SentLeaves(s: State, s1: State, s2: State, job: nat, between: seq<Action>)
    requires Enabled(s, Poll(job)) && job !in s.seen && s1 == Apply(s, Poll(job)) && s2 == Amid(TaskStep, s1, between)
    ensures s2.inHand == Some(job) && RoundLeaves(s, Apply(s2, Dispatch), job, true, s.seen, between == [])
  {
    AmidMeanwhile(s1, between);
  }

  ghost predicate Quiet(others: nat -> seq<Action>, between: nat -> seq<Action>) {
    forall k :: others(k) == [] && between(k) == []
  }

  /** What a poll of these jobs has sent, given the seen sets, and what it leaves of the state. */
  ghost predicate PollLeaves(configured: seq<string>, jobs: seq<QueuedJob>, s: State, s': State,
                             dispatched: seq<nat>, seenAt: seq<set<nat>>, quiet: bool)
  {
    && |seenAt| == |jobs| && dispatched == Chosen(configured, jobs, seenAt)
    && Grown(s.tasks, s'.tasks, dispatched)
    && (quiet ==> PolledQuietly(configured, jobs, s, s'))
  }

  lemma PollLeavesNext(configured: seq<string>, jobs: seq<QueuedJob>, k: nat, s: State, s1: State, s2: State,
                       dispatched: seq<nat>, seenAt: seq<set<nat>>, sent: bool, seen: set<nat>, quiet: bool)
    requires k < |jobs| && PollLeaves(configured, jobs[..k], s, s1, dispatched, seenAt, quiet)
    requires sent <==> LabelsMatch(configured, jobs[k].labels) && jobs[k].id !in seen
    requires RoundLeaves(s1, s2, jobs[k].id, sent, seen, quiet)
    ensures PollLeaves(configured, jobs[..k + 1], s, s2, dispatched + (if sent then [jobs[k].id] else []),
                       seenAt + [seen], quiet)
  {
    ChosenNext(configured, jobs, k, seenAt, seen);
    GrownTwice(s.tasks, s1.tasks, s2.tasks, dispatched, if sent then [jobs[k].id] else []);
    if quiet {
      PolledNext(configured, jobs, k, s, s1, s2);
    }
  }

  class Orchestrator {
    const maxJobs: nat
    const labels: seq<string>
    var permits: nat
    var slotPool: seq<nat>
    var seenJobs: set<nat>
    var activeJobs: int
    var inHand: Option<nat>
    var tasks: seq<Task>
    ghost var history: seq<Action>

    function View(): State reads this {
      State(permits, slotPool, seenJobs, activeJobs, inHand, tasks)
    }

    ghost predicate Valid() reads this { Exec(maxJobs, history) == Some(View()) }

    /** The action `a` has just been performed. */
    twostate predicate Performed(a: Action) reads this {
      && old(Valid()) && Enabled(old(View()), a)
      && history == old(history) + [a]
      && View() == Apply(old(View()), a)
    }

    twostate lemma StillValid(a: Action)
      requires Performed(a)
      ensures Valid()
    {
      ExecOne(maxJobs, old(history), a, old(View()), View());
    }

    constructor (maxJobs: nat, labels: seq<string>)
      ensures Valid() && View() == Init(maxJobs) && history == []
      ensures this.maxJobs == maxJobs && this.labels == labels
    {
      this.maxJobs, this.labels := maxJobs, labels;
      permits, slotPool, seenJobs, activeJobs := maxJobs, Range(maxJobs), {}, 0;
      inHand, tasks, history := None, [], [];
    }

    method Elsewhere(a: Action)
      requires Valid() && OfTask(a) && Enabled(View(), a)
      modifies this
      ensures Valid() && Performed(a)
    {
      var next := Apply(View(), a);
      permits, slotPool, seenJobs, activeJobs := next.permits, next.slotPool, next.seen, next.active;
      inHand, tasks, history := next.inHand, next.tasks, history + [a];
      StillValid(a);
    }

    /** The next of these atomic sections, if it can happen. */
    method TakeNext(acts: seq<Action>, k: nat, ghost start: State, ghost h: seq<Action>)
      requires Valid() && k < |acts|
      requires View() == Amid(TaskStep, start, acts[..k]) && history == h + Taken(TaskStep, start, acts[..k])
      modifies this
      ensures Valid()
      ensures View() == Amid(TaskStep, start, acts[..k + 1]) && history == h + Taken(TaskStep, start, acts[..k + 1])
    {
      AmidNext(TaskStep, start, acts, k);
      if OfTask(acts[k]) && Enabled(View(), acts[k]) {
        Elsewhere(acts[k]);
      }
    }

    /** The job tasks perform those of these atomic sections that can happen, in this order. */
    method Interleave(acts: seq<Action>)
      requires Valid()
      modifies this
      ensures Valid()
      ensures View() == Amid(TaskStep, old(View()), acts)
        && history == old(history) + Taken(TaskStep, old(View()), acts)
    {
      ghost var start, h := View(), history;
      for k := 0 to |acts|
        invariant Valid()
        invariant View() == Amid(TaskStep, start, acts[..k]) && history == h + Taken(TaskStep, start, acts[..k])
      {
        TakeNext(acts, k, start, h);
      }
      assert acts[..|acts|] == acts;
    }

    method InsertSeen(job: nat) returns (inserted: bool)
      requires Valid() && Enabled(View(), Poll(job))
      modifies this
      ensures Valid() && Performed(Poll(job))
      ensures inserted <==> job !in old(seenJobs)
    {
      inserted := job !in seenJobs;
      if inserted {
        seenJobs, inHand := seenJobs + {job}, Some(job);
      }
      history := history + [Poll(job)];
      StillValid(Poll(job));
    }

    method DispatchJob()
      requires Valid() && Enabled(View(), Dispatch)
      modifies this
      ensures Valid() && Performed(Dispatch)
    {
      tasks := tasks + [Task(inHand.value, Waiting)];
      inHand, history := None, history + [Dispatch];
      StillValid(Dispatch);
    }

    /** The body of the poll loop for one queued job; job tasks may act between insertion and dispatch. */
    method PollJob(job: QueuedJob, between: seq<Action>) returns (sent: bool)
      requires Valid() && inHand.None?
      modifies this
      ensures Valid() && inHand.None?
      ensures sent <==> LabelsMatch(labels, job.labels) && job.id !in old(seenJobs)
      ensures history == old(history) + Look(labels, old(View()), job, between)
      ensures RoundLeaves(old(View()), View(), job.id, sent, old(seenJobs), between == [])
    {
      ghost var start := View();
      if !LabelsMatch(labels, job.labels) {
        return false;
      }
      sent := InsertSeen(job.id);
      if sent {
        ghost var inserted := View();
        Interleave(between);
        SentLeaves(start, inserted, View(), job.id, between);
        DispatchJob();
      }
    }

    /** A round of the poll loop, after whatever job tasks do before it. */
    method PollRound(job: QueuedJob, others: seq<Action>, between: seq<Action>)
      returns (sent: bool, ghost seen: set<nat>)
      requires Valid() && inHand.None?
      modifies this
      ensures Valid() && inHand.None?
      ensures Round(maxJobs, labels, old(history), job, others, between, seen, history)
      ensures sent <==> LabelsMatch(labels, job.labels) && job.id !in seen
      ensures RoundLeaves(old(View()), View(), job.id, sent, seen, others == between == [])
    {
      AmidMeanwhile(View(), others);
      Interleave(others);
      ghost var looked := View();
      seen := seenJobs;
      sent := PollJob(job, between);
      RoundAfter(old(View()), looked, View(), job.id, sent, seen, others == [], between == []);
    }

    /**
     One repo's poll, with job tasks running in between: `others(k)` is what they do before
     job `k` is looked at, `between(k)` before it is dispatched, and `seenAt[k]` is the seen
     set when it is looked at, `at[k]` being the schedule up to round `k`.  The schedule gains
     these rounds and nothing else; exactly the matching jobs not seen at their moment are
     dispatched, one task each; undisturbed, every fresh id once.
     */
    method PollRepo(jobs: seq<QueuedJob>, others: nat -> seq<Action>, between: nat -> seq<Action>)
      returns (dispatched: seq<nat>, ghost seenAt: seq<set<nat>>, ghost at: seq<seq<Action>>)
      requires Valid() && inHand.None?
      modifies this
      ensures Valid() && inHand.None?
      ensures Rounds(maxJobs, labels, jobs, others, between, seenAt, at)
      ensures at[0] == old(history) && at[|jobs|] == history
      ensures dispatched == Chosen(labels, jobs, seenAt)
      ensures forall id :: id in dispatched <==>
        exists k :: 0 <= k < |jobs| && jobs[k].id == id && HasAll(jobs[k].labels, labels) && id !in seenAt[k]
      ensures Grown(old(tasks), tasks, dispatched)
      ensures Quiet(others, between) ==> PolledQuietly(labels, jobs, old(View()), View())
    {
      ghost var start, quiet := View(), Quiet(others, between);
      dispatched, seenAt, at := [], [], [history];
      assert jobs[..0] == [];
      for k := 0 to |jobs|
        invariant Valid() && inHand.None?
        invariant Rounds(maxJobs, labels, jobs[..k], others, between, seenAt, at)
        invariant at[0] == old(history) && at[k] == history
        invariant PollLeaves(labels, jobs[..k], start, View(), dispatched, seenAt, quiet)
      {
        ghost var before := View();
        var sent: bool;
        ghost var seen: set<nat>;
        sent, seen := PollRound(jobs[k], others(k), between(k));
        RoundsNext(maxJobs, labels, jobs, k, others, between, seenAt, at, seen, history);
        PollLeavesNext(labels, jobs, k, start, before, View(), dispatched, seenAt, sent, seen, quiet);
        dispatched := dispatched + if sent then [jobs[k].id] else [];
        seenAt, at := seenAt + [seen], at + [history];
      }
      assert jobs[..|jobs|] == jobs;
      AllChosen(labels, jobs, seenAt);
    }

    method AcquirePermit(t: nat)
      requires Valid() && Enabled(View(), Acquire(t))
      modifies this
      ensures Valid() && Performed(Acquire(t))
    {
      permits := permits - 1;
      tasks := tasks[t := tasks[t].(phase := Permitted)];
      history := history + [Acquire(t)];
      StillValid(Acquire(t));
    }

    method PopSlot(t: nat) returns (slot: nat)
      requires Valid() && Enabled(View(), TakeSlot(t))
      modifies this
      ensures Valid() && Performed(TakeSlot(t))
      ensures old(slotPool) == slotPool + [slot] && tasks[t].phase == Slotted(slot)
    {
      PermitHolderAlwaysFindsSlot(maxJobs, history, t);
      slot := slotPool[|slotPool| - 1];
      slotPool := slotPool[..|slotPool| - 1];
      tasks := tasks[t := tasks[t].(phase := Slotted(slot))];
      history := history + [TakeSlot(t)];
      StillValid(TakeSlot(t));
    }

    method IncrementActive(t: nat)
      requires Valid() && Enabled(View(), CountUp(t))
      modifies this
      ensures Valid() && Performed(CountUp(t))
    {
      activeJobs := activeJobs + 1;
      tasks := tasks[t := tasks[t].(phase := Running(tasks[t].phase.slot))];
      history := history + [CountUp(t)];
      StillValid(CountUp(t));
    }

    method PushSlot(t: nat)
      requires Valid() && Enabled(View(), ReturnSlot(t))
      modifies this
      ensures Valid() && Performed(ReturnSlot(t))
      ensures slotPool == old(slotPool) + [old(tasks)[t].phase.slot]
      ensures forall i | 0 <= i < |tasks| && HoldsSlot(tasks[i]) :: tasks[i].phase.slot != old(tasks)[t].phase.slot
    {
      slotPool := slotPool + [tasks[t].phase.slot];
      tasks := tasks[t := tasks[t].(phase := Returned)];
      history := history + [ReturnSlot(t)];
      StillValid(ReturnSlot(t));
      forall i | 0 <= i < |tasks| && HoldsSlot(tasks[i])
        ensures tasks[i].phase.slot !in slotPool
      {
        HeldSlotIsNotFree(maxJobs, history, i);
      }
    }

    method DecrementActive(t: nat)
      requires Valid() && Enabled(View(), CountDown(t))
      modifies this
      ensures Valid() && Performed(CountDown(t))
      ensures activeJobs >= 0
    {
      ActiveJobsNeverUnderflows(maxJobs, history, t);
      activeJobs := activeJobs - 1;
      tasks := tasks[t := tasks[t].(phase := Uncounted)];
      history := history + [CountDown(t)];
      StillValid(CountDown(t));
    }

    method RemoveSeen(t: nat)
      requires Valid() && Enabled(View(), Forget(t))
      modifies this
      ensures Valid() && Performed(Forget(t))
      ensures tasks[t].job !in seenJobs
    {
      seenJobs := seenJobs - {tasks[t].job};
      tasks := tasks[t := tasks[t].(phase := Forgotten)];
      history := history + [Forget(t)];
      StillValid(Forget(t));
    }

    method EndTask(t: nat)
      requires Valid() && Enabled(View(), Finish(t))
      modifies this
      ensures Valid() && Performed(Finish(t))
    {
      permits := permits + 1;
      tasks := tasks[t := tasks[t].(phase := Finished)];
      history := history + [Finish(t)];
      StillValid(Finish(t));
    }
  }

  lemma AllChosen(configured: seq<string>, jobs: seq<QueuedJob>, seenAt: seq<set<nat>>)
    requires |seenAt| == |jobs|
    ensures forall id :: id in Chosen(configured, jobs, seenAt) <==>
      exists k :: 0 <= k < |jobs| && jobs[k].id == id && HasAll(jobs[k].labels, configured) && id !in seenAt[k]
  {
    hide Chosen, HasAll;
    forall id
      ensures id in Chosen(configured, jobs, seenAt) <==>
        exists k :: 0 <= k < |jobs| && jobs[k].id == id && HasAll(jobs[k].labels, configured) && id !in seenAt[k]
    {
      ChosenIsExact(configured, jobs, seenAt, id);
    }
  }

  /** An id is dispatched exactly if some job of it has all labels and was not seen at its moment. */
  lemma {:induction false} ChosenIsExact(configured: seq<string>, jobs: seq<QueuedJob>, seenAt: seq<set<nat>>, id: nat)
    requires |seenAt| == |jobs|
    ensures id in Chosen(configured, jobs, seenAt) <==>
      exists k :: 0 <= k < |jobs| && jobs[k].id == id && HasAll(jobs[k].labels, configured) && id !in seenAt[k]
  {
    if jobs != [] {
      var n := |jobs| - 1;
      ChosenIsExact(configured, jobs[..n], seenAt[..n], id);
      if k :| 0 <= k < |jobs| && jobs[k].id == id && HasAll(jobs[k].labels, configured) && id !in seenAt[k] {
        assert k < n ==> jobs[..n][k] == jobs[k] && seenAt[..n][k] == seenAt[k];
      }
      if id in Chosen(configured, jobs[..n], seenAt[..n]) {
        var k :| 0 <= k < n && jobs[..n][k].id == id && HasAll(jobs[..n][k].labels, configured)
          && id !in seenAt[..n][k];
        assert jobs[k].id == id && id !in seenAt[k];
      }
    }
  }
}
