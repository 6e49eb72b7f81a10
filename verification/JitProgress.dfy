/** Progress in reactive mode: no task is ever stuck, and every task comes to its end. */
module JitProgress {
  import opened Jit
  import opened Tally
  import opened Wrappers

  /** The steps a task has still to take. */
  function StepsLeft(t: Task): nat {
    match t.phase
    case Waiting => 7
    case Permitted => 6
    case Slotted(_) => 5
    case Running(_) => 4
    case Returned => 3
    case Uncounted => 2
    case Forgotten => 1
    case Finished => 0
    case Stranded => 0
  }

  function TotalLeft(tasks: seq<Task>): nat {
    if tasks == [] then 0 else TotalLeft(tasks[..|tasks| - 1]) + StepsLeft(tasks[|tasks| - 1])
  }

  lemma {:induction false} TotalLeftUpdate(tasks: seq<Task>, t: nat, x: Task)
    requires t < |tasks|
    ensures TotalLeft(tasks[t := x]) == TotalLeft(tasks) - StepsLeft(tasks[t]) + StepsLeft(x)
  {
    var n := |tasks| - 1;
    if t == n {
      assert tasks[t := x][..n] == tasks[..n];
    } else {
      assert tasks[t := x][..n] == tasks[..n][t := x];
      TotalLeftUpdate(tasks[..n], t, x);
    }
  }

  lemma OneStepLess(s: State, a: Action)
    requires OfTask(a) && Enabled(s, a) && (a.TakeSlot? ==> s.slotPool != [])
    ensures a.t < |s.tasks| && Apply(s, a).tasks == s.tasks[a.t := Apply(s, a).tasks[a.t]]
    ensures StepsLeft(Apply(s, a).tasks[a.t]) == StepsLeft(s.tasks[a.t]) - 1
  {
  }

  /** Every step of a task is one step nearer to the end. */
  lemma TaskStepCounts(max: nat, s: State, a: Action)
    requires Inv(max, s) && OfTask(a) && Enabled(s, a)
    ensures TotalLeft(Apply(s, a).tasks) == TotalLeft(s.tasks) - 1
  {
    if a.TakeSlot? {
      PermitFindsSlot(max, s, a.t);
    }
    OneStepLess(s, a);
    TotalLeftUpdate(s.tasks, a.t, Apply(s, a).tasks[a.t]);
  }

  /** The next step of a task that has its permit can always be taken. */
  function NextStep(t: nat, phase: Phase): Action
    requires !phase.Waiting? && !phase.Finished? && !phase.Stranded?
  {
    match phase
    case Permitted => TakeSlot(t)
    case Slotted(_) => CountUp(t)
    case Running(_) => ReturnSlot(t)
    case Returned => CountDown(t)
    case Uncounted => Forget(t)
    case Forgotten => Finish(t)
  }

  ghost predicate SomeTaskCanAct(s: State) { exists a :: OfTask(a) && Enabled(s, a) }

  ghost predicate AllFinished(s: State) { forall i | 0 <= i < |s.tasks| :: s.tasks[i].phase.Finished? }

  lemma PermittedCanAct(s: State, i: nat)
    requires i < |s.tasks| && HoldsPermit(s.tasks[i])
    ensures SomeTaskCanAct(s)
  {
    var a := NextStep(i, s.tasks[i].phase);
    assert OfTask(a) && Enabled(s, a);
  }

  lemma WaitingCanAct(max: nat, s: State, i: nat)
    requires max > 0 && PermitsBalance(max, s) && i < |s.tasks| && s.tasks[i].phase.Waiting?
    requires forall k | 0 <= k < |s.tasks| :: !HoldsPermit(s.tasks[k])
    ensures SomeTaskCanAct(s)
  {
    CountNone(s.tasks, HoldsPermit);
    assert OfTask(Acquire(i)) && Enabled(s, Acquire(i));
  }

  lemma FinishedCannotAct(s: State)
    requires AllFinished(s)
    ensures !SomeTaskCanAct(s)
  {
    forall a | OfTask(a)
      ensures !Enabled(s, a)
    {
      assert a.t < |s.tasks| ==> s.tasks[a.t].phase.Finished?;
    }
  }

  /** With at least one permit there is no deadlock: some task can act unless all have finished. */
  lemma CanActUnlessFinished(max: nat, s: State)
    requires max > 0 && PermitsBalance(max, s) && NoneStranded(s)
    ensures SomeTaskCanAct(s) <==> !AllFinished(s)
  {
    if i :| 0 <= i < |s.tasks| && HoldsPermit(s.tasks[i]) {
      PermittedCanAct(s, i);
    } else if i :| 0 <= i < |s.tasks| && s.tasks[i].phase.Waiting? {
      WaitingCanAct(max, s, i);
    } else {
      assert forall i | 0 <= i < |s.tasks| :: !s.tasks[i].phase.Waiting? && !HoldsPermit(s.tasks[i]);
      FinishedCannotAct(s);
    }
  }

  lemma {:induction false} RunCounts(max: nat, acts: seq<Action>, more: seq<Action>)
    requires Exec(max, acts + more).Some? && forall i | 0 <= i < |more| :: OfTask(more[i])
    ensures Exec(max, acts).Some?
    ensures TotalLeft(Exec(max, acts + more).value.tasks) == TotalLeft(Exec(max, acts).value.tasks) - |more|
  {
    hide TotalLeft, Inv, Apply;
    if more == [] {
      assert acts + more == acts;
    } else {
      var n := |more| - 1;
      assert (acts + more)[..|acts| + n] == acts + more[..n];
      RunCounts(max, acts, more[..n]);
      Reachable(max, acts + more[..n]);
      TaskStepCounts(max, Exec(max, acts + more[..n]).value, more[n]);
    }
  }

  lemma {:induction false} NoneLeft(tasks: seq<Task>)
    ensures TotalLeft(tasks) == 0 <==> forall i | 0 <= i < |tasks| :: StepsLeft(tasks[i]) == 0
  {
    if tasks != [] {
      NoneLeft(tasks[..|tasks| - 1]);
      assert tasks == tasks[..|tasks| - 1] + [tasks[|tasks| - 1]];
    }
  }

  lemma NoneLeftIffFinished(s: State)
    requires NoneStranded(s)
    ensures TotalLeft(s.tasks) == 0 <==> AllFinished(s)
  {
    NoneLeft(s.tasks);
    forall i | 0 <= i < |s.tasks|
      ensures StepsLeft(s.tasks[i]) == 0 <==> s.tasks[i].phase.Finished?
    {
    }
  }

  /**
   From every reachable state the tasks can be run in any order: a run of theirs never has more
   steps than are left, it can be continued exactly if it has fewer, and when it cannot, every
   task has finished.
   */
  lemma TasksComeToTheirEnd(max: nat, acts: seq<Action>, more: seq<Action>)
    requires max > 0 && Exec(max, acts + more).Some? && forall i | 0 <= i < |more| :: OfTask(more[i])
    ensures Exec(max, acts).Some? && |more| <= TotalLeft(Exec(max, acts).value.tasks)
    ensures SomeTaskCanAct(Exec(max, acts + more).value) <==> |more| < TotalLeft(Exec(max, acts).value.tasks)
    ensures SomeTaskCanAct(Exec(max, acts + more).value) <==> !AllFinished(Exec(max, acts + more).value)
  {
    RunCounts(max, acts, more);
    Reachable(max, acts + more);
    var s := Exec(max, acts + more).value;
    CanActUnlessFinished(max, s);
    NoneLeftIffFinished(s);
  }
}
