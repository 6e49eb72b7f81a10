/** Progress in warm-pool mode: whatever has happened, a VM's own two tasks can always come to their end. */
module WarmProgress {
  import opened Wrappers
  import opened Tally
  import opened WarmPool
  import opened WarmPoolTheorems

  predicate IsOver(v: Vm) { v.main.Ended? && v.early.Closed? }

  /** A step the VM can take next: its main task first, then the early one, whose listener hangs up if it must. */
  function NextStep(v: Vm, t: nat): Action
    requires !IsOver(v) && FlagExact(v)
  {
    match v.main
    case Spawned => Start(t)
    case Executing => Exit(t)
    case Exited => Join(t)
    case Joined => CountDown(t)
    case Uncounted => MainSwap(t)
    case Claimed => MainSend(t)
    case Ended(_) =>
      if v.early.Listening? then (if v.mail || !v.wired then EarlyReceive(t) else HangUp(t))
      else if v.early.Notified? then EarlySwap(t)
      else EarlySend(t)
  }

  function MainLeft(m: Main): nat {
    match m
    case Spawned => 6
    case Executing => 5
    case Exited => 4
    case Joined => 3
    case Uncounted => 2
    case Claimed => 1
    case Ended(_) => 0
  }

  /** A bound on the steps the VM has still to take. */
  function StepsLeft(v: Vm): nat {
    MainLeft(v.main) +
    match v.early
    case Unborn => 4
    case Listening => if v.mail || !v.wired then 3 else 4
    case Notified => 2
    case Sending => 1
    case Closed(_) => 0
  }

  lemma NextStepCanHappen(c: Config, acts: seq<Action>, t: nat)
    requires ValidConfig(c) && Exec(c, acts).Some? && t < |Exec(c, acts).value.vms|
    requires FlagExact(Exec(c, acts).value.vms[t]) && !IsOver(Exec(c, acts).value.vms[t])
    ensures var s := Exec(c, acts).value; Enabled(c, s, NextStep(s.vms[t], t))
  {
    hide Exec;
    ChannelNeverFills(c, acts, t);
  }

  lemma NextStepIsNearer(v: Vm, t: nat)
    requires !IsOver(v) && FlagExact(v)
    ensures OfVm(NextStep(v, t)) && NextStep(v, t).t == t
    ensures StepsLeft(VmStep(v, NextStep(v, t))) < StepsLeft(v)
  {
  }

  /** Only steps of this VM's own two tasks, and of the guest's listener. */
  predicate OwnSteps(acts: seq<Action>, t: nat) { forall i | 0 <= i < |acts| :: OfVm(acts[i]) && acts[i].t == t }

  /**
   From every reachable state a VM can be brought to its end by steps of its own alone, within
   a bound, whatever the handler and the other VMs do; and then exactly one signal has been
   sent for it.
   */
  lemma VmCanFinish(c: Config, acts: seq<Action>, t: nat) returns (more: seq<Action>)
    requires ValidConfig(c) && Exec(c, acts).Some? && t < |Exec(c, acts).value.vms|
    ensures OwnSteps(more, t) && |more| <= StepsLeft(Exec(c, acts).value.vms[t])
    ensures Exec(c, acts + more).Some? && t < |Exec(c, acts + more).value.vms|
    ensures IsOver(Exec(c, acts + more).value.vms[t]) && Sends(acts + more, t) == 1
  {
    var s := Exec(c, acts).value;
    more := [];
    assert acts + more == acts;
    while !IsOver(s.vms[t])
      invariant OwnSteps(more, t) && Exec(c, acts + more) == Some(s) && t < |s.vms|
      invariant |more| + StepsLeft(s.vms[t]) <= StepsLeft(Exec(c, acts).value.vms[t])
      decreases StepsLeft(s.vms[t])
    {
      var a, s' := VmAdvances(c, acts + more, s, t);
      assert acts + more + [a] == acts + (more + [a]);
      s, more := s', more + [a];
    }
    OverMeansSent(c, acts + more, s, t);
  }

  lemma VmAdvances(c: Config, acts: seq<Action>, s: State, t: nat) returns (a: Action, s': State)
    requires ValidConfig(c) && Exec(c, acts) == Some(s) && t < |s.vms| && !IsOver(s.vms[t])
    ensures OfVm(a) && a.t == t && Exec(c, acts + [a]) == Some(s')
    ensures t < |s'.vms| && StepsLeft(s'.vms[t]) < StepsLeft(s.vms[t])
  {
    assert FlagExact(s.vms[t]) by {
      Reachable(c, acts);
    }
    a := NextStep(s.vms[t], t);
    NextStepCanHappen(c, acts, t);
    NextStepIsNearer(s.vms[t], t);
    s' := AfterVm(s, a);
    ExecOne(c, acts, a, s, s');
  }

  lemma OverMeansSent(c: Config, acts: seq<Action>, s: State, t: nat)
    requires ValidConfig(c) && Exec(c, acts) == Some(s) && t < |s.vms| && IsOver(s.vms[t])
    ensures Sends(acts, t) == 1
  {
    SendsAreRecorded(c, acts, t);
    assert FlagExact(s.vms[t]) by {
      Reachable(c, acts);
    }
  }

  /** A notification already in the channel is received even after the listener has gone. */
  lemma NotificationSurvivesHangUp(v: Vm, t: nat)
    requires v.mail && v.early.Listening?
    ensures VmStep(VmStep(v, HangUp(t)), EarlyReceive(t)).early.Notified?
  {
  }

  /** The race is real: with VSOCK there is a run after which both tasks of a VM are about to swap the flag. */
  lemma BothAboutToSwap(c: Config) returns (acts: seq<Action>, s: State)
    requires ValidConfig(c) && c.vsock && c.poolSize <= c.maxVms
    ensures Exec(c, acts) == Some(s) && s.vms != [] && !s.vms[0].signaled
    ensures Enabled(c, s, EarlySwap(0)) && Enabled(c, s, MainSwap(0))
  {
    hide Exec, Apply, Enabled;
    SpawnRoundsState(c, c.poolSize);
    acts, s := SpawnRounds(c.poolSize), Exec(c, SpawnRounds(c.poolSize)).value;
    var todo, k := [Start(0), JobCompleted(0), EarlyReceive(0), Exit(0), Join(0), CountDown(0)], 0;
    while k < 6
      invariant 0 <= k <= 6 && Exec(c, acts) == Some(s) && s.vms != [] && !s.vms[0].signaled
      invariant k == 0 ==> s.vms[0].main.Spawned? && s.vms[0].wired && !s.vms[0].mail
      invariant k == 1 ==> s.vms[0].main.Executing? && s.vms[0].early.Listening? && s.vms[0].wired && !s.vms[0].mail
      invariant k == 2 ==> s.vms[0].main.Executing? && s.vms[0].early.Listening? && s.vms[0].mail
      invariant k >= 3 ==> s.vms[0].early.Notified?
      invariant k == 3 ==> s.vms[0].main.Executing?
      invariant k == 4 ==> s.vms[0].main.Exited?
      invariant k == 5 ==> s.vms[0].main.Joined?
      invariant k == 6 ==> s.vms[0].main.Uncounted?
    {
      s := QuietStep(c, acts, s, todo[k]);
      acts, k := acts + [todo[k]], k + 1;
    }
    ReadyIsEnabled(c, s, EarlySwap(0));
    ReadyIsEnabled(c, s, MainSwap(0));
  }

  lemma ReadyIsEnabled(c: Config, s: State, a: Action)
    requires OfVm(a) && !IsSend(a) && a.t < |s.vms| && VmReady(c, s.vms[a.t], a)
    ensures Enabled(c, s, a)
  {
  }

  /** A step of a VM that sends nothing. */
  lemma QuietStep(c: Config, acts: seq<Action>, s: State, a: Action) returns (s': State)
    requires ValidConfig(c) && Exec(c, acts) == Some(s)
    requires OfVm(a) && !IsSend(a) && a.t < |s.vms| && VmReady(c, s.vms[a.t], a)
    ensures Exec(c, acts + [a]) == Some(s') && |s'.vms| == |s.vms| && s'.vms[a.t] == VmStep(s.vms[a.t], a)
  {
    s' := AfterVm(s, a);
    ReadyIsEnabled(c, s, a);
    ExecOne(c, acts, a, s, s');
  }
}
