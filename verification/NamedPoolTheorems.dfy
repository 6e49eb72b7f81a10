/** What holds of every run of a named pool, and of several pools side by side. */
module NamedPoolTheorems {
  import opened Wrappers
  import opened Tally
  import opened NamedPool

  lemma {:induction false} SignalCount(xs: seq<Signal>)
    ensures |Gather(xs, SlotOf)| == |xs|
  {
    if xs != [] {
      SignalCount(xs[..|xs| - 1]);
    }
  }

  /** Slots are conserved in number: free, in service, signalled, being handled, or dropped by shutdown. */
  lemma SlotCount(c: Config, s: State)
    requires Places(s) == multiset(c.slots)
    ensures |s.slotPool| + Count(s.vms, InService) + |s.channel| + (if s.handler.Got? then 1 else 0) + |s.lost| ==
      |c.slots|
  {
    GatherSize(s.vms, TokensOf, InService);
    SignalCount(s.channel);
    SignalCount(s.lost);
    var pool, sent, token := multiset(s.slotPool), Gather(s.channel, SlotOf), HandlerToken(s.handler);
    var lost, held := Gather(s.lost, SlotOf), Gather(s.vms, TokensOf);
    assert |pool + sent + token + lost + held| == |pool| + |sent| + |token| + |lost| + |held|;
  }

  /** In every run: no slot of the pool is ever lost or made up, wherever it is. */
  lemma SlotsConserved(c: Config, acts: seq<Action>)
    requires ValidConfig(c) && Exec(c, acts).Some?
    ensures var s := Exec(c, acts).value;
      && Places(s) == multiset(c.slots)
      && |s.slotPool| + Count(s.vms, InService) + |s.channel| + (if s.handler.Got? then 1 else 0) + |s.lost| ==
        |c.slots|
  {
    Reachable(c, acts);
    SlotCount(c, Exec(c, acts).value);
  }

  /** No completion signal ever blocks: the channel is twice as large as the pool can need. */
  lemma ChannelNeverFills(c: Config, acts: seq<Action>, t: nat)
    requires ValidConfig(c) && Exec(c, acts).Some?
    ensures var s := Exec(c, acts).value;
      && |s.channel| <= |c.slots| < 2 * c.maxReady == Capacity(c)
      && (t < |s.vms| && s.vms[t].phase.Uncounted? ==> Enabled(c, s, Send(t)))
  {
    Reachable(c, acts);
    SlotCount(c, Exec(c, acts).value);
  }

  /** The manager's active counter is the number of executing VMs; its decrement never wraps. */
  lemma ActiveCountExact(c: Config, acts: seq<Action>, t: nat)
    requires ValidConfig(c) && Exec(c, acts).Some?
    ensures var s := Exec(c, acts).value;
      s.active == Count(s.vms, IsCounted) && (Enabled(c, s, CountDown(t)) ==> s.active > 0)
  {
    Reachable(c, acts);
    var s := Exec(c, acts).value;
    if Enabled(c, s, CountDown(t)) {
      CountAt(s.vms, t, IsCounted);
    }
  }

  /** The two branches that answer a completion without a replacement. */
  predicate Declines(s: State, a: Action) {
    || (a.CheckPaused? && s.handler.Slept? && s.paused)
    || (a.Decide? && s.handler.Sampled? && s.handler.active >= s.maxReady)
  }

  /**
   Outside the initial loop and shutdown, a step leaves the population alone, except that a
   declined completion lowers it by one.  In particular nothing ever raises it: neither
   resuming nor scaling up makes a pool regrow.
   */
  lemma PopulationStep(c: Config, s: State, a: Action)
    requires ValidConfig(c) && Inv(c, s) && Enabled(c, s, a)
    requires !s.handler.Spawning? && !s.handler.Stopped? && !a.Stop?
    ensures Population(Apply(c, s, a)) == Population(s) - if Declines(s, a) then 1 else 0
    ensures !Apply(c, s, a).handler.Spawning? && !Apply(c, s, a).handler.Stopped?
  {
    var s' := Apply(c, s, a);
    if OfVm(a) {
      PopulationAfterVm(s, a);
    } else if a.Decide? {
      PopulationAfterDecide(s, s', Declines(s, a));
    } else {
      PopulationAfterLook(c, s, a, s');
    }
  }

  lemma PopulationAfterDecide(s: State, s': State, declines: bool)
    requires s.handler.Sampled? && s.slotPool != []
    requires s' == if declines then s.(handler := Idle) else Spawn(s, s.handler.signal.1, Idle)
    ensures Population(s') == Population(s) - if declines then 1 else 0
  {
    if !declines {
      SpawnCounts(s, s.handler.signal.1, Idle);
    }
  }

  /** The other steps move no VM: a signal goes from the channel to the handler, or a flag is read or set. */
  lemma PopulationAfterLook(c: Config, s: State, a: Action, s': State)
    requires ValidConfig(c) && !OfVm(a) && OtherReady(s, a) && s' == AfterOther(c, s, a)
    requires !a.SpawnInitial? && !a.Decide? && !a.Stop?
    ensures Population(s') == Population(s) - if Declines(s, a) then 1 else 0
  {
  }

  /** Once shut down, the population only drains. */
  lemma PopulationDrains(c: Config, s: State, a: Action)
    requires ValidConfig(c) && Inv(c, s) && Enabled(c, s, a)
    requires s.handler.Stopped? || a.Stop?
    ensures Population(Apply(c, s, a)) <= Population(s) && Apply(c, s, a).handler.Stopped?
  {
    if OfVm(a) {
      PopulationAfterAnyVm(s, a);
    } else {
      PopulationAfterStop(c, s, a, Apply(c, s, a));
    }
  }

  lemma PopulationAfterStop(c: Config, s: State, a: Action, s': State)
    requires ValidConfig(c) && !OfVm(a) && OtherReady(s, a) && s' == AfterOther(c, s, a)
    requires s.handler.Stopped? || a.Stop?
    ensures Population(s') <= Population(s) && s'.handler.Stopped?
  {
  }

  lemma PopulationAfterAnyVm(s: State, a: Action)
    requires OfVm(a) && a.t < |s.vms| && VmReady(s.vms[a.t], a)
    ensures Population(AfterVm(s, a)) <= Population(s)
  {
    CountUpdate(s.vms, a.t, VmStep(s.vms[a.t], a), InService);
  }

  /** How many completions a schedule declined. */
  function Drops(c: Config, acts: seq<Action>): nat
    requires ValidConfig(c)
  {
    if acts == [] then 0
    else
      var before, a := acts[..|acts| - 1], acts[|acts| - 1];
      Drops(c, before) + if Exec(c, before).Some? && Declines(Exec(c, before).value, a) then 1 else 0
  }

  lemma InitialRound(c: Config, s: State)
    requires ValidConfig(c) && Inv(c, s) && s.handler.Spawning? && Population(s) == s.handler.next
    ensures var s' := Apply(c, s, SpawnInitial);
      Population(s') == if s'.handler.Spawning? then s'.handler.next else Target(c)
  {
    if s.handler.next < c.minReady && s.slotPool != [] {
      SpawnCounts(s, c.repos[s.handler.next % |c.repos|], Spawning(s.handler.next + 1));
    }
  }

  lemma InitialStep(c: Config, s: State, a: Action)
    requires ValidConfig(c) && Inv(c, s) && Enabled(c, s, a) && s.handler.Spawning? && Population(s) == s.handler.next
    ensures var s' := Apply(c, s, a);
      && !s'.handler.Stopped? && !Declines(s, a)
      && Population(s') == if s'.handler.Spawning? then s'.handler.next else Target(c)
  {
    if OfVm(a) {
      PopulationAfterVm(s, a);
    } else if a.SpawnInitial? {
      InitialRound(c, s);
    }
  }

  /**
   The population is exact at every moment before shutdown: it counts up to
   `min(min_ready, slots)` in the initial loop, and from then on it is that number minus
   the completions declined so far.
   */
  lemma {:induction false} PopulationExact(c: Config, acts: seq<Action>)
    requires ValidConfig(c) && Exec(c, acts).Some? && !Exec(c, acts).value.handler.Stopped?
    ensures var s := Exec(c, acts).value;
      if s.handler.Spawning? then Population(s) == s.handler.next && Drops(c, acts) == 0
      else Population(s) + Drops(c, acts) == Target(c)
  {
    if acts != [] {
      var before, a := acts[..|acts| - 1], acts[|acts| - 1];
      var s := Exec(c, before).value;
      Reachable(c, before);
      if s.handler.Stopped? || a.Stop? {
        PopulationDrains(c, s, a);
      } else {
        PopulationExact(c, before);
        if s.handler.Spawning? {
          InitialStep(c, s, a);
        } else {
          PopulationStep(c, s, a);
        }
      }
    }
  }

  /** The pool keeps its size exactly if it has declined no completion. */
  lemma KeepsSizeIffNothingDeclined(c: Config, acts: seq<Action>)
    requires ValidConfig(c) && Exec(c, acts).Some?
    requires !Exec(c, acts).value.handler.Stopped? && !Exec(c, acts).value.handler.Spawning?
    ensures Population(Exec(c, acts).value) == Target(c) <==> Drops(c, acts) == 0
  {
    PopulationExact(c, acts);
  }

  /** No completion was handled while paused, and the maximum was never scaled below the pool's size. */
  predicate Undisturbed(c: Config, acts: seq<Action>)
    requires ValidConfig(c)
  {
    acts == [] || (
      var before, a := acts[..|acts| - 1], acts[|acts| - 1];
      && Undisturbed(c, before)
      && (Exec(c, before).Some? && a.CheckPaused? ==> !Exec(c, before).value.paused)
      && (a.Scale? && a.newMax.Some? ==> a.newMax.value >= Target(c)))
  }

  lemma MaximumStep(c: Config, s: State, a: Action, s': State)
    requires ValidConfig(c) && Enabled(c, s, a) && s' == Apply(c, s, a) && s.maxReady >= Target(c)
    requires a.Scale? && a.newMax.Some? ==> a.newMax.value >= Target(c)
    ensures s'.maxReady >= Target(c)
  {
  }

  lemma {:induction false} MaximumStaysHigh(c: Config, acts: seq<Action>)
    requires ValidConfig(c) && Exec(c, acts).Some? && Undisturbed(c, acts)
    ensures Exec(c, acts).value.maxReady >= Target(c)
  {
    if acts != [] {
      var before, a := acts[..|acts| - 1], acts[|acts| - 1];
      MaximumStaysHigh(c, before);
      MaximumStep(c, Exec(c, before).value, a, Exec(c, acts).value);
    }
  }

  /** An undisturbed pool declines nothing, so it keeps its size at every moment. */
  lemma {:induction false} UndisturbedDeclinesNothing(c: Config, acts: seq<Action>)
    requires ValidConfig(c) && Exec(c, acts).Some? && Undisturbed(c, acts) && !Exec(c, acts).value.handler.Stopped?
    ensures Drops(c, acts) == 0
    ensures !Exec(c, acts).value.handler.Spawning? ==> Population(Exec(c, acts).value) == Target(c)
  {
    PopulationExact(c, acts);
    if acts != [] {
      var before, a := acts[..|acts| - 1], acts[|acts| - 1];
      var s := Exec(c, before).value;
      Reachable(c, before);
      if s.handler.Stopped? || a.Stop? {
        PopulationDrains(c, s, a);
      } else {
        UndisturbedDeclinesNothing(c, before);
        PopulationExact(c, before);
        MaximumStaysHigh(c, before);
      }
    }
  }

  /** A replacement runs on the slot just returned and for the same repo. */
  lemma ReplacementGetsSameSlot(c: Config, acts: seq<Action>)
    requires ValidConfig(c) && Exec(c, acts).Some? && Exec(c, acts).value.handler.Sampled?
    ensures var s := Exec(c, acts).value;
      var (slot, repo) := s.handler.signal;
      !Declines(s, Decide) ==> Apply(c, s, Decide).vms == s.vms + [Vm(slot, repo, Spawned)]
  {
    Reachable(c, acts);
  }

  // ---- Exclusive slots ----

  predicate Distinct(slots: seq<nat>) {
    forall i, j | 0 <= i < j < |slots| :: slots[i] != slots[j]
  }

  lemma {:induction false} DistinctOnce(slots: seq<nat>, x: nat)
    requires Distinct(slots)
    ensures multiset(slots)[x] <= 1
  {
    if slots != [] {
      var n := |slots| - 1;
      DistinctOnce(slots[..n], x);
      assert slots == slots[..n] + [slots[n]];
      forall i | 0 <= i < n
        ensures slots[..n][i] != slots[n]
      {
        assert slots[i] != slots[n];
      }
      assert slots[n] !in multiset(slots[..n]);
    }
  }

  /** Within one pool, two VMs in service never share a slot, and each uses a slot of the pool. */
  lemma InServiceSlots(c: Config, acts: seq<Action>, i: nat, j: nat)
    requires ValidConfig(c) && Exec(c, acts).Some? && Distinct(c.slots)
    requires i < j < |Exec(c, acts).value.vms|
    requires InService(Exec(c, acts).value.vms[i]) && InService(Exec(c, acts).value.vms[j])
    ensures Exec(c, acts).value.vms[i].slot != Exec(c, acts).value.vms[j].slot
  {
    Reachable(c, acts);
    var s := Exec(c, acts).value;
    var x := s.vms[i].slot;
    GatherPair(s.vms, i, j, TokensOf);
    DistinctOnce(c.slots, x);
    assert Gather(s.vms, TokensOf) <= Places(s);
    assert (TokensOf(s.vms[i]) + TokensOf(s.vms[j]))[x] <= Places(s)[x];
  }

  lemma InServiceSlotIsOurs(c: Config, acts: seq<Action>, i: nat)
    requires ValidConfig(c) && Exec(c, acts).Some?
    requires i < |Exec(c, acts).value.vms| && InService(Exec(c, acts).value.vms[i])
    ensures Exec(c, acts).value.vms[i].slot in c.slots
  {
    Reachable(c, acts);
    var s := Exec(c, acts).value;
    GatherAt(s.vms, i, TokensOf);
    assert s.vms[i].slot in Places(s);
  }

  /** Two pools with disjoint slots, each running on its own, never use one slot at the same time. */
  lemma PoolsNeverShareSlots(c: Config, acts: seq<Action>, i: nat, d: Config, acts': seq<Action>, j: nat)
    requires ValidConfig(c) && Exec(c, acts).Some? && ValidConfig(d) && Exec(d, acts').Some?
    requires forall x :: !(x in c.slots && x in d.slots)
    requires i < |Exec(c, acts).value.vms| && InService(Exec(c, acts).value.vms[i])
    requires j < |Exec(d, acts').value.vms| && InService(Exec(d, acts').value.vms[j])
    ensures Exec(c, acts).value.vms[i].slot != Exec(d, acts').value.vms[j].slot
  {
    InServiceSlotIsOurs(c, acts, i);
    InServiceSlotIsOurs(d, acts', j);
  }

  // ---- Progress ----

  function StepsLeft(p: Phase): nat {
    match p
    case Spawned => 3
    case Executing => 2
    case Uncounted => 1
    case Sent => 0
  }

  function NextStep(p: Phase, t: nat): Action
    requires !p.Sent?
  {
    match p
    case Spawned => Start(t)
    case Executing => CountDown(t)
    case Uncounted => Send(t)
  }

  lemma VmAdvances(c: Config, acts: seq<Action>, s: State, t: nat) returns (a: Action, s': State)
    requires ValidConfig(c) && Exec(c, acts) == Some(s) && t < |s.vms| && !s.vms[t].phase.Sent?
    ensures OfVm(a) && a.t == t && Exec(c, acts + [a]) == Some(s')
    ensures t < |s'.vms| && StepsLeft(s'.vms[t].phase) == StepsLeft(s.vms[t].phase) - 1
  {
    a := NextStep(s.vms[t].phase, t);
    ChannelNeverFills(c, acts, t);
    s' := AfterVm(s, a);
    ExecOne(c, acts, a, s, s');
  }

  /**
   From every reachable state a VM can be brought to its end, its signal sent, by exactly the
   steps it has left, whatever the manager, the operators and the other VMs do.
   */
  lemma VmCanFinish(c: Config, acts: seq<Action>, t: nat) returns (more: seq<Action>)
    requires ValidConfig(c) && Exec(c, acts).Some? && t < |Exec(c, acts).value.vms|
    ensures forall i | 0 <= i < |more| :: OfVm(more[i]) && more[i].t == t
    ensures |more| == StepsLeft(Exec(c, acts).value.vms[t].phase)
    ensures Exec(c, acts + more).Some? && t < |Exec(c, acts + more).value.vms|
    ensures Exec(c, acts + more).value.vms[t].phase.Sent?
  {
    var s := Exec(c, acts).value;
    more := [];
    assert acts + more == acts;
    while !s.vms[t].phase.Sent?
      invariant forall i | 0 <= i < |more| :: OfVm(more[i]) && more[i].t == t
      invariant Exec(c, acts + more) == Some(s) && t < |s.vms|
      invariant |more| + StepsLeft(s.vms[t].phase) == StepsLeft(Exec(c, acts).value.vms[t].phase)
      decreases StepsLeft(s.vms[t].phase)
    {
      var a, s' := VmAdvances(c, acts + more, s, t);
      assert acts + more + [a] == acts + (more + [a]);
      s, more := s', more + [a];
    }
  }
}
