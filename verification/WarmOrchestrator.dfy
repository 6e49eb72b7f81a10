/**
 The orchestrator object of warm-pool mode.  The object carries the schedule that led to
 its state; each method extends it by the actions it performs, so everything proved of
 schedules holds of the object.

 The methods of a VM's two tasks are single atomic sections.  In the handler's loops VM tasks
 act between any two sections: what they do there is a parameter.
 */
module WarmOrchestrator {
  import opened Wrappers
  import opened Interference
  import opened Tally
  import opened WarmPool
  import WarmPoolTheorems

  /** The VMs a spawn loop starts in `k` rounds: slots popped from the end, repos round-robin. */
  function Batch(c: Config, pool: seq<nat>, k: nat): (vms: seq<Vm>)
    requires ValidConfig(c) && k <= |pool|
    ensures |vms| == k
    ensures forall i | 0 <= i < k :: vms[i] == NewVm(pool[|pool| - 1 - i], RepoFor(c, i))
  {
    if k == 0 then [] else Batch(c, pool, k - 1) + [NewVm(pool[|pool| - k], RepoFor(c, k - 1))]
  }

  /** Where an action of a VM's task leads, if it can happen. */
  function TaskStep(c: Config): (State, Action) -> Option<State>
    requires ValidConfig(c)
  {
    (s, a) => if OfVm(a) && Enabled(c, s, a) then Some(Apply(c, s, a)) else None
  }

  /** The state after a schedule that can happen. */
  function At(c: Config, h: seq<Action>): State
    requires ValidConfig(c)
  {
    if Exec(c, h).Some? then Exec(c, h).value else Init(c)
  }

  /** The moment `h'`: since `h` only VM tasks have acted, doing what they can of `others`. */
  ghost predicate Reaches(c: Config, h: seq<Action>, others: seq<Action>, h': seq<Action>)
    requires ValidConfig(c)
  {
    Exec(c, h).Some? && Exec(c, h').Some? && h' == h + Taken(TaskStep(c), At(c, h), others)
  }

  /** A round of a loop leads from `h` to `h'`: the VM tasks do what they can of `others`, then the loop does `own`. */
  ghost predicate Round(c: Config, own: Action, h: seq<Action>, others: seq<Action>, h': seq<Action>) {
    && ValidConfig(c) && Exec(c, h).Some?
    && h' == h + Taken(TaskStep(c), At(c, h), others) + [own]
  }

  /** The schedule grows by rounds of a loop, from each of `at` to the next, and by nothing else. */
  ghost predicate Rounds(c: Config, own: Action, others: nat -> seq<Action>, at: seq<seq<Action>>) {
    forall k | 0 <= k < |at| - 1 :: Round(c, own, at[k], others(k), at[k + 1])
  }

  lemma RoundsNext(c: Config, own: Action, others: nat -> seq<Action>, at: seq<seq<Action>>, h: seq<Action>)
    requires at != [] && Rounds(c, own, others, at)
    requires Round(c, own, at[|at| - 1], others(|at| - 1), h)
    ensures Rounds(c, own, others, at + [h])
  {
    var longer := at + [h];
    forall k | 0 <= k < |at|
      ensures Round(c, own, longer[k], others(k), longer[k + 1])
    {
      assert k < |at| - 1 ==> Round(c, own, at[k], others(k), at[k + 1]);
    }
  }

  lemma NoRounds(c: Config, own: Action, others: nat -> seq<Action>, at: seq<seq<Action>>)
    requires |at| == 1
    ensures Rounds(c, own, others, at)
  {
  }

  /** The other tasks do nothing. */
  ghost predicate Quiet(others: nat -> seq<Action>) { forall k :: others(k) == [] }

  /** The VMs run on these slots for these repos, whatever has become of them. */
  ghost predicate SameRuns(vms: seq<Vm>, batch: seq<Vm>) {
    |vms| == |batch| && forall i | 0 <= i < |vms| :: vms[i].slot == batch[i].slot && vms[i].repo == batch[i].repo
  }

  /**
   What VM tasks cannot change meanwhile: the free slots, the handler, which VMs there are;
   and they only add to the channel, unless it is closed.
   */
  ghost predicate Meanwhile(s: State, s': State) {
    && s'.slotPool == s.slotPool && s'.handler == s.handler && SameRuns(s'.vms, s.vms)
    && (!s.handler.Stopped? ==> s.channel <= s'.channel && s'.lost == s.lost)
  }

  lemma MeanwhileStep(s: State, a: Action)
    requires OfVm(a) && a.t < |s.vms|
    ensures Meanwhile(s, AfterVm(s, a))
  {
  }

  lemma {:induction false} AmidMeanwhile(c: Config, s: State, acts: seq<Action>)
    requires ValidConfig(c)
    ensures Meanwhile(s, Amid(TaskStep(c), s, acts))
  {
    if acts != [] {
      var before, a := Amid(TaskStep(c), s, acts[..|acts| - 1]), acts[|acts| - 1];
      AmidMeanwhile(c, s, acts[..|acts| - 1]);
      if OfVm(a) && Enabled(c, before, a) {
        MeanwhileStep(before, a);
      }
    }
  }

  /**
   A spawn loop has started `k` VMs on the last free slots, repos round-robin; VM tasks have
   acted meanwhile, unless `quiet`.
   */
  ghost predicate Started(c: Config, s: State, s': State, k: nat, quiet: bool) {
    && ValidConfig(c) && k <= |s.slotPool| && s'.slotPool == s.slotPool[..|s.slotPool| - k]
    && SameRuns(s'.vms, s.vms + Batch(c, s.slotPool, k))
    && s.channel <= s'.channel && s'.lost == s.lost
    && (quiet ==> s'.vms == s.vms + Batch(c, s.slotPool, k) && s'.channel == s.channel && s'.active == s.active)
  }

  lemma StartedNothing(c: Config, s: State, s': State, quiet: bool)
    requires ValidConfig(c) && s'.slotPool == s.slotPool && SameRuns(s'.vms, s.vms)
    requires s.channel <= s'.channel && s'.lost == s.lost
    requires quiet ==> s'.vms == s.vms && s'.channel == s.channel && s'.active == s.active
    ensures Started(c, s, s', 0, quiet)
  {
    assert s.slotPool[..|s.slotPool|] == s.slotPool && s.vms + [] == s.vms;
  }

  lemma StartedMeanwhile(c: Config, s: State, s1: State, s2: State, k: nat, quiet: bool)
    requires Started(c, s, s1, k, quiet) && Meanwhile(s1, s2) && !s1.handler.Stopped? && (quiet ==> s1 == s2)
    ensures Started(c, s, s2, k, quiet)
  {
  }

  lemma StartedNext(c: Config, s: State, s1: State, s2: State, k: nat, next: Handler, quiet: bool)
    requires Started(c, s, s1, k, quiet) && s1.slotPool != [] && s2 == Spawn(s1, RepoFor(c, k), next)
    ensures Started(c, s, s2, k + 1, quiet)
  {
    var before, v := s.vms + Batch(c, s.slotPool, k), NewVm(s.slotPool[|s.slotPool| - k - 1], RepoFor(c, k));
    assert s.vms + Batch(c, s.slotPool, k + 1) == before + [v];
    assert s2.vms == s1.vms + [v];
  }

  /** VM tasks act, then a round of the loop is run. */
  lemma StartedRound(c: Config, start: State, s: State, s1: State, s2: State, k: nat, next: Handler, quiet: bool)
    requires Started(c, start, s, k, quiet) && Meanwhile(s, s1) && !s.handler.Stopped? && (quiet ==> s1 == s)
    requires s1.slotPool != [] && s2 == Spawn(s1, RepoFor(c, k), next)
    ensures Started(c, start, s2, k + 1, quiet)
  {
    StartedMeanwhile(c, start, s, s1, k, quiet);
    StartedNext(c, start, s1, s2, k, next, quiet);
  }

  /** VM tasks act first, then the loop runs. */
  lemma StartedAfter(c: Config, s: State, s1: State, s2: State, k: nat, still: bool, quiet: bool)
    requires Started(c, s1, s2, k, quiet)
    requires s1.slotPool == s.slotPool && SameRuns(s1.vms, s.vms) && s.channel <= s1.channel && s1.lost == s.lost
    requires still ==> s1.vms == s.vms && s1.channel == s.channel && s1.active == s.active
    ensures Started(c, s, s2, k, still && quiet)
  {
  }

  /** What the initial loop leaves: the VMs of the initial assignment, and the lower slots free. */
  ghost predicate InitialPool(c: Config, s: State, quiet: bool) {
    && ValidConfig(c) && c.poolSize <= c.maxVms
    && s.handler == Idle && s.lost == [] && s.slotPool == Range(c.maxVms - c.poolSize)
    && SameRuns(s.vms, Batch(c, Range(c.maxVms), c.poolSize))
    && (quiet ==> s.vms == Batch(c, Range(c.maxVms), c.poolSize) && s.channel == [] && s.active == 0)
  }

  lemma InitialResult(c: Config, s: State, s': State, quiet: bool)
    requires Started(c, Init(c), s, c.poolSize, quiet) && c.poolSize <= c.maxVms && s' == s.(handler := Idle)
    ensures InitialPool(c, s', quiet)
  {
    RangeTake(c.maxVms, c.maxVms - c.poolSize);
    var batch := Batch(c, Range(c.maxVms), c.poolSize);
    assert [] + batch == batch;
  }

  lemma StartedLeaves(c: Config, s: State, s': State, k: nat, quiet: bool)
    requires Started(c, s, s', k, quiet)
    ensures |s'.slotPool| == |s.slotPool| - k
  {
  }

  /** The loop has ended, at its target or out of slots. */
  lemma StartedDone(c: Config, s: State, s1: State, s2: State, k: nat, n: nat, quiet: bool)
    requires Started(c, s, s1, k, quiet) && s2 == s1.(handler := Idle) && k <= n && (k == n || s1.slotPool == [])
    ensures Started(c, s, s2, Min(n, |s.slotPool|), quiet)
  {
  }

  /** How many VMs a check has started, against its two limits. */
  lemma StartedWithin(c: Config, s: State, s': State, active: int, runners: seq<Runner>, quiet: bool)
    requires Started(c, s, s', Min(ToSpawn(c, active, runners), |s.slotPool|), quiet) && 0 <= IdleRunners(runners)
    ensures |s'.vms| - |s.vms| <= if IdleRunners(runners) < c.poolSize then c.poolSize - IdleRunners(runners) else 0
    ensures |s'.vms| != |s.vms| ==> active + |s'.vms| - |s.vms| <= c.maxVms
  {
  }

  /** The VM of round `k` of a spawn loop: on the last free slot but `k`, for the repos in turn. */
  ghost predicate OfRound(c: Config, pool: seq<nat>, v: Vm, k: nat) {
    && k < |pool| && v.slot == pool[|pool| - 1 - k]
    && if c.isOrg then v.repo == "" else c.repos != [] && v.repo == c.repos[k % |c.repos|]
  }

  /** `n` VMs came on top of the first `before`, one a round. */
  ghost predicate Assigned(c: Config, pool: seq<nat>, vms: seq<Vm>, before: nat, n: int) {
    0 <= n && |vms| == before + n && forall j | before <= j < |vms| :: OfRound(c, pool, vms[j], j - before)
  }

  lemma StartedAssigned(c: Config, s: State, s': State, k: nat, quiet: bool)
    requires Started(c, s, s', k, quiet)
    ensures Assigned(c, s.slotPool, s'.vms, |s.vms|, k)
  {
    hide OfRound, RepoFor;
    var batch, n := Batch(c, s.slotPool, k), |s.vms|;
    forall j | n <= j < |s'.vms|
      ensures OfRound(c, s.slotPool, s'.vms[j], j - n)
    {
      assert (s.vms + batch)[j] == batch[j - n];
      RoundIs(c, s.slotPool, s'.vms[j], j - n);
    }
  }

  lemma RoundIs(c: Config, pool: seq<nat>, v: Vm, k: nat)
    requires ValidConfig(c) && k < |pool| && v.slot == pool[|pool| - 1 - k] && v.repo == RepoFor(c, k)
    ensures OfRound(c, pool, v, k)
  {
  }

  /** Ours, online and not busy, by position in GitHub's list. */
  ghost function IdleAt(runners: seq<Runner>): set<int> {
    set i | 0 <= i < |runners| && "fc-" <= runners[i].name && runners[i].status == "online" && !runners[i].busy
  }

  lemma CounterIsNatural(c: Config, h: seq<Action>)
    requires ValidConfig(c) && Exec(c, h).Some?
    ensures At(c, h).active >= 0
  {
    Reachable(c, h);
  }

  /** The least of three limits: the standbys missing, what the counter leaves, the free slots. */
  ghost predicate FillsUp(c: Config, runners: seq<Runner>, active: int, free: nat, started: int) {
    var missing, allowed := c.poolSize - |IdleAt(runners)|, c.maxVms - active;
    && 0 <= started <= free
    && (started > 0 ==> started <= missing && started <= allowed)
    && (started == free || started >= missing || started >= allowed)
  }

  /** `total - busy` counts the idle runners. */
  lemma IdleIsNumber(runners: seq<Runner>)
    ensures IdleRunners(runners) == |IdleAt(runners)|
  {
    CountIsNumber(runners, IsOurs);
    CountIsNumber(runners, IsOursBusy);
    var ours, busy := Where(runners, IsOurs), Where(runners, IsOursBusy);
    assert ours == busy + IdleAt(runners);
    assert busy !! IdleAt(runners);
  }

  lemma StartedFillsUp(c: Config, s: State, s': State, active: int, runners: seq<Runner>, quiet: bool)
    requires Started(c, s, s', Min(ToSpawn(c, active, runners), |s.slotPool|), quiet) && active >= 0
    ensures FillsUp(c, runners, active, |s.slotPool|, |s'.vms| - |s.vms|)
  {
    hide IdleRunners;
    IdleIsNumber(runners);
  }

  lemma CheckOutcome(c: Config, s: State, s': State, h: seq<Action>, active: int, runners: seq<Runner>, quiet: bool)
    requires Started(c, s, s', Min(ToSpawn(c, active, runners), |s.slotPool|), quiet)
    requires Exec(c, h).Some? && active == At(c, h).active
    ensures |s'.vms| - |s.vms| <= if IdleRunners(runners) < c.poolSize then c.poolSize - IdleRunners(runners) else 0
    ensures |s'.vms| != |s.vms| ==> active + |s'.vms| - |s.vms| <= c.maxVms
    ensures FillsUp(c, runners, active, |s.slotPool|, |s'.vms| - |s.vms|)
    ensures Assigned(c, s.slotPool, s'.vms, |s.vms|, |s'.vms| - |s.vms|)
  {
    hide FillsUp, Assigned, IdleRunners;
    IdleIsNatural(runners);
    StartedWithin(c, s, s', active, runners, quiet);
    CounterIsNatural(c, h);
    StartedFillsUp(c, s, s', active, runners, quiet);
    StartedAssigned(c, s, s', Min(ToSpawn(c, active, runners), |s.slotPool|), quiet);
  }

  /** A VM has been started on the signal's slot, which was the last free one, for the signal's repo. */
  ghost predicate Replaced(s: State, s': State, signal: Signal, quiet: bool) {
    var added := NewVm(signal.0, signal.1);
    && SameRuns(s'.vms, s.vms + [added]) && s'.vms[|s.vms|] == added
    && s.slotPool == s'.slotPool + [signal.0] && s'.lost == s.lost && s.channel <= s'.channel
    && (quiet ==> s'.vms == s.vms + [added] && s'.channel == s.channel && s'.active == s.active)
  }

  /** From the receipt of the first signal of the channel to the replacement. */
  lemma CompletionHandled(s: State, s1: State, s2: State, s3: State, still: bool, quiet: bool)
    requires s.channel != [] && s1 == s.(handler := Got(s.channel[0]), channel := s.channel[1..])
    requires Meanwhile(s1, s2) && (still ==> s2 == s1)
    requires var s2' := s2.(slotPool := s2.slotPool + [s.channel[0].0], handler := Slept(s.channel[0]));
      Replaced(s2', s3, s.channel[0], quiet)
    ensures s3.slotPool == s.slotPool && s3.lost == s.lost
    ensures SameRuns(s3.vms, s.vms + [NewVm(s.channel[0].0, s.channel[0].1)])
    ensures s3.vms[|s.vms|] == NewVm(s.channel[0].0, s.channel[0].1) && s.channel[1..] <= s3.channel
    ensures still && quiet ==>
      && s3.vms == s.vms + [NewVm(s.channel[0].0, s.channel[0].1)]
      && s3.channel == s.channel[1..] && s3.active == s.active
  {
    var last := [s.channel[0].0];
    assert s3.slotPool == (s3.slotPool + last)[..|s3.slotPool|] && s.slotPool == (s.slotPool + last)[..|s.slotPool|];
  }

  /** The signal is at the end of the channel, or lost after shutdown; the free slots are as before. */
  ghost predicate Delivered(s: State, s': State, signal: Signal) {
    && s'.slotPool == s.slotPool && s'.handler == s.handler
    && s'.channel == (if s.handler.Stopped? then s.channel else s.channel + [signal])
    && s'.lost == (if s.handler.Stopped? then s.lost + [signal] else s.lost)
  }

  class Orchestrator {
    const config: Config
    var slotPool: seq<nat>
    var activeJobs: int
    var channel: seq<Signal>
    var handler: Handler
    var lost: seq<Signal>
    var vms: seq<Vm>
    ghost var history: seq<Action>

    function View(): State reads this {
      State(slotPool, activeJobs, channel, handler, lost, vms)
    }

    ghost predicate Valid() reads this {
      ValidConfig(config) && Exec(config, history) == Some(View())
    }

    /** The action `a` has just been performed. */
    twostate predicate Performed(a: Action) reads this {
      && old(Valid()) && Enabled(config, old(View()), a)
      && history == old(history) + [a]
      && View() == Apply(config, old(View()), a)
    }

    twostate lemma StillValid(a: Action)
      requires Performed(a)
      ensures Valid()
    {
      ExecOne(config, old(history), a, old(View()), View());
    }

    constructor (config: Config)
      requires ValidConfig(config)
      ensures Valid() && View() == Init(config) && history == [] && this.config == config
    {
      this.config := config;
      slotPool, activeJobs, channel := Range(config.maxVms), 0, [];
      handler, lost, vms := Spawning(0), [], [];
      history := [];
    }

    method Elsewhere(a: Action)
      requires Valid() && OfVm(a) && Enabled(config, View(), a)
      modifies this
      ensures Valid() && Performed(a)
    {
      var next := AfterVm(View(), a);
      slotPool, activeJobs, channel := next.slotPool, next.active, next.channel;
      handler, lost, vms, history := next.handler, next.lost, next.vms, history + [a];
      StillValid(a);
    }

    /** The next of these atomic sections, if it can happen. */
    method TakeNext(acts: seq<Action>, k: nat, ghost start: State, ghost h: seq<Action>)
      requires Valid() && k < |acts| && View() == Amid(TaskStep(config), start, acts[..k])
      requires history == h + Taken(TaskStep(config), start, acts[..k])
      modifies this
      ensures Valid() && View() == Amid(TaskStep(config), start, acts[..k + 1])
      ensures history == h + Taken(TaskStep(config), start, acts[..k + 1])
    {
      AmidNext(TaskStep(config), start, acts, k);
      if OfVm(acts[k]) && Enabled(config, View(), acts[k]) {
        Elsewhere(acts[k]);
      }
    }

    /** VM tasks, guests included, perform those of these atomic sections that can happen, in this order. */
    method Interleave(acts: seq<Action>)
      requires Valid()
      modifies this
      ensures Valid() && View() == Amid(TaskStep(config), old(View()), acts)
      ensures history == old(history) + Taken(TaskStep(config), old(View()), acts)
    {
      ghost var start, h := View(), history;
      for k := 0 to |acts|
        invariant Valid() && View() == Amid(TaskStep(config), start, acts[..k])
        invariant history == h + Taken(TaskStep(config), start, acts[..k])
      {
        TakeNext(acts, k, start, h);
      }
      assert acts[..|acts|] == acts;
    }

    /** Pop a slot and start a VM on it, then move the handler to `next`. */
    method PopAndSpawn(repo: string, next: Handler)
      requires slotPool != []
      modifies this
      ensures View() == Spawn(old(View()), repo, next) && history == old(history)
    {
      var slot := slotPool[|slotPool| - 1];
      slotPool := slotPool[..|slotPool| - 1];
      vms := vms + [NewVm(slot, repo)];
      handler := next;
    }

    /** One round of the initial spawn loop. */
    method InitialRound()
      requires Valid() && handler.Spawning? && handler.next < config.poolSize && slotPool != []
      modifies this
      ensures Valid() && Performed(SpawnInitial)
    {
      PopAndSpawn(RepoFor(config, handler.next), Spawning(handler.next + 1));
      history := history + [SpawnInitial];
      StillValid(SpawnInitial);
    }

    /** A round of the loop, after whatever VM tasks do before it. */
    method InitialRoundAmid(others: seq<Action>, ghost start: State, i: nat, ghost quiet: bool)
      requires Valid() && handler == Spawning(i) && i < config.poolSize && slotPool != []
      requires Started(config, start, View(), i, quiet) && (quiet ==> others == [])
      modifies this
      ensures Valid() && handler == Spawning(i + 1) && Started(config, start, View(), i + 1, quiet)
      ensures Round(config, SpawnInitial, old(history), others, history)
    {
      ghost var s := View();
      AmidMeanwhile(config, s, others);
      Interleave(others);
      ghost var s1 := View();
      InitialRound();
      StartedRound(config, start, s, s1, View(), i, Spawning(i + 1), quiet);
    }

    /**
     The initial spawn loop; its `expect` holds because the pool is no larger than the slots.
     `others(k)` is what the VMs started so far do before round `k`, and `at[k]` the schedule
     up to that round; it gains the rounds and nothing else.
     */
    method SpawnInitialPool(others: nat -> seq<Action>) returns (ghost at: seq<seq<Action>>)
      requires Valid() && View() == Init(config) && config.poolSize <= config.maxVms
      modifies this
      ensures Valid() && InitialPool(config, View(), Quiet(others))
      ensures |at| == config.poolSize + 1 && Rounds(config, SpawnInitial, others, at)
      ensures at[0] == old(history) && history == at[config.poolSize] + [SpawnInitial]
      ensures Assigned(config, Range(config.maxVms), vms, 0, config.poolSize)
    {
      ghost var start := View();
      at := InitialLoop(others, Quiet(others));
      ghost var last := View();
      InitialDone();
      StartedAssigned(config, start, last, config.poolSize, Quiet(others));
      InitialResult(config, last, View(), Quiet(others));
    }

    method InitialRoundNext(others: nat -> seq<Action>, ghost start: State, i: nat, ghost quiet: bool,
                            ghost at: seq<seq<Action>>)
      returns (ghost longer: seq<seq<Action>>)
      requires Valid() && handler == Spawning(i) && i < config.poolSize && slotPool != []
      requires Started(config, start, View(), i, quiet) && (quiet ==> others(i) == [])
      requires |at| == i + 1 && Rounds(config, SpawnInitial, others, at) && at[i] == history
      modifies this
      ensures Valid() && handler == Spawning(i + 1) && Started(config, start, View(), i + 1, quiet)
      ensures |longer| == i + 2 && Rounds(config, SpawnInitial, others, longer)
      ensures longer[0] == at[0] && longer[i + 1] == history
    {
      InitialRoundAmid(others(i), start, i, quiet);
      RoundsNext(config, SpawnInitial, others, at, history);
      longer := at + [history];
    }

    method InitialLoop(others: nat -> seq<Action>, ghost quiet: bool) returns (ghost at: seq<seq<Action>>)
      requires Valid() && handler == Spawning(0) && config.poolSize <= |slotPool|
      requires quiet ==> forall k :: others(k) == []
      modifies this
      ensures Valid() && handler == Spawning(config.poolSize)
      ensures Started(config, old(View()), View(), config.poolSize, quiet)
      ensures |at| == config.poolSize + 1 && Rounds(config, SpawnInitial, others, at)
      ensures at[0] == old(history) && at[config.poolSize] == history
    {
      hide Exec, Batch;
      ghost var start := View();
      StartedNothing(config, start, start, quiet);
      at := [history];
      for i := 0 to config.poolSize
        invariant Valid() && handler == Spawning(i) && Started(config, start, View(), i, quiet)
        invariant |at| == i + 1 && Rounds(config, SpawnInitial, others, at)
        invariant at[0] == old(history) && at[i] == history
      {
        StartedLeaves(config, start, View(), i, quiet);
        at := InitialRoundNext(others, start, i, quiet, at);
      }
    }

    method InitialDone()
      requires Valid() && handler == Spawning(config.poolSize)
      modifies this
      ensures Valid() && Performed(SpawnInitial) && View() == old(View()).(handler := Idle)
    {
      handler, history := Idle, history + [SpawnInitial];
      StillValid(SpawnInitial);
    }

    method TakeSignal()
      requires Valid() && Enabled(config, View(), Receive)
      modifies this
      ensures Valid() && Performed(Receive)
    {
      handler, channel, history := Got(channel[0]), channel[1..], history + [Receive];
      StillValid(Receive);
    }

    method ReturnSlot()
      requires Valid() && Enabled(config, View(), PutBack)
      modifies this
      ensures Valid() && Performed(PutBack)
    {
      slotPool, handler, history := slotPool + [handler.signal.0], Slept(handler.signal), history + [PutBack];
      StillValid(PutBack);
    }

    method Replacement()
      requires Valid() && Enabled(config, View(), Replace)
      modifies this
      ensures Valid() && Performed(Replace)
      ensures vms == old(vms) + [NewVm(old(handler).signal.0, old(handler).signal.1)]
      ensures old(slotPool) == slotPool + [old(handler).signal.0] && handler == Idle
    {
      assert HandlerInv(config, View()) by {
        Reachable(config, history);
      }
      PopAndSpawn(handler.signal.1, Idle);
      history := history + [Replace];
      StillValid(Replace);
    }

    /**
     Receive one completion signal, return its slot and spawn the replacement on that same
     slot for that same repo; VM tasks act before the slot is pushed and during the delay.
     */
    method HandleCompletion(beforePush: seq<Action>, whileAsleep: seq<Action>)
      returns (ghost h1: seq<Action>, ghost h2: seq<Action>)
      requires Valid() && handler == Idle && channel != []
      modifies this
      ensures Valid() && handler == Idle && slotPool == old(slotPool) && lost == old(lost)
      ensures SameRuns(vms, old(vms) + [NewVm(old(channel)[0].0, old(channel)[0].1)])
      ensures vms[|old(vms)|] == NewVm(old(channel)[0].0, old(channel)[0].1)
      ensures old(channel)[1..] <= channel
      ensures Reaches(config, old(history) + [Receive], beforePush, h1)
      ensures Reaches(config, h1 + [PutBack], whileAsleep, h2)
      ensures history == h2 + [Replace]
      ensures beforePush == whileAsleep == [] ==>
        && vms == old(vms) + [NewVm(old(channel)[0].0, old(channel)[0].1)]
        && channel == old(channel)[1..] && activeJobs == old(activeJobs)
    {
      ghost var start := View();
      TakeSignal();
      ghost var taken := View();
      AmidMeanwhile(config, taken, beforePush);
      Interleave(beforePush);
      h1 := history;
      ghost var pushed := View();
      ReturnSlot();
      h2 := ReplaceAfterDelay(whileAsleep);
      CompletionHandled(start, taken, pushed, View(), beforePush == [], whileAsleep == []);
    }

    /** The delay, with VM tasks acting, and the replacement after it. */
    method ReplaceAfterDelay(whileAsleep: seq<Action>) returns (ghost h2: seq<Action>)
      requires Valid() && handler.Slept?
      modifies this
      ensures Valid() && handler == Idle
      ensures Replaced(old(View()), View(), old(handler).signal, whileAsleep == [])
      ensures Reaches(config, old(history), whileAsleep, h2) && history == h2 + [Replace]
    {
      AmidMeanwhile(config, View(), whileAsleep);
      Interleave(whileAsleep);
      h2 := history;
      Replacement();
    }

    method StandbyRound()
      requires Valid() && handler.Scaling? && handler.next < handler.target && slotPool != []
      modifies this
      ensures Valid() && Performed(ScaleUp)
      ensures View() == Spawn(old(View()), RepoFor(config, old(handler).next),
                              Scaling(old(handler).next + 1, old(handler).target))
    {
      PopAndSpawn(RepoFor(config, handler.next), Scaling(handler.next + 1, handler.target));
      history := history + [ScaleUp];
      StillValid(ScaleUp);
    }

    /** A round of the autoscaler's loop, after whatever VM tasks do before it. */
    method StandbyRoundAmid(others: seq<Action>, ghost start: State, i: nat, n: nat, ghost quiet: bool)
      requires Valid() && handler == Scaling(i, n) && i < n && slotPool != []
      requires Started(config, start, View(), i, quiet) && (quiet ==> others == [])
      modifies this
      ensures Valid() && handler == Scaling(i + 1, n) && Started(config, start, View(), i + 1, quiet)
      ensures Round(config, ScaleUp, old(history), others, history)
    {
      hide Started, Batch, Exec, Taken, Apply, Enabled, RepoFor;
      ghost var s := View();
      AmidMeanwhile(config, s, others);
      Interleave(others);
      ghost var s1 := View();
      StandbyRound();
      StartedRound(config, start, s, s1, View(), i, Scaling(i + 1, n), quiet);
    }

    /**
     The autoscaler's spawn loop: it ends at the target or when the slots run out, whatever
     the VM tasks do before each round; the schedule gains the rounds and nothing else.
     */
    method SpawnStandbys(n: nat, others: nat -> seq<Action>) returns (ghost at: seq<seq<Action>>)
      requires Valid() && handler == Scaling(0, n)
      modifies this
      ensures Valid() && handler == Idle
      ensures Started(config, old(View()), View(), Min(n, |old(slotPool)|), Quiet(others))
      ensures |at| == Min(n, |old(slotPool)|) + 1 && Rounds(config, ScaleUp, others, at)
      ensures at[0] == old(history) && history == at[|at| - 1] + [ScaleUp]
    {
      ghost var start := View();
      at := StandbyLoop(n, others);
      ghost var last := View();
      StandbysDone();
      StartedDone(config, start, last, View(), |at| - 1, n, Quiet(others));
    }

    method StandbyRoundNext(others: nat -> seq<Action>, ghost start: State, i: nat, n: nat, ghost quiet: bool,
                            ghost at: seq<seq<Action>>)
      returns (ghost longer: seq<seq<Action>>)
      requires Valid() && handler == Scaling(i, n) && i < n && slotPool != []
      requires Started(config, start, View(), i, quiet) && (quiet ==> others(i) == [])
      requires |at| == i + 1 && Rounds(config, ScaleUp, others, at) && at[i] == history
      modifies this
      ensures Valid() && handler == Scaling(i + 1, n) && Started(config, start, View(), i + 1, quiet)
      ensures |longer| == i + 2 && Rounds(config, ScaleUp, others, longer)
      ensures longer[0] == at[0] && longer[i + 1] == history
    {
      StandbyRoundAmid(others(i), start, i, n, quiet);
      RoundsNext(config, ScaleUp, others, at, history);
      longer := at + [history];
    }

    method StandbyLoop(n: nat, others: nat -> seq<Action>) returns (ghost at: seq<seq<Action>>)
      requires Valid() && handler == Scaling(0, n)
      modifies this
      ensures |at| == Min(n, |old(slotPool)|) + 1 && Rounds(config, ScaleUp, others, at)
      ensures at[0] == old(history) && at[|at| - 1] == history
      ensures Valid() && handler == Scaling(|at| - 1, n) && (|at| - 1 == n || slotPool == [])
      ensures Started(config, old(View()), View(), |at| - 1, Quiet(others))
    {
      hide Exec, Batch;
      var i := 0;
      ghost var start, quiet := View(), Quiet(others);
      StartedNothing(config, start, start, quiet);
      at := [history];
      while i < n && slotPool != []
        invariant Valid() && handler == Scaling(i, n) && i <= n && Started(config, start, View(), i, quiet)
        invariant |at| == i + 1 && Rounds(config, ScaleUp, others, at)
        invariant at[0] == old(history) && at[i] == history
        decreases n - i
      {
        at := StandbyRoundNext(others, start, i, n, quiet, at);
        i := i + 1;
      }
      StartedLeaves(config, start, View(), i, quiet);
    }

    method StandbysDone()
      requires Valid() && handler.Scaling? && (handler.next >= handler.target || slotPool == [])
      modifies this
      ensures Valid() && Performed(ScaleUp) && View() == old(View()).(handler := Idle)
    {
      handler, history := Idle, history + [ScaleUp];
      StillValid(ScaleUp);
    }

    method ReadRunners(runners: seq<Runner>)
      requires Valid() && Enabled(config, View(), Tick(runners))
      modifies this
      ensures Valid() && Performed(Tick(runners))
    {
      var n := ToSpawn(config, activeJobs, runners);
      handler, history := if n == 0 then Idle else Scaling(0, n), history + [Tick(runners)];
      StillValid(Tick(runners));
    }

    /**
     One autoscaler check, with VM tasks acting before the counter is read, up to the moment
     `h1`, and before each spawn, from `at[k]` on.  It spawns exactly as many standbys as are missing, as the
     counter allows at the moment it is read, and as there are free slots.
     */
    method AutoscaleCheck(runners: seq<Runner>, beforeRead: seq<Action>, others: nat -> seq<Action>)
      returns (activeSeen: int, ghost h1: seq<Action>, ghost at: seq<seq<Action>>)
      requires Valid() && handler == Idle && !config.ephemeral
      modifies this
      ensures Valid() && handler == Idle
      ensures Reaches(config, old(history), beforeRead, h1) && activeSeen == At(config, h1).active
      ensures |at| == Min(ToSpawn(config, activeSeen, runners), |old(slotPool)|) + 1
      ensures at[0] == h1 + [Tick(runners)] && Rounds(config, ScaleUp, others, at)
      ensures history == at[|at| - 1] + if ToSpawn(config, activeSeen, runners) == 0 then [] else [ScaleUp]
      ensures Started(config, old(View()), View(), Min(ToSpawn(config, activeSeen, runners), |old(slotPool)|),
                      beforeRead == [] && Quiet(others))
      ensures |vms| - |old(vms)| <=
        if IdleRunners(runners) < config.poolSize then config.poolSize - IdleRunners(runners) else 0
      ensures |vms| != |old(vms)| ==> activeSeen + |vms| - |old(vms)| <= config.maxVms
      ensures FillsUp(config, runners, activeSeen, |old(slotPool)|, |vms| - |old(vms)|)
      ensures Assigned(config, old(slotPool), vms, |old(vms)|, |vms| - |old(vms)|)
    {
      hide Exec, Assigned, FillsUp, ToSpawn, Rounds, Started;
      ghost var start := View();
      activeSeen, h1 := LookAround(runners, beforeRead);
      at := [history];
      ghost var looked, quiet := View(), beforeRead == [] && Quiet(others);
      if handler.Scaling? {
        at := SpawnStandbys(handler.target, others);
        StartedAfter(config, start, looked, View(), Min(ToSpawn(config, activeSeen, runners), |looked.slotPool|),
                     beforeRead == [], Quiet(others));
      } else {
        NoRounds(config, ScaleUp, others, at);
        assert ToSpawn(config, activeSeen, runners) == 0;
        StartedNothing(config, start, looked, quiet);
      }
      CheckOutcome(config, start, View(), h1, activeSeen, runners, quiet);
    }

    /** The check up to its decision: the counter is read after whatever VM tasks do before. */
    method LookAround(runners: seq<Runner>, beforeRead: seq<Action>) returns (activeSeen: int, ghost h1: seq<Action>)
      requires Valid() && handler == Idle && !config.ephemeral
      modifies this
      ensures Valid() && Reaches(config, old(history), beforeRead, h1) && history == h1 + [Tick(runners)]
      ensures activeSeen == At(config, h1).active
      ensures var n := ToSpawn(config, activeSeen, runners); handler == if n == 0 then Idle else Scaling(0, n)
      ensures slotPool == old(slotPool) && SameRuns(vms, old(vms)) && old(channel) <= channel && lost == old(lost)
      ensures beforeRead == [] ==> vms == old(vms) && channel == old(channel) && activeJobs == old(activeJobs)
    {
      hide ToSpawn;
      AmidMeanwhile(config, View(), beforeRead);
      Interleave(beforeRead);
      activeSeen, h1 := activeJobs, history;
      ReadRunners(runners);
    }

    // ---- The two tasks of a VM ----

    method BeginVm(t: nat)
      requires Valid() && Enabled(config, View(), Start(t))
      modifies this
      ensures Valid() && Performed(Start(t))
    {
      activeJobs := activeJobs + 1;
      vms := vms[t := vms[t].(main := Executing, early := Listening)];
      history := history + [Start(t)];
      StillValid(Start(t));
    }

    /** The early task's atomic swap: it wins exactly if the main task has not claimed. */
    method SwapEarly(t: nat) returns (won: bool)
      requires Valid() && Enabled(config, View(), EarlySwap(t))
      modifies this
      ensures Valid() && Performed(EarlySwap(t))
      ensures vms[t].signaled && (won <==> !MainClaims(old(vms[t])))
    {
      assert FlagExact(vms[t]) by {
        Reachable(config, history);
      }
      won := !vms[t].signaled;
      vms := vms[t := vms[t].(signaled := true, early := if won then Sending else Closed(false))];
      history := history + [EarlySwap(t)];
      StillValid(EarlySwap(t));
    }

    /** The main task's atomic swap, after the VM has exited: it wins exactly if the early task has not claimed. */
    method SwapMain(t: nat) returns (won: bool)
      requires Valid() && Enabled(config, View(), MainSwap(t))
      modifies this
      ensures Valid() && Performed(MainSwap(t))
      ensures vms[t].signaled && (won <==> !EarlyClaims(old(vms[t])))
    {
      assert FlagExact(vms[t]) by {
        Reachable(config, history);
      }
      won := !vms[t].signaled;
      vms := vms[t := vms[t].(signaled := true, main := if won then Claimed else Ended(false))];
      history := history + [MainSwap(t)];
      StillValid(MainSwap(t));
    }

    method DecrementActive(t: nat)
      requires Valid() && Enabled(config, View(), CountDown(t))
      modifies this
      ensures Valid() && Performed(CountDown(t))
    {
      activeJobs := activeJobs - 1;
      vms := vms[t := vms[t].(main := Uncounted)];
      history := history + [CountDown(t)];
      StillValid(CountDown(t));
    }

    /** The early task sends the signal it has claimed: with it, exactly one has been sent for this VM. */
    method SendEarly(t: nat)
      requires Valid() && Enabled(config, View(), EarlySend(t))
      modifies this
      ensures Valid() && Performed(EarlySend(t)) && WarmPoolTheorems.Sends(history, t) == 1
      ensures Delivered(old(View()), View(), (vms[t].slot, vms[t].repo))
    {
      PutSignal((vms[t].slot, vms[t].repo));
      vms := vms[t := vms[t].(early := Closed(true))];
      history := history + [EarlySend(t)];
      StillValid(EarlySend(t));
      SentOnce(t);
    }

    /** The main task sends the signal it has claimed: with it, exactly one has been sent for this VM. */
    method SendMain(t: nat)
      requires Valid() && Enabled(config, View(), MainSend(t))
      modifies this
      ensures Valid() && Performed(MainSend(t)) && WarmPoolTheorems.Sends(history, t) == 1
      ensures Delivered(old(View()), View(), (vms[t].slot, vms[t].repo))
    {
      PutSignal((vms[t].slot, vms[t].repo));
      vms := vms[t := vms[t].(main := Ended(true))];
      history := history + [MainSend(t)];
      StillValid(MainSend(t));
      SentOnce(t);
    }

    lemma SentOnce(t: nat)
      requires Valid() && t < |vms| && (vms[t].early == Closed(true) || vms[t].main == Ended(true))
      ensures WarmPoolTheorems.Sends(history, t) == 1
    {
      Reachable(config, history);
      assert FlagExact(vms[t]);
      WarmPoolTheorems.SendsAreRecorded(config, history, t);
    }

    /** `done_tx.send`: delivered while the receiver lives, dropped afterwards. */
    method PutSignal(signal: Signal)
      modifies this`channel, this`lost
      ensures if handler.Stopped? then channel == old(channel) && lost == old(lost) + [signal]
              else channel == old(channel) + [signal] && lost == old(lost)
    {
      if handler.Stopped? {
        lost := lost + [signal];
      } else {
        channel := channel + [signal];
      }
    }
  }

  /** `total - busy` never underflows: busy runners of ours are among our runners. */
  lemma IdleIsNatural(runners: seq<Runner>)
    ensures 0 <= IdleRunners(runners) <= |runners|
  {
    CountStronger(runners, IsOursBusy, IsOurs);
    CountBounded(runners);
  }

  lemma {:induction false} CountBounded(runners: seq<Runner>)
    ensures Count(runners, IsOurs) <= |runners|
  {
    if runners != [] {
      CountBounded(runners[..|runners| - 1]);
    }
  }
}
