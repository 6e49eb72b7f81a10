/** The pool manager object, and the split of the machine's slots between named pools. */
module PoolManager {
  import opened Wrappers
  import opened Interference
  import opened NamedPool
  import opened Tally

  /** The VMs of `k` rounds of the initial loop: slots popped from the end, repos round-robin. */
  function Batch(c: Config, k: nat): (vms: seq<Vm>)
    requires ValidConfig(c) && k <= |c.slots|
    ensures |vms| == k
    ensures forall i | 0 <= i < k :: vms[i] == Vm(c.slots[|c.slots| - 1 - i], c.repos[i % |c.repos|], Spawned)
  {
    if k == 0 then [] else Batch(c, k - 1) + [Vm(c.slots[|c.slots| - k], c.repos[(k - 1) % |c.repos|], Spawned)]
  }

  /** Anything but the manager's own loop: VM tasks, and the operator's pause, resume and scale. */
  predicate OfOthers(a: Action) { OfVm(a) || a.Pause? || a.Resume? || a.Scale? }

  /** Where an action of others leads, if it can happen. */
  function OthersStep(c: Config): (State, Action) -> Option<State>
    requires ValidConfig(c)
  {
    (s, a) => if OfOthers(a) && Enabled(c, s, a) then Some(Apply(c, s, a)) else None
  }

  /** The state after a schedule that can happen. */
  function At(c: Config, h: seq<Action>): State
    requires ValidConfig(c)
  {
    if Exec(c, h).Some? then Exec(c, h).value else Init(c)
  }

  /** The manager looks at the moment `h'`: since `h` only others have acted, doing what they can of `others`. */
  ghost predicate Looks(c: Config, h: seq<Action>, others: seq<Action>, h': seq<Action>)
    requires ValidConfig(c)
  {
    Exec(c, h).Some? && Exec(c, h').Some? && h' == h + Taken(OthersStep(c), At(c, h), others)
  }

  /** A round of the initial loop leads from `h` to `h'`, others doing what they can of `others` before it. */
  ghost predicate Round(c: Config, h: seq<Action>, others: seq<Action>, h': seq<Action>) {
    && ValidConfig(c) && Exec(c, h).Some?
    && h' == h + Taken(OthersStep(c), At(c, h), others) + [SpawnInitial]
  }

  /** The schedule grows by such rounds, from each of `at` to the next, and by nothing else. */
  ghost predicate Rounds(c: Config, others: nat -> seq<Action>, at: seq<seq<Action>>) {
    forall k | 0 <= k < |at| - 1 :: Round(c, at[k], others(k), at[k + 1])
  }

  lemma RoundsNext(c: Config, others: nat -> seq<Action>, at: seq<seq<Action>>, h: seq<Action>)
    requires at != [] && Rounds(c, others, at) && Round(c, at[|at| - 1], others(|at| - 1), h)
    ensures Rounds(c, others, at + [h])
  {
    var longer := at + [h];
    forall k | 0 <= k < |at|
      ensures Round(c, longer[k], others(k), longer[k + 1])
    {
      assert k < |at| - 1 ==> Round(c, at[k], others(k), at[k + 1]);
    }
  }

  ghost predicate Quiet(others: nat -> seq<Action>) { forall k :: others(k) == [] }

  /** The VMs run on these slots for these repos, whatever has become of them. */
  ghost predicate SameRuns(vms: seq<Vm>, batch: seq<Vm>) {
    |vms| == |batch| && forall i | 0 <= i < |vms| :: vms[i].slot == batch[i].slot && vms[i].repo == batch[i].repo
  }

  /** What they cannot change meanwhile; and they only add to the channel, unless it is closed. */
  ghost predicate Meanwhile(s: State, s': State) {
    && s'.slotPool == s.slotPool && s'.handler == s.handler && SameRuns(s'.vms, s.vms)
    && (!s.handler.Stopped? ==> s.channel <= s'.channel && s'.lost == s.lost)
  }

  lemma MeanwhileStep(c: Config, s: State, a: Action)
    requires ValidConfig(c) && OfOthers(a) && Enabled(c, s, a)
    ensures Meanwhile(s, Apply(c, s, a))
  {
  }

  lemma {:induction false} AmidMeanwhile(c: Config, s: State, acts: seq<Action>)
    requires ValidConfig(c)
    ensures Meanwhile(s, Amid(OthersStep(c), s, acts))
  {
    if acts != [] {
      var before, a := Amid(OthersStep(c), s, acts[..|acts| - 1]), acts[|acts| - 1];
      AmidMeanwhile(c, s, acts[..|acts| - 1]);
      if OfOthers(a) && Enabled(c, before, a) {
        MeanwhileStep(c, before, a);
      }
    }
  }

  /** The initial loop has started `k` VMs; others have acted meanwhile, unless `quiet`. */
  ghost predicate Started(c: Config, s: State, k: nat, quiet: bool) {
    && ValidConfig(c) && k <= |c.slots| && s.slotPool == c.slots[..|c.slots| - k]
    && SameRuns(s.vms, Batch(c, k)) && s.lost == []
    && (quiet ==> s.vms == Batch(c, k) && s.channel == [] && s.active == 0)
  }

  lemma StartedNext(c: Config, s: State, s': State, k: nat, quiet: bool)
    requires Started(c, s, k, quiet) && s.slotPool != [] && s' == Spawn(s, c.repos[k % |c.repos|], Spawning(k + 1))
    ensures Started(c, s', k + 1, quiet)
  {
    assert s'.vms == s.vms + [Vm(c.slots[|c.slots| - k - 1], c.repos[k % |c.repos|], Spawned)];
  }

  lemma StartedNothing(c: Config, quiet: bool)
    requires ValidConfig(c)
    ensures Started(c, Init(c), 0, quiet)
  {
  }

  /** The loop has come to its end after exactly the target. */
  lemma StartedAll(c: Config, s: State, k: nat, quiet: bool)
    requires Started(c, s, k, quiet) && k <= c.minReady && (k == c.minReady || s.slotPool == [])
    ensures k == Target(c)
  {
  }

  /** One VM a round, `min_ready` of them or as many as there are slots: the last slot first, the repos in turn. */
  ghost predicate FirstVms(c: Config, vms: seq<Vm>) {
    && |vms| == (if c.minReady < |c.slots| then c.minReady else |c.slots|)
    && forall k | 0 <= k < |vms| ::
         c.repos != [] && vms[k].slot == c.slots[|c.slots| - 1 - k] && vms[k].repo == c.repos[k % |c.repos|]
  }

  lemma StartedFirst(c: Config, s: State, quiet: bool)
    requires Started(c, s, Target(c), quiet)
    ensures FirstVms(c, s.vms)
  {
    var batch := Batch(c, Target(c));
    forall k | 0 <= k < |s.vms|
      ensures s.vms[k].slot == c.slots[|c.slots| - 1 - k] && s.vms[k].repo == c.repos[k % |c.repos|]
    {
      assert batch[k] == Vm(c.slots[|c.slots| - 1 - k], c.repos[k % |c.repos|], Spawned);
    }
  }

  lemma StartedMeanwhile(c: Config, s: State, s': State, k: nat, quiet: bool)
    requires Started(c, s, k, quiet) && Meanwhile(s, s') && !s.handler.Stopped? && (quiet ==> s' == s)
    ensures Started(c, s', k, quiet)
  {
  }

  /** Others act, then a round of the initial loop is run. */
  lemma StartedRound(c: Config, s: State, s1: State, s2: State, k: nat, quiet: bool)
    requires Started(c, s, k, quiet) && Meanwhile(s, s1) && !s.handler.Stopped? && (quiet ==> s1 == s)
    requires s1.slotPool != [] && s2 == Spawn(s1, c.repos[k % |c.repos|], Spawning(k + 1))
    ensures Started(c, s2, k + 1, quiet)
  {
    StartedMeanwhile(c, s, s1, k, quiet);
    StartedNext(c, s1, s2, k, quiet);
  }

  /**
   A completion has been answered: by a VM on the returned slot for the same repo, or not at
   all; others have acted meanwhile, unless `quiet`.
   */
  ghost predicate Answered(s: State, s': State, signal: Signal, replaced: bool, quiet: bool) {
    var added := if replaced then [Vm(signal.0, signal.1, Spawned)] else [];
    && SameRuns(s'.vms, s.vms + added) && (replaced ==> s'.vms[|s.vms|] == added[0])
    && s.slotPool == s'.slotPool + (if replaced then [signal.0] else [])
    && s'.lost == s.lost && s.channel <= s'.channel
    && (quiet ==> s'.vms == s.vms + added && s'.channel == s.channel && s'.active == s.active)
  }

  /** Others act first, then the completion is answered, or declined at once. */
  lemma AnsweredAfter(s: State, s1: State, s2: State, signal: Signal, replaced: bool, still: bool, quiet: bool)
    requires Meanwhile(s, s1) && !s.handler.Stopped? && (still ==> s1 == s)
    requires Answered(s1, s2, signal, replaced, quiet)
      || (!replaced && s2.vms == s1.vms && s2.slotPool == s1.slotPool && s2.lost == s1.lost
          && s2.channel == s1.channel && s2.active == s1.active)
    ensures Answered(s, s2, signal, replaced, still && quiet)
  {
  }

  class Manager {
    const config: Config
    var slotPool: seq<nat>
    var activeCount: int
    var paused: bool
    var minReady: nat
    var maxReady: nat
    var channel: seq<Signal>
    var handler: Handler
    var lost: seq<Signal>
    var vms: seq<Vm>
    ghost var history: seq<Action>

    function View(): State reads this {
      State(slotPool, activeCount, paused, minReady, maxReady, channel, handler, lost, vms)
    }

    ghost predicate Valid() reads this {
      ValidConfig(config) && Exec(config, history) == Some(View())
    }

    /** The action `a` has just been performed. */
    twostate predicate Performed(a: Action) reads this {
      && old(Valid()) && Enabled(config, old(View()), a)
      && history == old(history) + [a]
      && View() == Apply(config, old(View()), a)
    }

    twostate lemma StillValid(a: Action)
      requires Performed(a)
      ensures Valid()
    {
      ExecOne(config, old(history), a, old(View()), View());
    }

    constructor (config: Config)
      requires ValidConfig(config)
      ensures Valid() && View() == Init(config) && history == [] && this.config == config
    {
      this.config := config;
      slotPool, activeCount, channel, handler, lost, vms := config.slots, 0, [], Spawning(0), [], [];
      paused, minReady, maxReady := false, config.minReady, config.maxReady;
      history := [];
    }

    method PausePool()
      requires Valid()
      modifies this
      ensures Valid() && Performed(Pause) && paused
      ensures vms == old(vms) && slotPool == old(slotPool) && channel == old(channel) && handler == old(handler)
      ensures activeCount == old(activeCount) && minReady == old(minReady) && maxReady == old(maxReady)
    {
      paused, history := true, history + [Pause];
      StillValid(Pause);
    }

    method ResumePool()
      requires Valid()
      modifies this
      ensures Valid() && Performed(Resume) && !paused
      ensures vms == old(vms) && slotPool == old(slotPool) && channel == old(channel) && handler == old(handler)
      ensures activeCount == old(activeCount) && minReady == old(minReady) && maxReady == old(maxReady)
    {
      paused, history := false, history + [Resume];
      StillValid(Resume);
    }

    method ScalePool(newMin: Option<nat>, newMax: Option<nat>)
      requires Valid()
      modifies this
      ensures Valid() && Performed(Scale(newMin, newMax))
      ensures minReady == match newMin { case Some(n) => n case None => old(minReady) }
      ensures maxReady == match newMax { case Some(n) => n case None => old(maxReady) }
      ensures vms == old(vms) && slotPool == old(slotPool) && channel == old(channel) && handler == old(handler)
      ensures activeCount == old(activeCount) && paused == old(paused)
    {
      if newMin.Some? {
        minReady := newMin.value;
      }
      if newMax.Some? {
        maxReady := newMax.value;
      }
      history := history + [Scale(newMin, newMax)];
      StillValid(Scale(newMin, newMax));
    }

    method Elsewhere(a: Action)
      requires Valid() && OfOthers(a) && Enabled(config, View(), a)
      modifies this
      ensures Valid() && Performed(a)
    {
      var next := Apply(config, View(), a);
      slotPool, activeCount, channel := next.slotPool, next.active, next.channel;
      paused, minReady, maxReady := next.paused, next.minReady, next.maxReady;
      handler, lost, vms, history := next.handler, next.lost, next.vms, history + [a];
      StillValid(a);
    }

    /** The next of these steps, if it can happen. */
    method TakeNext(acts: seq<Action>, k: nat, ghost start: State, ghost h: seq<Action>)
      requires Valid() && k < |acts| && View() == Amid(OthersStep(config), start, acts[..k])
      requires history == h + Taken(OthersStep(config), start, acts[..k])
      modifies this
      ensures Valid() && View() == Amid(OthersStep(config), start, acts[..k + 1])
      ensures history == h + Taken(OthersStep(config), start, acts[..k + 1])
    {
      AmidNext(OthersStep(config), start, acts, k);
      if OfOthers(acts[k]) && Enabled(config, View(), acts[k]) {
        Elsewhere(acts[k]);
      }
    }

    /** Others perform those of these steps that can happen, in this order. */
    method Interleave(acts: seq<Action>)
      requires Valid()
      modifies this
      ensures Valid() && View() == Amid(OthersStep(config), old(View()), acts)
      ensures history == old(history) + Taken(OthersStep(config), old(View()), acts)
    {
      ghost var start, h := View(), history;
      for k := 0 to |acts|
        invariant Valid() && View() == Amid(OthersStep(config), start, acts[..k])
        invariant history == h + Taken(OthersStep(config), start, acts[..k])
      {
        TakeNext(acts, k, start, h);
      }
      assert acts[..|acts|] == acts;
    }

    method PopAndSpawn(repo: string, next: Handler)
      requires slotPool != []
      modifies this
      ensures View() == Spawn(old(View()), repo, next) && history == old(history)
    {
      var slot := slotPool[|slotPool| - 1];
      slotPool := slotPool[..|slotPool| - 1];
      vms := vms + [Vm(slot, repo, Spawned)];
      handler := next;
    }

    method InitialRound()
      requires Valid() && handler.Spawning? && handler.next < config.minReady && slotPool != []
      modifies this
      ensures Valid() && Performed(SpawnInitial)
    {
      PopAndSpawn(config.repos[handler.next % |config.repos|], Spawning(handler.next + 1));
      history := history + [SpawnInitial];
      StillValid(SpawnInitial);
    }

    /** A round of the initial loop, after whatever others do before it. */
    method InitialRoundAmid(others: seq<Action>, i: nat, ghost quiet: bool)
      requires Valid() && handler == Spawning(i) && i < config.minReady && slotPool != []
      requires Started(config, View(), i, quiet) && (quiet ==> others == [])
      modifies this
      ensures Valid() && handler == Spawning(i + 1) && Started(config, View(), i + 1, quiet)
      ensures Round(config, old(history), others, history)
    {
      ghost var s := View();
      AmidMeanwhile(config, s, others);
      Interleave(others);
      ghost var s1 := View();
      InitialRound();
      StartedRound(config, s, s1, View(), i, quiet);
    }

    method InitialRoundNext(others: nat -> seq<Action>, i: nat, ghost quiet: bool, ghost at: seq<seq<Action>>)
      returns (ghost longer: seq<seq<Action>>)
      requires Valid() && handler == Spawning(i) && i < config.minReady && slotPool != []
      requires Started(config, View(), i, quiet) && (quiet ==> others(i) == [])
      requires |at| == i + 1 && Rounds(config, others, at) && at[i] == history
      modifies this
      ensures Valid() && handler == Spawning(i + 1) && Started(config, View(), i + 1, quiet)
      ensures |longer| == i + 2 && Rounds(config, others, longer) && longer[0] == at[0] && longer[i + 1] == history
    {
      InitialRoundAmid(others(i), i, quiet);
      RoundsNext(config, others, at, history);
      longer := at + [history];
    }

    method InitialLoop(others: nat -> seq<Action>, ghost quiet: bool) returns (ghost at: seq<seq<Action>>)
      requires Valid() && handler == Spawning(0) && Started(config, View(), 0, quiet)
      requires quiet ==> forall k :: others(k) == []
      modifies this
      ensures at != [] && Rounds(config, others, at) && at[0] == old(history) && at[|at| - 1] == history
      ensures Valid() && handler == Spawning(|at| - 1) && Started(config, View(), |at| - 1, quiet)
      ensures |at| - 1 <= config.minReady && (|at| - 1 == config.minReady || slotPool == [])
    {
      hide Exec, Batch;
      var i := 0;
      at := [history];
      while i < config.minReady && slotPool != []
        invariant Valid() && handler == Spawning(i) && i <= config.minReady && Started(config, View(), i, quiet)
        invariant |at| == i + 1 && Rounds(config, others, at)
        invariant at[0] == old(history) && at[i] == history
        decreases config.minReady - i
      {
        at := InitialRoundNext(others, i, quiet, at);
        i := i + 1;
      }
    }

    /**
     The initial loop stops at `min_ready` or when the pool's slots run out, whatever others
     do before each round; the schedule gains the rounds, from `at[k]` on, and nothing else.
     */
    method SpawnInitialPool(others: nat -> seq<Action>) returns (ghost at: seq<seq<Action>>)
      requires Valid() && View() == Init(config)
      modifies this
      ensures Valid() && handler == Idle && Started(config, View(), Target(config), Quiet(others))
      ensures |at| == Target(config) + 1 && Rounds(config, others, at)
      ensures at[0] == old(history) && history == at[Target(config)] + [SpawnInitial]
      ensures FirstVms(config, vms)
    {
      hide FirstVms;
      StartedNothing(config, Quiet(others));
      at := InitialLoop(others, Quiet(others));
      StartedAll(config, View(), |at| - 1, Quiet(others));
      InitialDone();
      StartedFirst(config, View(), Quiet(others));
    }

    method InitialDone()
      requires Valid() && handler.Spawning? && (handler.next >= config.minReady || slotPool == [])
      modifies this
      ensures Valid() && Performed(SpawnInitial)
      ensures handler == Idle && channel == old(channel) && activeCount == old(activeCount)
      ensures slotPool == old(slotPool) && vms == old(vms)
    {
      handler, history := Idle, history + [SpawnInitial];
      StillValid(SpawnInitial);
    }

    method TakeSignal()
      requires Valid() && handler == Idle && channel != []
      modifies this
      ensures Valid() && Performed(Receive)
    {
      handler, channel, history := Got(channel[0]), channel[1..], history + [Receive];
      StillValid(Receive);
    }

    method ReturnSlot()
      requires Valid() && handler.Got?
      modifies this
      ensures Valid() && Performed(PutBack)
    {
      slotPool, handler, history := slotPool + [handler.signal.0], Slept(handler.signal), history + [PutBack];
      StillValid(PutBack);
    }

    /** Receive the first completion signal and push its slot back, others acting in between. */
    method TakeCompletion(others: seq<Action>) returns (ghost h1: seq<Action>)
      requires Valid() && handler == Idle && channel != []
      modifies this
      ensures Valid() && handler == Slept(old(channel)[0])
      ensures slotPool == old(slotPool) + [old(channel)[0].0] && lost == old(lost)
      ensures SameRuns(vms, old(vms)) && old(channel)[1..] <= channel
      ensures others == [] ==> vms == old(vms) && channel == old(channel)[1..] && activeCount == old(activeCount)
      ensures Looks(config, old(history) + [Receive], others, h1) && history == h1 + [PutBack]
    {
      TakeSignal();
      AmidMeanwhile(config, View(), others);
      Interleave(others);
      h1 := history;
      ReturnSlot();
    }

    /**
     Read the paused flag, then the counter, then the maximum, with others acting before each
     read; replace or decline by the values seen.  They are those of the moments `h1`, `h2`
     and `h3` of the schedule, which gains what others do and the three steps of the manager.
     */
    method AnswerCompletion(first: seq<Action>, second: seq<Action>, third: seq<Action>)
      returns (pausedSeen: bool, activeSeen: int, maxSeen: nat, replaced: bool,
               ghost h1: seq<Action>, ghost h2: seq<Action>, ghost h3: seq<Action>)
      requires Valid() && handler.Slept?
      modifies this
      ensures Valid() && handler == Idle
      ensures replaced <==> !pausedSeen && activeSeen < maxSeen
      ensures Answered(old(View()), View(), old(handler).signal, replaced, first == second == third == [])
      ensures Looks(config, old(history), first, h1) && pausedSeen == At(config, h1).paused
      ensures pausedSeen ==> history == h1 + [CheckPaused]
      ensures !pausedSeen ==>
        && Looks(config, h1 + [CheckPaused], second, h2) && activeSeen == At(config, h2).active
        && Looks(config, h2 + [ReadActive], third, h3) && maxSeen == At(config, h3).maxReady
        && history == h3 + [Decide]
    {
      AmidMeanwhile(config, View(), first);
      Interleave(first);
      pausedSeen, activeSeen, maxSeen, replaced, h1, h2, h3 := paused, 0, 0, false, history, [], [];
      ghost var looked := View();
      ReadPaused();
      if handler.Unpaused? {
        activeSeen, maxSeen, replaced, h2, h3 := DecideAmid(second, third);
      }
      AnsweredAfter(old(View()), looked, View(), old(handler).signal, replaced, first == [], second == third == []);
    }

    /** The rest of the answer, once the pool is seen not to be paused. */
    method DecideAmid(second: seq<Action>, third: seq<Action>)
      returns (activeSeen: int, maxSeen: nat, replaced: bool, ghost h2: seq<Action>, ghost h3: seq<Action>)
      requires Valid() && handler.Unpaused?
      modifies this
      ensures Valid() && handler == Idle
      ensures replaced <==> activeSeen < maxSeen
      ensures Answered(old(View()), View(), old(handler).signal, replaced, second == third == [])
      ensures Looks(config, old(history), second, h2) && activeSeen == At(config, h2).active
      ensures Looks(config, h2 + [ReadActive], third, h3) && maxSeen == At(config, h3).maxReady
      ensures history == h3 + [Decide]
    {
      AmidMeanwhile(config, View(), second);
      Interleave(second);
      ghost var looked := View();
      activeSeen, h2 := activeCount, history;
      SampleActive();
      maxSeen, replaced, h3 := ConcludeAmid(third);
      AnsweredAfter(old(View()), looked, View(), old(handler).signal, replaced, second == [], third == []);
    }

    method ConcludeAmid(third: seq<Action>) returns (maxSeen: nat, replaced: bool, ghost h3: seq<Action>)
      requires Valid() && handler.Sampled?
      modifies this
      ensures Valid() && handler == Idle
      ensures replaced <==> old(handler).active < maxSeen
      ensures Answered(old(View()), View(), old(handler).signal, replaced, third == [])
      ensures Looks(config, old(history), third, h3) && maxSeen == At(config, h3).maxReady
      ensures history == h3 + [Decide]
    {
      AmidMeanwhile(config, View(), third);
      Interleave(third);
      maxSeen, h3 := maxReady, history;
      replaced := Conclude();
    }

    method ReadPaused()
      requires Valid() && handler.Slept?
      modifies this
      ensures Valid() && Performed(CheckPaused)
    {
      handler, history := if paused then Idle else Unpaused(handler.signal), history + [CheckPaused];
      StillValid(CheckPaused);
    }

    method SampleActive()
      requires Valid() && handler.Unpaused?
      modifies this
      ensures Valid() && Performed(ReadActive)
    {
      handler, history := Sampled(handler.signal, activeCount), history + [ReadActive];
      StillValid(ReadActive);
    }

    method Conclude() returns (replaced: bool)
      requires Valid() && handler.Sampled?
      modifies this
      ensures Valid() && Performed(Decide)
      ensures replaced <==> old(handler).active < old(maxReady)
      ensures if !replaced then vms == old(vms) && slotPool == old(slotPool)
              else vms == old(vms) + [Vm(old(handler).signal.0, old(handler).signal.1, Spawned)]
                   && old(slotPool) == slotPool + [old(handler).signal.0]
    {
      assert HandlerInv(config, View()) by {
        Reachable(config, history);
      }
      replaced := handler.active < maxReady;
      if !replaced {
        handler := Idle;
      } else {
        PopAndSpawn(handler.signal.1, Idle);
      }
      history := history + [Decide];
      StillValid(Decide);
    }
  }

  // ---- The split of slots between pools ----

  datatype PoolSpec = PoolSpec(name: string, maxReady: nat)

  /** The sum of the requests of the first `i` pools. */
  function Requested(pools: seq<PoolSpec>, i: nat): nat
    requires i <= |pools|
  {
    if i == 0 then 0 else Requested(pools, i - 1) + pools[i - 1].maxReady
  }

  /** Slots left when pool `i` is served. */
  function Left(max: nat, pools: seq<PoolSpec>, i: nat): nat
    requires i <= |pools|
  {
    max - Min(max, Requested(pools, i))
  }

  /** `count` slots counting down from just below `top`. */
  function Descending(top: nat, count: nat): (slots: seq<nat>)
    requires count <= top
    ensures |slots| == count && forall i | 0 <= i < count :: slots[i] == top - 1 - i
  {
    seq(count, i requires 0 <= i < count => top - 1 - i)
  }

  /** Pool `i` gets exactly its request, cut down to what the pools before it left. */
  function Share(max: nat, pools: seq<PoolSpec>, i: nat): seq<nat>
    requires i < |pools|
  {
    Descending(Left(max, pools, i), Min(pools[i].maxReady, Left(max, pools, i)))
  }

  /** The managers registered after the first `i` pools; a repeated name replaces the earlier manager. */
  function Managers(max: nat, pools: seq<PoolSpec>, i: nat): map<string, seq<nat>>
    requires i <= |pools|
  {
    if i == 0 then map[]
    else if Share(max, pools, i - 1) == [] then Managers(max, pools, i - 1)
    else Managers(max, pools, i - 1)[pools[i - 1].name := Share(max, pools, i - 1)]
  }

  /** The greedy split: pop slots for each pool in turn; a pool left without slots gets no manager. */
  method SplitSlots(max: nat, pools: seq<PoolSpec>) returns (managers: map<string, seq<nat>>)
    ensures managers == Managers(max, pools, |pools|)
  {
    var all := Range(max);
    managers := map[];
    for i := 0 to |pools|
      invariant all == Range(Left(max, pools, i))
      invariant managers == Managers(max, pools, i)
    {
      var slots: seq<nat>;
      slots, all := TakeSlots(all, pools[i].maxReady);
      assert slots == Share(max, pools, i);
      assert all == Range(Left(max, pools, i + 1));
      if slots != [] {
        managers := managers[pools[i].name := slots];
      }
    }
  }

  /** Pop up to `wanted` slots off the end. */
  method TakeSlots(all: seq<nat>, wanted: nat) returns (slots: seq<nat>, rest: seq<nat>)
    requires all == Range(|all|)
    ensures slots == Descending(|all|, Min(wanted, |all|))
    ensures rest == Range(|all| - Min(wanted, |all|))
  {
    slots, rest := [], all;
    for i := 0 to wanted
      invariant slots == Descending(|all|, Min(i, |all|))
      invariant rest == Range(|all| - Min(i, |all|))
    {
      if rest != [] {
        slots := slots + [rest[|rest| - 1]];
        rest := rest[..|rest| - 1];
      }
    }
  }

  /** How many slots the first `i` pools got. */
  function SlotsGiven(max: nat, pools: seq<PoolSpec>, i: nat): nat
    requires i <= |pools|
  {
    if i == 0 then 0 else SlotsGiven(max, pools, i - 1) + |Share(max, pools, i - 1)|
  }

  /**
   The split is greedy: pool `i` gets its request, or what the pools before it have left if
   that is less, counting down from the highest slot left.
   */
  lemma {:induction false} ShareIsGreedy(max: nat, pools: seq<PoolSpec>, i: nat)
    requires i < |pools|
    ensures var left, share := max - SlotsGiven(max, pools, i), Share(max, pools, i);
      && 0 <= left && |share| == (if pools[i].maxReady <= left then pools[i].maxReady else left)
      && forall k | 0 <= k < |share| :: share[k] == left - 1 - k
  {
    GivenAndLeft(max, pools, i);
  }

  lemma {:induction false} GivenAndLeft(max: nat, pools: seq<PoolSpec>, i: nat)
    requires i <= |pools|
    ensures SlotsGiven(max, pools, i) + Left(max, pools, i) == max
  {
    if i > 0 {
      GivenAndLeft(max, pools, i - 1);
    }
  }

  lemma {:induction false} LeftDecreases(max: nat, pools: seq<PoolSpec>, i: nat, j: nat)
    requires i < j <= |pools|
    ensures Left(max, pools, j) + |Share(max, pools, i)| <= Left(max, pools, i)
  {
    if i < j - 1 {
      LeftDecreases(max, pools, i, j - 1);
    }
  }

  /** The shares are pairwise disjoint, without repeats, and within `0..max`. */
  lemma SharesDisjoint(max: nat, pools: seq<PoolSpec>, i: nat, j: nat, x: nat)
    requires i < j < |pools|
    ensures !(x in Share(max, pools, i) && x in Share(max, pools, j))
    ensures x in Share(max, pools, i) ==> x < max
    ensures forall a, b | 0 <= a < b < |Share(max, pools, i)| :: Share(max, pools, i)[a] != Share(max, pools, i)[b]
  {
    LeftDecreases(max, pools, i, j);
  }

  /** Every manager runs the last non-empty share under its name, and every such name has a manager. */
  lemma {:induction false} ManagersExact(max: nat, pools: seq<PoolSpec>, i: nat, name: string)
    requires i <= |pools|
    ensures name in Managers(max, pools, i) <==>
      exists k :: 0 <= k < i && pools[k].name == name && Share(max, pools, k) != []
    ensures name in Managers(max, pools, i) ==>
      exists k :: 0 <= k < i && pools[k].name == name && Managers(max, pools, i)[name] == Share(max, pools, k)
        && forall l | k < l < i && pools[l].name == name :: Share(max, pools, l) == []
  {
    if i > 0 {
      ManagersExact(max, pools, i - 1, name);
      if pools[i - 1].name == name && Share(max, pools, i - 1) != [] {
        assert Managers(max, pools, i)[name] == Share(max, pools, i - 1);
      }
    }
  }

  /** Managers of different names never have a slot in common, and use only slots below `max`. */
  lemma ManagersDisjoint(max: nat, pools: seq<PoolSpec>, a: string, b: string, x: nat)
    requires a != b && a in Managers(max, pools, |pools|) && b in Managers(max, pools, |pools|)
    ensures !(x in Managers(max, pools, |pools|)[a] && x in Managers(max, pools, |pools|)[b])
    ensures x in Managers(max, pools, |pools|)[a] ==> x < max
  {
    ManagersExact(max, pools, |pools|, a);
    ManagersExact(max, pools, |pools|, b);
    var k :| 0 <= k < |pools| && pools[k].name == a && Managers(max, pools, |pools|)[a] == Share(max, pools, k);
    var l :| 0 <= l < |pools| && pools[l].name == b && Managers(max, pools, |pools|)[b] == Share(max, pools, l);
    if k < l {
      SharesDisjoint(max, pools, k, l, x);
    } else {
      SharesDisjoint(max, pools, l, k, x);
    }
  }
}
