/** What holds of every schedule of warm-pool mode. */
module WarmPoolTheorems {
  import opened Wrappers
  import opened Tally
  import opened WarmPool

  /**
   Conservation: in every reachable state each slot below `maxVms` is in exactly one place
   (free pool, unclaimed VM, claimed-but-unsent signal, channel, handler, or dropped by
   shutdown) and no other slot is anywhere.
   */
  lemma EverySlotInOnePlace(c: Config, acts: seq<Action>, x: nat)
    requires ValidConfig(c) && Exec(c, acts).Some?
    ensures Places(Exec(c, acts).value)[x] == if x < c.maxVms then 1 else 0
  {
    Reachable(c, acts);
    AllSlotsOnce(c.maxVms, x);
  }

  lemma PlacesSize(c: Config, s: State)
    requires Places(s) == AllSlots(c.maxVms)
    ensures |s.slotPool| + |s.channel| + |HandlerToken(s.handler)| + |s.lost| + |Gather(s.vms, TokensOf)| == c.maxVms
  {
    AllSlotsOnce(c.maxVms, 0);
    GatherSize(s.channel, SlotOf, (signal: Signal) => true);
    GatherSize(s.lost, SlotOf, (signal: Signal) => true);
    AllCounted(s.channel);
    AllCounted(s.lost);
    var pool, sent, token := multiset(s.slotPool), Gather(s.channel, SlotOf), HandlerToken(s.handler);
    var lost, held := Gather(s.lost, SlotOf), Gather(s.vms, TokensOf);
    assert |pool + sent + token + lost + held| == |pool| + |sent| + |token| + |lost| + |held|;
  }

  lemma {:induction false} AllCounted(xs: seq<Signal>)
    ensures Count(xs, (signal: Signal) => true) == |xs|
  {
    if xs != [] {
      AllCounted(xs[..|xs| - 1]);
    }
  }

  /** A task that still holds its token leaves room in the channel: no send ever blocks. */
  lemma ChannelNeverFills(c: Config, acts: seq<Action>, t: nat)
    requires ValidConfig(c) && Exec(c, acts).Some?
    ensures var s := Exec(c, acts).value;
      && |s.channel| <= c.maxVms < 2 * c.maxVms == Capacity(c)
      && (t < |s.vms| && s.vms[t].early.Sending? ==> Enabled(c, s, EarlySend(t)))
      && (t < |s.vms| && s.vms[t].main.Claimed? ==> Enabled(c, s, MainSend(t)))
  {
    Reachable(c, acts);
    PlacesSize(c, Exec(c, acts).value);
  }

  /** The pop for a replacement never fails, and LIFO order gives back the slot just returned. */
  lemma ReplacementGetsSameSlot(c: Config, acts: seq<Action>)
    requires ValidConfig(c) && Exec(c, acts).Some? && Exec(c, acts).value.handler.Slept?
    ensures var s := Exec(c, acts).value;
      var (slot, repo) := s.handler.signal;
      Enabled(c, s, Replace) && Apply(c, s, Replace).vms == s.vms + [NewVm(slot, repo)]
  {
    Reachable(c, acts);
  }

  /** `active_jobs` counts the VMs between their two updates of it; its decrement never wraps. */
  lemma ActiveJobsNeverUnderflows(c: Config, acts: seq<Action>, t: nat)
    requires ValidConfig(c) && Exec(c, acts).Some?
    ensures var s := Exec(c, acts).value;
      s.active == Count(s.vms, IsCounted) && (Enabled(c, s, CountDown(t)) ==> s.active > 0)
  {
    Reachable(c, acts);
    CountedIsPositive(c, Exec(c, acts).value, t);
  }

  lemma CountedIsPositive(c: Config, s: State, t: nat)
    requires Control(c, s)
    ensures Enabled(c, s, CountDown(t)) ==> s.active > 0
  {
    if Enabled(c, s, CountDown(t)) {
      CountAt(s.vms, t, IsCounted);
    }
  }

  // ---- One signal per VM ----

  predicate SendsFor(a: Action, t: nat) { a == EarlySend(t) || a == MainSend(t) }

  /** How often a schedule sends the replacement signal of VM `t`. */
  function Sends(acts: seq<Action>, t: nat): nat {
    Count(acts, (a: Action) => SendsFor(a, t))
  }

  function Sent(v: Vm): nat {
    (if v.early == Closed(true) then 1 else 0) + if v.main == Ended(true) then 1 else 0
  }

  function SentOf(s: State, t: nat): nat { if t < |s.vms| then Sent(s.vms[t]) else 0 }

  lemma SentStep(c: Config, v: Vm, a: Action)
    requires OfVm(a) && FlagExact(v) && VmReady(c, v, a)
    ensures Sent(VmStep(v, a)) == Sent(v) + if IsSend(a) then 1 else 0
  {
  }

  lemma SentOfHandlerStep(c: Config, s: State, a: Action, t: nat)
    requires ValidConfig(c) && !OfVm(a) && Enabled(c, s, a)
    ensures SentOf(Apply(c, s, a), t) == SentOf(s, t)
  {
  }

  lemma SentOfStep(c: Config, s: State, a: Action, t: nat)
    requires ValidConfig(c) && FlagsExact(s) && Enabled(c, s, a)
    ensures SentOf(Apply(c, s, a), t) == SentOf(s, t) + if SendsFor(a, t) then 1 else 0
  {
    if OfVm(a) {
      SentStep(c, s.vms[a.t], a);
    } else {
      SentOfHandlerStep(c, s, a, t);
    }
  }

  lemma {:induction false} SendsAreRecorded(c: Config, acts: seq<Action>, t: nat)
    requires ValidConfig(c) && Exec(c, acts).Some?
    ensures Sends(acts, t) == SentOf(Exec(c, acts).value, t)
  {
    if acts != [] {
      var before, a := acts[..|acts| - 1], acts[|acts| - 1];
      SendsAreRecorded(c, before, t);
      Reachable(c, before);
      SentOfStep(c, Exec(c, before).value, a, t);
    }
  }

  /**
   Whatever the guest sends and however the join times out, a VM's replacement signal is
   sent at most once; once its main task has ended, it has been sent exactly once unless
   the detached early task is still about to send it.
   */
  lemma SignalSentOnce(c: Config, acts: seq<Action>, t: nat)
    requires ValidConfig(c) && Exec(c, acts).Some? && t < |Exec(c, acts).value.vms|
    ensures var v := Exec(c, acts).value.vms[t];
      && Sends(acts, t) <= 1
      && (v.main.Ended? && !v.early.Sending? ==> Sends(acts, t) == 1)
      && (v.main.Ended? && v.early.Sending? ==> Sends(acts, t) == 0 && v.main == Ended(false))
  {
    Reachable(c, acts);
    SendsAreRecorded(c, acts, t);
  }

  // ---- The initial spawn loop ----

  /** A schedule that runs only the initial spawn loop for `n` rounds. */
  function SpawnRounds(n: nat): seq<Action> { seq(n, _ => SpawnInitial) }

  lemma {:induction false} SpawnRoundsState(c: Config, n: nat)
    requires ValidConfig(c) && n <= c.poolSize && n <= c.maxVms
    ensures Exec(c, SpawnRounds(n)).Some?
    ensures var s := Exec(c, SpawnRounds(n)).value;
      s.handler == Spawning(n) && s.slotPool == Range(c.maxVms - n) && s.channel == [] && |s.vms| == n
      && forall i | 0 <= i < n :: s.vms[i] == NewVm(c.maxVms - 1 - i, RepoFor(c, i))
  {
    if n > 0 {
      SpawnRoundsState(c, n - 1);
      var s := Exec(c, SpawnRounds(n - 1)).value;
      assert SpawnRounds(n) == SpawnRounds(n - 1) + [SpawnInitial];
      RangePop(c.maxVms - (n - 1));
      ExecOne(c, SpawnRounds(n - 1), SpawnInitial, s, Spawn(s, RepoFor(c, n - 1), Spawning(n)));
    }
  }

  /**
   The `expect` of the initial spawn loop can fail exactly when `warm_pool_size` exceeds
   `max_concurrent_jobs`, which configuration validation does not rule out.
   */
  lemma InitialSpawnPanicsIffPoolTooLarge(c: Config)
    requires ValidConfig(c)
    ensures (exists acts :: Exec(c, acts).Some? && Exec(c, acts).value.handler.Panicked?) <==> c.poolSize > c.maxVms
  {
    if acts :| Exec(c, acts).Some? && Exec(c, acts).value.handler.Panicked? {
      Reachable(c, acts);
    }
    if c.poolSize > c.maxVms {
      SpawnRoundsState(c, c.maxVms);
      var acts := SpawnRounds(c.maxVms) + [SpawnInitial];
      assert acts[..|acts| - 1] == SpawnRounds(c.maxVms);
      assert Exec(c, acts).value.handler.Panicked?;
    }
  }

  // ---- Unclaimed VMs ----

  function UnsignaledSlot(v: Vm): multiset<nat> { if v.signaled then multiset{} else multiset{v.slot} }

  lemma {:induction false} UnsignaledHeld(vms: seq<Vm>)
    ensures Gather(vms, UnsignaledSlot) <= Gather(vms, TokensOf)
  {
    if vms != [] {
      UnsignaledHeld(vms[..|vms| - 1]);
    }
  }

  /** Unclaimed VMs never outnumber the slots, whatever runner lists GitHub returns. */
  lemma UnsignaledBounded(c: Config, acts: seq<Action>)
    requires ValidConfig(c) && Exec(c, acts).Some?
    ensures var s := Exec(c, acts).value;
      Count(s.vms, IsUnsignaled) + |s.slotPool| + |s.channel| + |s.lost| <= c.maxVms
  {
    Reachable(c, acts);
    var s := Exec(c, acts).value;
    PlacesSize(c, s);
    GatherSize(s.vms, UnsignaledSlot, IsUnsignaled);
    UnsignaledHeld(s.vms);
    SubmultisetSize(Gather(s.vms, UnsignaledSlot), Gather(s.vms, TokensOf));
  }

  lemma SubmultisetSize(a: multiset<nat>, b: multiset<nat>)
    requires a <= b
    ensures |a| <= |b|
  {
    assert b == a + (b - a);
  }

  /** Two VMs that nobody has claimed never share a slot. */
  lemma UnsignaledSlotsDistinct(c: Config, s: State, i: nat, j: nat)
    requires Places(s) == AllSlots(c.maxVms) && i < j < |s.vms|
    requires !s.vms[i].signaled && !s.vms[j].signaled
    ensures s.vms[i].slot != s.vms[j].slot
  {
    var x := s.vms[i].slot;
    GatherPair(s.vms, i, j, TokensOf);
    assert TokensOf(s.vms[i])[x] >= 1;
    HeldOnce(c.maxVms, Shared(s), Gather(s.vms, TokensOf), x);
    assert (TokensOf(s.vms[i]) + TokensOf(s.vms[j]))[x] <= 1;
    assert TokensOf(s.vms[j])[s.vms[j].slot] >= 1;
  }

  // ---- Exclusive execution ----

  /** No two VMs execute on one slot. */
  predicate Exclusive(s: State) {
    forall i, j | 0 <= i < j < |s.vms| && s.vms[i].main.Executing? && s.vms[j].main.Executing? ::
      s.vms[i].slot != s.vms[j].slot
  }

  /** Without VSOCK no notification ever arrives, so only the main task can claim. */
  predicate NoMail(v: Vm) {
    !v.mail && !v.early.Notified? && !EarlyClaims(v)
  }

  lemma NoMailStep(c: Config, v: Vm, a: Action)
    requires !c.vsock && OfVm(a) && VmReady(c, v, a) && NoMail(v)
    ensures NoMail(VmStep(v, a))
  {
  }

  lemma NoMailHandlerStep(c: Config, s: State, a: Action, i: nat)
    requires ValidConfig(c) && !OfVm(a) && Enabled(c, s, a) && i < |Apply(c, s, a).vms|
    requires i < |s.vms| ==> NoMail(s.vms[i])
    ensures NoMail(Apply(c, s, a).vms[i])
  {
  }

  lemma {:induction false} NoMailWithoutVsock(c: Config, acts: seq<Action>, i: nat)
    requires ValidConfig(c) && !c.vsock && Exec(c, acts).Some? && i < |Exec(c, acts).value.vms|
    ensures NoMail(Exec(c, acts).value.vms[i])
  {
    if acts != [] {
      var before, a := acts[..|acts| - 1], acts[|acts| - 1];
      var s := Exec(c, before).value;
      if i < |s.vms| {
        NoMailWithoutVsock(c, before, i);
      }
      if OfVm(a) {
        if a.t == i {
          NoMailStep(c, s.vms[i], a);
        }
      } else {
        NoMailHandlerStep(c, s, a, i);
      }
    }
  }

  lemma ExclusiveWithoutVsock(c: Config, acts: seq<Action>)
    requires ValidConfig(c) && !c.vsock && Exec(c, acts).Some?
    ensures Exclusive(Exec(c, acts).value)
  {
    Reachable(c, acts);
    var s := Exec(c, acts).value;
    forall i, j | 0 <= i < j < |s.vms| && s.vms[i].main.Executing? && s.vms[j].main.Executing?
      ensures s.vms[i].slot != s.vms[j].slot
    {
      NoMailWithoutVsock(c, acts, i);
      NoMailWithoutVsock(c, acts, j);
      UnsignaledSlotsDistinct(c, s, i, j);
    }
  }

  /** The VM on the last slot starts, its guest reports the job done, and the early task sends the signal. */
  lemma EarlySignalRun(c: Config, start: seq<Action>, s0: State) returns (acts: seq<Action>, s: State)
    requires ValidConfig(c) && c.vsock && Exec(c, start) == Some(s0)
    requires s0.handler.Idle? && s0.channel == [] && s0.vms != [] && s0.vms[0] == NewVm(s0.vms[0].slot, s0.vms[0].repo)
    ensures Exec(c, acts) == Some(s) && s.handler.Idle? && |s.vms| == |s0.vms|
    ensures s.channel == [(s0.vms[0].slot, s0.vms[0].repo)]
    ensures s.vms[0].main.Executing? && s.vms[0].slot == s0.vms[0].slot
  {
    var todo := [Start(0), JobCompleted(0), EarlyReceive(0), EarlySwap(0), EarlySend(0)];
    var k := 0;
    acts, s := start, s0;
    while k < 5
      invariant 0 <= k <= 5
      invariant Exec(c, acts) == Some(s) && s.handler.Idle? && |s.vms| == |s0.vms|
      invariant s.vms[0].slot == s0.vms[0].slot && s.vms[0].repo == s0.vms[0].repo
      invariant k == 0 ==> s.vms[0] == s0.vms[0]
      invariant k >= 1 ==> s.vms[0].main.Executing?
      invariant k == 1 ==> s.vms[0].early.Listening? && s.vms[0].wired && !s.vms[0].mail
      invariant k == 2 ==> s.vms[0].early.Listening? && s.vms[0].mail
      invariant k <= 3 ==> !s.vms[0].signaled
      invariant k == 3 ==> s.vms[0].early.Notified?
      invariant k == 4 ==> s.vms[0].early.Sending?
      invariant s.channel == if k == 5 then [(s0.vms[0].slot, s0.vms[0].repo)] else []
    {
      var s' := Apply(c, s, todo[k]);
      ExecOne(c, acts, todo[k], s, s');
      acts, s, k := acts + [todo[k]], s', k + 1;
    }
  }

  /** With VSOCK, the early signal lets a replacement start while the old VM still executes. */
  lemma SharedSlotWithVsock(c: Config) returns (acts: seq<Action>)
    requires ValidConfig(c) && c.vsock && c.poolSize <= c.maxVms
    ensures Exec(c, acts).Some? && !Exec(c, acts).value.handler.Stopped? && !Exclusive(Exec(c, acts).value)
  {
    var n := c.poolSize;
    SpawnRoundsState(c, n);
    var s0 := Exec(c, SpawnRounds(n)).value;
    var s1 := s0.(handler := Idle);
    ExecOne(c, SpawnRounds(n), SpawnInitial, s0, s1);
    var s;
    acts, s := EarlySignalRun(c, SpawnRounds(n) + [SpawnInitial], s1);
    var slot, todo, k := s.vms[0].slot, [Receive, PutBack, Replace, Start(n)], 0;
    while k < 4
      invariant 0 <= k <= 4
      invariant Exec(c, acts) == Some(s) && |s.vms| == if k >= 3 then n + 1 else n
      invariant s.vms[0].main.Executing? && s.vms[0].slot == slot
      invariant k == 0 ==> s.handler.Idle? && |s.channel| == 1 && s.channel[0].0 == slot
      invariant k == 1 ==> s.handler.Got? && s.handler.signal.0 == slot
      invariant k == 2 ==> s.handler.Slept? && s.slotPool != [] && s.slotPool[|s.slotPool| - 1] == slot
      invariant k >= 3 ==> s.vms[n].slot == slot && s.handler.Idle?
      invariant k == 3 ==> s.vms[n].main.Spawned?
      invariant k == 4 ==> s.vms[n].main.Executing?
    {
      var s' := Apply(c, s, todo[k]);
      ExecOne(c, acts, todo[k], s, s');
      acts, s, k := acts + [todo[k]], s', k + 1;
    }
    assert s.vms[0].main.Executing? && s.vms[n].main.Executing? && s.vms[0].slot == s.vms[n].slot;
  }

  /** While the initial loop runs, and after it has panicked, the i-th VM has the i-th slot from the top. */
  ghost predicate OnlyInitialVms(c: Config, s: State) {
    && (s.handler.Spawning? || s.handler.Panicked?)
    && |s.vms| + |s.slotPool| == c.maxVms && s.slotPool == Range(|s.slotPool|)
    && (s.handler.Spawning? ==> s.handler.next == |s.vms|)
    && forall i | 0 <= i < |s.vms| :: s.vms[i].slot == c.maxVms - 1 - i
  }

  lemma OversizedSpawn(c: Config, s: State, s': State, repo: string, k: nat)
    requires OnlyInitialVms(c, s) && s.handler == Spawning(k) && s.slotPool != []
      && s' == Spawn(s, repo, Spawning(k + 1))
    ensures OnlyInitialVms(c, s')
  {
    RangePop(|s.slotPool|);
  }

  lemma OversizedStep(c: Config, s: State, a: Action, s': State)
    requires ValidConfig(c) && c.poolSize > c.maxVms && OnlyInitialVms(c, s) && Enabled(c, s, a) && s' == Apply(c, s, a)
    ensures OnlyInitialVms(c, s')
  {
    if OfVm(a) {
      assert |s'.vms| == |s.vms| && s'.handler == s.handler && s'.slotPool == s.slotPool;
      assert forall i | 0 <= i < |s.vms| :: s'.vms[i].slot == s.vms[i].slot;
    } else {
      assert a.SpawnInitial? && s.handler.Spawning?;
      OversizedInitial(c, s, s');
    }
  }

  lemma OversizedInitial(c: Config, s: State, s': State)
    requires ValidConfig(c) && c.poolSize > c.maxVms && OnlyInitialVms(c, s) && s.handler.Spawning?
    requires s' == AfterHandler(c, s, SpawnInitial)
    ensures OnlyInitialVms(c, s')
  {
    if s.slotPool != [] {
      OversizedSpawn(c, s, s', RepoFor(c, s.handler.next), s.handler.next);
    }
  }

  lemma {:induction false} OversizedPoolOnlySpawns(c: Config, acts: seq<Action>)
    requires ValidConfig(c) && c.poolSize > c.maxVms && Exec(c, acts).Some?
    ensures OnlyInitialVms(c, Exec(c, acts).value)
  {
    if acts != [] {
      var before, a := acts[..|acts| - 1], acts[|acts| - 1];
      OversizedPoolOnlySpawns(c, before);
      OversizedStep(c, Exec(c, before).value, a, Exec(c, acts).value);
    }
  }

  /**
   VM-level exclusivity is exact: every reachable state has at most one executing VM per
   slot if and only if VSOCK is disabled, or the pool is too large ever to be replaced from.
   */
  lemma ExclusiveIffNoVsock(c: Config)
    requires ValidConfig(c)
    ensures (forall acts :: Exec(c, acts).Some? ==> Exclusive(Exec(c, acts).value)) <==>
      !c.vsock || c.poolSize > c.maxVms
  {
    if c.vsock && c.poolSize <= c.maxVms {
      var acts := SharedSlotWithVsock(c);
    } else {
      forall acts | Exec(c, acts).Some?
        ensures Exclusive(Exec(c, acts).value)
      {
        if c.vsock {
          OversizedPoolOnlySpawns(c, acts);
        } else {
          ExclusiveWithoutVsock(c, acts);
        }
      }
    }
  }
}
