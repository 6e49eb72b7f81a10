/**
 Ephemeral warm pool: the pairing of slots with repos made by the initial round-robin
 loop is kept for ever, because each replacement reuses the slot and the repo of the VM
 it replaces.
 */
module WarmPoolEphemeral {
  import opened Tally
  import opened WarmPool

  /** The token of a VM together with the repo it serves. */
  function PairsOf(v: Vm): multiset<Signal> {
    (if v.signaled then multiset{} else multiset{(v.slot, v.repo)})
    + (if v.early.Sending? then multiset{(v.slot, v.repo)} else multiset{})
    + (if v.main.Claimed? then multiset{(v.slot, v.repo)} else multiset{})
  }

  function HandlerPair(h: Handler): multiset<Signal> {
    if h.Got? || h.Slept? then multiset{h.signal} else multiset{}
  }

  /** Unclaimed VMs, claimed signals, queued signals and the replacement being prepared. */
  function InFlight(s: State): multiset<Signal> {
    multiset(s.channel) + Gather(s.vms, PairsOf) + HandlerPair(s.handler)
  }

  /** What the first `k` rounds of the initial loop hand out: descending slots, repos round-robin. */
  function Assigned(c: Config, k: nat): multiset<Signal>
    requires ValidConfig(c) && k <= c.maxVms
  {
    if k == 0 then multiset{} else Assigned(c, k - 1) + multiset{(c.maxVms - k, RepoFor(c, k - 1))}
  }

  /** How many rounds of the initial loop are done. */
  function RoundsDone(c: Config, s: State): nat { if s.handler.Spawning? then s.handler.next else c.poolSize }

  /** The free pool: the slots never handed out, below the one just returned. */
  ghost predicate PoolExact(c: Config, s: State)
    requires ValidConfig(c) && c.poolSize <= c.maxVms
  {
    && RoundsDone(c, s) <= c.poolSize
    && !s.handler.Panicked? && !s.handler.Scaling?
    && s.slotPool == Range(c.maxVms - RoundsDone(c, s)) + (if s.handler.Slept? then [s.handler.signal.0] else [])
  }

  ghost predicate EphemeralInv(c: Config, s: State)
    requires ValidConfig(c) && c.poolSize <= c.maxVms
  {
    !s.handler.Stopped? ==> PoolExact(c, s) && InFlight(s) == Assigned(c, RoundsDone(c, s))
  }

  lemma EarlyPairStep(c: Config, v: Vm, a: Action)
    requires (a.EarlySwap? || a.EarlySend? || a.EarlyReceive?) && FlagExact(v) && VmReady(c, v, a)
    ensures PairsOf(VmStep(v, a)) + (if IsSend(a) then multiset{(v.slot, v.repo)} else multiset{}) == PairsOf(v)
  {
  }

  lemma MainPairStep(c: Config, v: Vm, a: Action)
    requires OfVm(a) && !a.EarlySwap? && !a.EarlySend? && !a.EarlyReceive? && FlagExact(v) && VmReady(c, v, a)
    ensures PairsOf(VmStep(v, a)) + (if IsSend(a) then multiset{(v.slot, v.repo)} else multiset{}) == PairsOf(v)
  {
  }

  lemma PairStep(c: Config, v: Vm, a: Action)
    requires OfVm(a) && FlagExact(v) && VmReady(c, v, a)
    ensures PairsOf(VmStep(v, a)) + (if IsSend(a) then multiset{(v.slot, v.repo)} else multiset{}) == PairsOf(v)
  {
    if a.EarlySwap? || a.EarlySend? || a.EarlyReceive? {
      EarlyPairStep(c, v, a);
    } else {
      MainPairStep(c, v, a);
    }
  }

  lemma InFlightAfterMove(s: State, s': State, t: nat, v: Vm, sent: multiset<Signal>)
    requires t < |s.vms| && s'.vms == s.vms[t := v] && s'.handler == s.handler
    requires PairsOf(v) + sent == PairsOf(s.vms[t])
    requires multiset(s'.channel) == multiset(s.channel) + sent
    ensures InFlight(s') == InFlight(s)
  {
    GatherUpdate(s.vms, t, v, PairsOf);
    Cancel(multiset(s.channel), multiset(s'.channel), Gather(s.vms, PairsOf), Gather(s'.vms, PairsOf),
           PairsOf(s.vms[t]), PairsOf(v));
  }

  lemma VmKeeps(c: Config, s: State, s': State, a: Action)
    requires ValidConfig(c) && c.poolSize <= c.maxVms && EphemeralInv(c, s) && FlagsExact(s)
    requires OfVm(a) && Enabled(c, s, a) && s' == AfterVm(s, a)
    ensures EphemeralInv(c, s')
  {
    hide InFlight, Assigned;
    if !s.handler.Stopped? {
      VmInFlight(c, s, s', a);
      assert PoolExact(c, s');
    }
  }

  lemma VmInFlight(c: Config, s: State, s': State, a: Action)
    requires FlagsExact(s) && !s.handler.Stopped? && OfVm(a) && Enabled(c, s, a) && s' == AfterVm(s, a)
    ensures InFlight(s') == InFlight(s)
  {
    var v := s.vms[a.t];
    PairStep(c, v, a);
    InFlightAfterMove(s, s', a.t, VmStep(v, a), if IsSend(a) then multiset{(v.slot, v.repo)} else multiset{});
  }

  lemma InFlightAfterSpawn(s: State, repo: string, next: Handler)
    requires s.slotPool != [] && !s.handler.Got? && !next.Got? && !next.Slept?
    requires s.handler.Slept? ==> s.handler.signal == (s.slotPool[|s.slotPool| - 1], repo)
    ensures InFlight(Spawn(s, repo, next))
         == if s.handler.Slept? then InFlight(s) else InFlight(s) + multiset{(s.slotPool[|s.slotPool| - 1], repo)}
  {
    var v := NewVm(s.slotPool[|s.slotPool| - 1], repo);
    GatherAppend(s.vms, v, PairsOf);
    assert PairsOf(v) == multiset{(v.slot, repo)};
    RegroupSignals(multiset(s.channel), Gather(s.vms, PairsOf), multiset{(v.slot, repo)});
  }

  lemma RegroupSignals(queued: multiset<Signal>, held: multiset<Signal>, x: multiset<Signal>)
    ensures queued + (held + x) + multiset{} == queued + held + x
    ensures queued + held + multiset{} + x == queued + held + x
  {
  }

  lemma NextInitialPool(c: Config, s: State, s': State, k: nat)
    requires ValidConfig(c) && c.poolSize <= c.maxVms && PoolExact(c, s) && s.handler == Spawning(k)
    requires k < c.poolSize && s.slotPool != [] && s' == Spawn(s, RepoFor(c, k), Spawning(k + 1))
    ensures PoolExact(c, s') && s.slotPool[|s.slotPool| - 1] == c.maxVms - (k + 1)
  {
    assert s.slotPool == Range(c.maxVms - k);
    assert s'.slotPool == Range(c.maxVms - (k + 1));
  }

  lemma NextInitialKeeps(c: Config, s: State, s': State, k: nat)
    requires ValidConfig(c) && c.poolSize <= c.maxVms && EphemeralInv(c, s) && s.handler == Spawning(k)
    requires k < c.poolSize && s.slotPool != [] && s' == Spawn(s, RepoFor(c, k), Spawning(k + 1))
    ensures EphemeralInv(c, s')
  {
    NextInitialPool(c, s, s', k);
    InFlightAfterSpawn(s, RepoFor(c, k), Spawning(k + 1));
  }

  lemma LoopEndKeeps(c: Config, s: State, s': State)
    requires ValidConfig(c) && c.poolSize <= c.maxVms && EphemeralInv(c, s) && s.handler == Spawning(c.poolSize)
    requires s' == s.(handler := Idle)
    ensures EphemeralInv(c, s')
  {
    assert InFlight(s') == InFlight(s);
  }

  lemma InitialKeeps(c: Config, s: State, s': State)
    requires ValidConfig(c) && c.poolSize <= c.maxVms && EphemeralInv(c, s) && s.handler.Spawning?
    requires s' == if s.handler.next >= c.poolSize then s.(handler := Idle)
                   else if s.slotPool == [] then s.(handler := Panicked)
                   else Spawn(s, RepoFor(c, s.handler.next), Spawning(s.handler.next + 1))
    ensures EphemeralInv(c, s')
  {
    var k := s.handler.next;
    assert |s.slotPool| == c.maxVms - k && k <= c.poolSize by {
      assert PoolExact(c, s);
    }
    if k == c.poolSize {
      LoopEndKeeps(c, s, s');
    } else {
      NextInitialKeeps(c, s, s', k);
    }
  }

  lemma ReceiveKeeps(c: Config, s: State, s': State)
    requires ValidConfig(c) && c.poolSize <= c.maxVms && EphemeralInv(c, s) && s.handler.Idle? && s.channel != []
    requires s' == s.(handler := Got(s.channel[0]), channel := s.channel[1..])
    ensures EphemeralInv(c, s')
  {
    ReceiveInFlight(s, s');
    assert PoolExact(c, s');
  }

  lemma ReceiveInFlight(s: State, s': State)
    requires s.handler.Idle? && s.channel != []
    requires s' == s.(handler := Got(s.channel[0]), channel := s.channel[1..])
    ensures InFlight(s') == InFlight(s)
  {
    assert s.channel == [s.channel[0]] + s.channel[1..];
    Rotate(multiset{s.channel[0]}, multiset(s.channel[1..]), Gather(s.vms, PairsOf));
    assert multiset(s.channel) == multiset{s.channel[0]} + multiset(s.channel[1..]);
  }

  lemma Rotate(first: multiset<Signal>, rest: multiset<Signal>, held: multiset<Signal>)
    ensures rest + held + first == (first + rest) + held + multiset{}
  {
  }

  lemma PutBackKeeps(c: Config, s: State, s': State)
    requires ValidConfig(c) && c.poolSize <= c.maxVms && EphemeralInv(c, s) && s.handler.Got?
    requires s' == s.(slotPool := s.slotPool + [s.handler.signal.0], handler := Slept(s.handler.signal))
    ensures EphemeralInv(c, s')
  {
    assert InFlight(s') == InFlight(s);
  }

  lemma ReplaceKeeps(c: Config, s: State, s': State)
    requires ValidConfig(c) && c.poolSize <= c.maxVms && EphemeralInv(c, s) && s.handler.Slept? && s.slotPool != []
    requires s' == Spawn(s, s.handler.signal.1, Idle)
    ensures EphemeralInv(c, s')
  {
    InFlightAfterSpawn(s, s.handler.signal.1, Idle);
    assert s'.slotPool == Range(c.maxVms - c.poolSize);
  }

  lemma HandlerKeeps(c: Config, s: State, a: Action)
    requires ValidConfig(c) && c.ephemeral && c.poolSize <= c.maxVms && EphemeralInv(c, s)
    requires !OfVm(a) && Enabled(c, s, a)
    ensures EphemeralInv(c, Apply(c, s, a))
  {
    match a
    case SpawnInitial => InitialKeeps(c, s, Apply(c, s, a));
    case Receive => ReceiveKeeps(c, s, Apply(c, s, a));
    case PutBack => PutBackKeeps(c, s, Apply(c, s, a));
    case Replace => ReplaceKeeps(c, s, Apply(c, s, a));
    case Stop =>
    case Tick(_) => assert false;
    case ScaleUp => assert false;
  }

  lemma {:induction false} EphemeralReachable(c: Config, acts: seq<Action>)
    requires ValidConfig(c) && c.ephemeral && c.poolSize <= c.maxVms && Exec(c, acts).Some?
    ensures EphemeralInv(c, Exec(c, acts).value)
  {
    if acts != [] {
      var before, a := acts[..|acts| - 1], acts[|acts| - 1];
      EphemeralReachable(c, before);
      Reachable(c, before);
      var s := Exec(c, before).value;
      if OfVm(a) {
        VmKeeps(c, s, Apply(c, s, a), a);
      } else {
        HandlerKeeps(c, s, a);
      }
    }
  }

  /** The initial loop hands each of the top `k` slots out once, with the repo of its round. */
  lemma {:induction false} AssignedExactly(c: Config, k: nat, slot: nat, repo: string)
    requires ValidConfig(c) && k <= c.maxVms
    ensures |Assigned(c, k)| == k
    ensures Assigned(c, k)[(slot, repo)] ==
      if c.maxVms - k <= slot < c.maxVms && repo == RepoFor(c, c.maxVms - 1 - slot) then 1 else 0
  {
    hide RepoFor;
    if k > 0 {
      AssignedExactly(c, k - 1, slot, repo);
      var x: Signal := (c.maxVms - k, RepoFor(c, k - 1));
      OneMore(Assigned(c, k - 1), x, (slot, repo));
      assert slot == c.maxVms - k ==> (x == (slot, repo) <==> repo == RepoFor(c, c.maxVms - 1 - slot));
    }
  }

  lemma OneMore(m: multiset<Signal>, x: Signal, y: Signal)
    ensures |m + multiset{x}| == |m| + 1 && (m + multiset{x})[y] == m[y] + if x == y then 1 else 0
  {
  }

  predicate HoldsToken(v: Vm) { !v.signaled || v.early.Sending? || v.main.Claimed? }

  lemma InFlightSize(s: State)
    requires FlagsExact(s)
    ensures |InFlight(s)| ==
      Count(s.vms, HoldsToken) + |s.channel| + if s.handler.Got? || s.handler.Slept? then 1 else 0
  {
    forall i | 0 <= i < |s.vms|
      ensures |PairsOf(s.vms[i])| == if HoldsToken(s.vms[i]) then 1 else 0
    {
      assert FlagExact(s.vms[i]);
    }
    GatherSize(s.vms, PairsOf, HoldsToken);
    var held, queued, pair := Gather(s.vms, PairsOf), multiset(s.channel), HandlerPair(s.handler);
    assert |queued + held + pair| == |queued| + |held| + |pair|;
  }

  /**
   Until shutdown, once the initial loop is done: the in-flight (slot, repo) pairs are for
   ever the initial round-robin assignment, the other slots stay free, and the number of
   VMs and signals in flight is `warm_pool_size`.
   */
  lemma AssignmentHoldsForever(c: Config, acts: seq<Action>)
    requires ValidConfig(c) && c.ephemeral && c.poolSize <= c.maxVms && Exec(c, acts).Some?
    requires !Exec(c, acts).value.handler.Spawning? && !Exec(c, acts).value.handler.Stopped?
    ensures var s := Exec(c, acts).value;
      && InFlight(s) == Assigned(c, c.poolSize)
      && Count(s.vms, HoldsToken) + |s.channel| + (if s.handler.Got? || s.handler.Slept? then 1 else 0) == c.poolSize
      && Range(c.maxVms - c.poolSize) <= s.slotPool
  {
    EphemeralReachable(c, acts);
    Reachable(c, acts);
    AssignedNow(c, Exec(c, acts).value);
  }

  lemma AssignedNow(c: Config, s: State)
    requires ValidConfig(c) && c.poolSize <= c.maxVms && EphemeralInv(c, s) && FlagsExact(s)
    requires !s.handler.Spawning? && !s.handler.Stopped?
    ensures InFlight(s) == Assigned(c, c.poolSize) && Range(c.maxVms - c.poolSize) <= s.slotPool
    ensures Count(s.vms, HoldsToken) + |s.channel| + (if s.handler.Got? || s.handler.Slept? then 1 else 0) == c.poolSize
  {
    AssignedExactly(c, c.poolSize, 0, "");
    InFlightSize(s);
  }

  /** Round `i` of the initial loop serves repo index `i % n`; index `r` is served this often in `k` rounds. */
  function IndexLoad(k: nat, n: nat, r: nat): nat
    requires r < n
  {
    if k == 0 then 0 else IndexLoad(k - 1, n, r) + if (k - 1) % n == r then 1 else 0
  }

  lemma {:induction false} IndexLoadExact(k: nat, n: nat, r: nat)
    requires r < n
    ensures IndexLoad(k, n, r) == k / n + if r < k % n then 1 else 0
  {
    if k > 0 {
      IndexLoadExact(k - 1, n, r);
      DivModNext(k - 1, n);
    } else {
      assert 0 / n == 0 && 0 % n == 0;
    }
  }

  lemma DivModNext(k: nat, n: nat)
    requires n > 0
    ensures if k % n == n - 1 then (k + 1) / n == k / n + 1 && (k + 1) % n == 0
            else (k + 1) / n == k / n && (k + 1) % n == k % n + 1
  {
    var q, r := k / n, k % n;
    assert k == q * n + r;
    if r == n - 1 {
      assert k + 1 == (q + 1) * n;
      DivModUnique(k + 1, n, q + 1, 0);
    } else {
      DivModUnique(k + 1, n, q, r + 1);
    }
  }

  lemma DivModUnique(k: nat, n: nat, q: nat, r: nat)
    requires n > 0 && r < n && k == q * n + r
    ensures k / n == q && k % n == r
  {
    var q', r' := k / n, k % n;
    assert k == q' * n + r';
    if q' < q {
      MulGap(q', q, n);
    } else if q < q' {
      MulGap(q, q', n);
    }
  }

  lemma {:induction false} MulGap(a: nat, b: nat, n: nat)
    requires a < b
    ensures a * n + n <= b * n
  {
    assert b * n == (b - 1) * n + n;
    if a < b - 1 {
      MulGap(a, b - 1, n);
    }
  }

  /** Round-robin is fair: in any number of rounds the loads of two repo indices differ by at most one. */
  lemma RoundRobinIsBalanced(k: nat, n: nat, r1: nat, r2: nat)
    requires r1 < n && r2 < n
    ensures IndexLoad(k, n, r1) <= IndexLoad(k, n, r2) + 1
  {
    IndexLoadExact(k, n, r1);
    IndexLoadExact(k, n, r2);
  }

  /** How many slots are in flight for a repo. */
  function LoadOf(c: Config, s: State, repo: string): nat {
    Count(Range(c.maxVms), (slot: nat) => (slot, repo) in InFlight(s))
  }

  lemma {:induction false} LoadBySlots(c: Config, p: nat -> bool, j: nat, r: nat)
    requires c.repos != [] && r < |c.repos| && j <= c.poolSize <= c.maxVms
    requires forall x: nat | x < c.maxVms ::
      p(x) <==> c.maxVms - c.poolSize <= x && (c.maxVms - 1 - x) % |c.repos| == r
    ensures Count(Range(c.maxVms - j), p) + IndexLoad(j, |c.repos|, r) == Count(Range(c.maxVms), p)
  {
    if j > 0 {
      LoadBySlots(c, p, j - 1, r);
      var m := c.maxVms - j;
      assert Range(m + 1)[..m] == Range(m);
      assert p(m) <==> (j - 1) % |c.repos| == r;
    }
  }

  /**
   Repo-level ephemeral mode with distinct repos, until shutdown: the repo of index `r`
   always has exactly its initial round-robin share of the slots in flight, so the shares
   of any two repos differ by at most one in every reachable state.
   */
  lemma LoadsStayBalanced(c: Config, acts: seq<Action>, r1: nat, r2: nat)
    requires ValidConfig(c) && c.ephemeral && !c.isOrg && c.poolSize <= c.maxVms && Exec(c, acts).Some?
    requires !Exec(c, acts).value.handler.Spawning? && !Exec(c, acts).value.handler.Stopped?
    requires forall i, j | 0 <= i < j < |c.repos| :: c.repos[i] != c.repos[j]
    requires r1 < |c.repos| && r2 < |c.repos|
    ensures var s := Exec(c, acts).value;
      && LoadOf(c, s, c.repos[r1]) == IndexLoad(c.poolSize, |c.repos|, r1)
      && LoadOf(c, s, c.repos[r1]) <= LoadOf(c, s, c.repos[r2]) + 1
  {
    LoadIsShare(c, acts, r1);
    LoadIsShare(c, acts, r2);
    RoundRobinIsBalanced(c.poolSize, |c.repos|, r1, r2);
  }

  lemma LoadIsShare(c: Config, acts: seq<Action>, r: nat)
    requires ValidConfig(c) && c.ephemeral && !c.isOrg && c.poolSize <= c.maxVms && Exec(c, acts).Some?
    requires !Exec(c, acts).value.handler.Spawning? && !Exec(c, acts).value.handler.Stopped?
    requires forall i, j | 0 <= i < j < |c.repos| :: c.repos[i] != c.repos[j]
    requires r < |c.repos|
    ensures LoadOf(c, Exec(c, acts).value, c.repos[r]) == IndexLoad(c.poolSize, |c.repos|, r)
  {
    AssignmentHoldsForever(c, acts);
    AssignedLoad(c, Exec(c, acts).value, r);
  }

  lemma AssignedLoad(c: Config, s: State, r: nat)
    requires ValidConfig(c) && c.ephemeral && !c.isOrg && c.poolSize <= c.maxVms
    requires InFlight(s) == Assigned(c, c.poolSize)
    requires forall i, j | 0 <= i < j < |c.repos| :: c.repos[i] != c.repos[j]
    requires r < |c.repos|
    ensures LoadOf(c, s, c.repos[r]) == IndexLoad(c.poolSize, |c.repos|, r)
  {
    var repo := c.repos[r];
    var p := (slot: nat) => (slot, repo) in InFlight(s);
    forall x: nat | x < c.maxVms
      ensures p(x) <==> c.maxVms - c.poolSize <= x && (c.maxVms - 1 - x) % |c.repos| == r
    {
      AssignedExactly(c, c.poolSize, x, repo);
    }
    LoadBySlots(c, p, c.poolSize, r);
    CountNone(Range(c.maxVms - c.poolSize), p);
  }
}
