/**
 A named pool: a manager keeps VMs running on the slots the pool was given.  Pausing,
 resuming and scaling may happen at any moment, also between the manager's separate reads
 of the paused flag, the active counter and the maximum.
 */
module NamedPool {
  import opened Wrappers
  import opened Tally

  datatype Config = Config(slots: seq<nat>, minReady: nat, maxReady: nat, repos: seq<string>)

  /** What validation and the slot split guarantee; a pool without repos refuses to run. */
  predicate ValidConfig(c: Config) {
    c.repos != [] && c.minReady <= c.maxReady && 0 < |c.slots| <= c.maxReady
  }

  type Signal = (nat, string)

  datatype Phase = Spawned | Executing | Uncounted | Sent

  datatype Vm = Vm(slot: nat, repo: string, phase: Phase)

  datatype Handler =
    | Spawning(next: nat)
    | Idle
    | Got(signal: Signal)
    | Slept(signal: Signal)                 // slot pushed back, delay running
    | Unpaused(signal: Signal)              // read paused == false
    | Sampled(signal: Signal, active: int)  // read the active counter
    | Stopped

  datatype State = State(
    slotPool: seq<nat>,
    active: int,
    paused: bool,
    minReady: nat,
    maxReady: nat,
    channel: seq<Signal>,
    handler: Handler,
    lost: seq<Signal>,
    vms: seq<Vm>)

  datatype Action =
    | Start(t: nat)
    | CountDown(t: nat)
    | Send(t: nat)
    | SpawnInitial
    | Receive
    | PutBack
    | CheckPaused
    | ReadActive
    | Decide
    | Pause
    | Resume
    | Scale(newMin: Option<nat>, newMax: Option<nat>)
    | Stop

  function Init(c: Config): State {
    State(c.slots, 0, false, c.minReady, c.maxReady, [], Spawning(0), [], [])
  }

  function Capacity(c: Config): nat { 2 * c.maxReady }

  predicate OfVm(a: Action) { a.Start? || a.CountDown? || a.Send? }

  predicate VmReady(v: Vm, a: Action)
    requires OfVm(a)
  {
    match a
    case Start(_) => v.phase.Spawned?
    case CountDown(_) => v.phase.Executing?
    case Send(_) => v.phase.Uncounted?
  }

  function VmStep(v: Vm, a: Action): Vm
    requires OfVm(a)
  {
    v.(phase := if a.Start? then Executing else if a.CountDown? then Uncounted else Sent)
  }

  function AfterVm(s: State, a: Action): State
    requires OfVm(a) && a.t < |s.vms|
  {
    var v := s.vms[a.t];
    s.(vms := s.vms[a.t := VmStep(v, a)],
       active := s.active + (if a.Start? then 1 else if a.CountDown? then -1 else 0),
       channel := if a.Send? && !s.handler.Stopped? then s.channel + [(v.slot, v.repo)] else s.channel,
       lost := if a.Send? && s.handler.Stopped? then s.lost + [(v.slot, v.repo)] else s.lost)
  }

  function Spawn(s: State, repo: string, next: Handler): State
    requires s.slotPool != []
  {
    var n := |s.slotPool| - 1;
    s.(slotPool := s.slotPool[..n], vms := s.vms + [Vm(s.slotPool[n], repo, Spawned)], handler := next)
  }

  predicate OtherReady(s: State, a: Action)
    requires !OfVm(a)
  {
    match a
    case SpawnInitial => s.handler.Spawning?
    case Receive => s.handler.Idle? && s.channel != []
    case PutBack => s.handler.Got?
    case CheckPaused => s.handler.Slept?
    case ReadActive => s.handler.Unpaused?
    case Decide => s.handler.Sampled?
    case Pause => true
    case Resume => true
    case Scale(_, _) => true
    case Stop => s.handler.Idle? || s.handler.Slept?
  }

  function GetOr(value: Option<nat>, default: nat): nat { if value.Some? then value.value else default }

  function AfterOther(c: Config, s: State, a: Action): State
    requires ValidConfig(c) && !OfVm(a) && OtherReady(s, a)
  {
    match a
    case SpawnInitial =>
      var k := s.handler.next;
      if k >= c.minReady || s.slotPool == [] then s.(handler := Idle)
      else Spawn(s, c.repos[k % |c.repos|], Spawning(k + 1))
    case Receive => s.(handler := Got(s.channel[0]), channel := s.channel[1..])
    case PutBack => s.(slotPool := s.slotPool + [s.handler.signal.0], handler := Slept(s.handler.signal))
    case CheckPaused => s.(handler := if s.paused then Idle else Unpaused(s.handler.signal))
    case ReadActive => s.(handler := Sampled(s.handler.signal, s.active))
    case Decide =>
      if s.handler.active >= s.maxReady || s.slotPool == [] then s.(handler := Idle)
      else Spawn(s, s.handler.signal.1, Idle)
    case Pause => s.(paused := true)
    case Resume => s.(paused := false)
    case Scale(newMin, newMax) => s.(minReady := GetOr(newMin, s.minReady), maxReady := GetOr(newMax, s.maxReady))
    case Stop => s.(handler := Stopped, channel := [], lost := s.lost + s.channel)
  }

  predicate Enabled(c: Config, s: State, a: Action) {
    if OfVm(a) then
      && a.t < |s.vms| && VmReady(s.vms[a.t], a)
      && (a.Send? ==> s.handler.Stopped? || |s.channel| < Capacity(c))
    else OtherReady(s, a)
  }

  function Apply(c: Config, s: State, a: Action): State
    requires ValidConfig(c) && Enabled(c, s, a)
  {
    if OfVm(a) then AfterVm(s, a) else AfterOther(c, s, a)
  }

  function Exec(c: Config, acts: seq<Action>): Option<State>
    requires ValidConfig(c)
  {
    if acts == [] then Some(Init(c))
    else
      var before := Exec(c, acts[..|acts| - 1]);
      var a := acts[|acts| - 1];
      if before.Some? && Enabled(c, before.value, a) then Some(Apply(c, before.value, a)) else None
  }

  lemma ExecOne(c: Config, acts: seq<Action>, a: Action, s: State, s': State)
    requires ValidConfig(c) && Exec(c, acts) == Some(s) && Enabled(c, s, a) && s' == Apply(c, s, a)
    ensures Exec(c, acts + [a]) == Some(s')
  {
    assert (acts + [a])[..|acts|] == acts;
  }

  // ---- Tokens ----

  predicate InService(v: Vm) { !v.phase.Sent? }

  predicate IsCounted(v: Vm) { v.phase.Executing? }

  function TokensOf(v: Vm): multiset<nat> { if InService(v) then multiset{v.slot} else multiset{} }

  function SlotOf(signal: Signal): multiset<nat> { multiset{signal.0} }

  function HandlerToken(h: Handler): multiset<nat> { if h.Got? then multiset{h.signal.0} else multiset{} }

  function Shared(s: State): multiset<nat> {
    multiset(s.slotPool) + Gather(s.channel, SlotOf) + HandlerToken(s.handler) + Gather(s.lost, SlotOf)
  }

  function Places(s: State): multiset<nat> { Shared(s) + Gather(s.vms, TokensOf) }

  /** The handler owes a decision about one completed VM. */
  predicate Deciding(h: Handler) { h.Got? || h.Slept? || h.Unpaused? || h.Sampled? }

  /** VMs, completion signals and the completion being handled. */
  function Population(s: State): nat {
    Count(s.vms, InService) + |s.channel| + if Deciding(s.handler) then 1 else 0
  }

  /** The size of the pool right after the initial spawn loop. */
  function Target(c: Config): nat { if c.minReady < |c.slots| then c.minReady else |c.slots| }

  ghost predicate HandlerInv(c: Config, s: State) {
    match s.handler
    case Spawning(k) => k <= Target(c) && |s.slotPool| == |c.slots| - k
    case Slept(signal) => s.slotPool != [] && s.slotPool[|s.slotPool| - 1] == signal.0
    case Unpaused(signal) => s.slotPool != [] && s.slotPool[|s.slotPool| - 1] == signal.0
    case Sampled(signal, a) => s.slotPool != [] && s.slotPool[|s.slotPool| - 1] == signal.0 && a < Population(s)
    case _ => true
  }

  ghost predicate Control(c: Config, s: State) {
    && HandlerInv(c, s)
    && s.active == Count(s.vms, IsCounted)
    && (s.lost != [] ==> s.handler.Stopped?)
  }

  ghost predicate Inv(c: Config, s: State) {
    Places(s) == multiset(c.slots) && Control(c, s)
  }

  lemma SharedAfterVm(s: State, a: Action)
    requires OfVm(a) && a.t < |s.vms|
    ensures Shared(AfterVm(s, a)) == Shared(s) + if a.Send? then multiset{s.vms[a.t].slot} else multiset{}
  {
    if a.Send? {
      SendInto(multiset(s.slotPool), s.channel, HandlerToken(s.handler), s.lost, (s.vms[a.t].slot, s.vms[a.t].repo),
               SlotOf);
    }
  }

  lemma PlacesAfterVm(s: State, a: Action)
    requires OfVm(a) && a.t < |s.vms| && VmReady(s.vms[a.t], a)
    ensures Places(AfterVm(s, a)) == Places(s)
  {
    SharedAfterVm(s, a);
    DeliverFrom(s.vms, a.t, VmStep(s.vms[a.t], a), TokensOf, Shared(s), Shared(AfterVm(s, a)),
                if a.Send? then multiset{s.vms[a.t].slot} else multiset{});
  }

  /** A VM's own steps never change the population. */
  lemma PopulationAfterVm(s: State, a: Action)
    requires OfVm(a) && a.t < |s.vms| && VmReady(s.vms[a.t], a) && !s.handler.Stopped?
    ensures Population(AfterVm(s, a)) == Population(s)
  {
    CountUpdate(s.vms, a.t, VmStep(s.vms[a.t], a), InService);
  }

  lemma CountedAfterVm(s: State, a: Action)
    requires OfVm(a) && a.t < |s.vms| && VmReady(s.vms[a.t], a) && s.active == Count(s.vms, IsCounted)
    ensures AfterVm(s, a).active == Count(AfterVm(s, a).vms, IsCounted)
  {
    CountUpdate(s.vms, a.t, VmStep(s.vms[a.t], a), IsCounted);
  }

  lemma VmInv(c: Config, s: State, s': State, a: Action)
    requires ValidConfig(c) && Inv(c, s) && OfVm(a) && Enabled(c, s, a) && s' == AfterVm(s, a)
    ensures Inv(c, s')
  {
    PlacesAfterVm(s, a);
    CountedAfterVm(s, a);
    if !s.handler.Stopped? {
      PopulationAfterVm(s, a);
    }
  }

  lemma SpawnPlaces(s: State, s': State, repo: string, next: Handler)
    requires s.slotPool != [] && !s.handler.Got? && !next.Got? && s' == Spawn(s, repo, next)
    ensures Places(s') == Places(s)
  {
    var n := |s.slotPool| - 1;
    var v := Vm(s.slotPool[n], repo, Spawned);
    GatherAppend(s.vms, v, TokensOf);
    PopToken(s.slotPool);
    assert TokensOf(v) == multiset{s.slotPool[n]};
    Carry(multiset(s.slotPool[..n]), multiset{s.slotPool[n]}, Gather(s.channel, SlotOf), multiset{},
          Gather(s.lost, SlotOf), Gather(s.vms, TokensOf));
  }

  lemma SpawnCounts(s: State, repo: string, next: Handler)
    requires s.slotPool != []
    ensures var s' := Spawn(s, repo, next);
      && Count(s'.vms, InService) == Count(s.vms, InService) + 1
      && Count(s'.vms, IsCounted) == Count(s.vms, IsCounted)
  {
    var v := Vm(s.slotPool[|s.slotPool| - 1], repo, Spawned);
    CountAppend(s.vms, v, InService);
    CountAppend(s.vms, v, IsCounted);
  }

  lemma SpawnInv(c: Config, s: State, s': State, repo: string, next: Handler)
    requires Inv(c, s) && s.slotPool != [] && !s.handler.Got? && !s.handler.Stopped? && !next.Got?
    requires s' == Spawn(s, repo, next) && HandlerInv(c, s')
    ensures Inv(c, s')
  {
    SpawnPlaces(s, s', repo, next);
    SpawnCounts(s, repo, next);
  }

  lemma QuietInv(c: Config, s: State, s': State)
    requires Inv(c, s) && s'.vms == s.vms && s'.active == s.active
    requires Shared(s') == Shared(s) && HandlerInv(c, s') && (s'.lost != [] ==> s'.handler.Stopped?)
    ensures Inv(c, s')
  {
  }

  lemma PhaseInv(c: Config, s: State, s': State)
    requires Inv(c, s) && s'.vms == s.vms && s'.active == s.active && s'.slotPool == s.slotPool
    requires s'.channel == s.channel && s'.lost == s.lost && HandlerInv(c, s')
    requires s'.handler == s.handler || (!s.handler.Got? && !s'.handler.Got? && !s.handler.Stopped?)
    ensures Inv(c, s')
  {
    assert Shared(s') == Shared(s);
    QuietInv(c, s, s');
  }

  lemma ReceiveInv(c: Config, s: State, s': State)
    requires Inv(c, s) && s.handler.Idle? && s.channel != []
    requires s' == s.(handler := Got(s.channel[0]), channel := s.channel[1..])
    ensures Inv(c, s')
  {
    GatherHead(s.channel, SlotOf);
    assert Shared(s') == Shared(s);
    QuietInv(c, s, s');
  }

  lemma PutBackInv(c: Config, s: State, s': State)
    requires Inv(c, s) && s.handler.Got?
    requires s' == s.(slotPool := s.slotPool + [s.handler.signal.0], handler := Slept(s.handler.signal))
    ensures Inv(c, s')
  {
    assert Shared(s') == Shared(s);
    QuietInv(c, s, s');
  }

  lemma StopInv(c: Config, s: State, s': State)
    requires Inv(c, s) && (s.handler.Idle? || s.handler.Slept?)
    requires s' == s.(handler := Stopped, channel := [], lost := s.lost + s.channel)
    ensures Inv(c, s')
  {
    GatherConcat(s.lost, s.channel, SlotOf);
    assert Shared(s') == Shared(s);
    QuietInv(c, s, s');
  }

  /** Executing VMs are in service, and the handler's completion is not one of them. */
  lemma ActiveBelowPopulation(s: State)
    requires s.active == Count(s.vms, IsCounted) && Deciding(s.handler)
    ensures s.active < Population(s)
  {
    CountStronger(s.vms, IsCounted, InService);
  }

  lemma SpawnInitialInv(c: Config, s: State, s': State)
    requires ValidConfig(c) && Inv(c, s) && s.handler.Spawning?
    requires s' == AfterOther(c, s, SpawnInitial)
    ensures Inv(c, s')
  {
    var k := s.handler.next;
    if k >= c.minReady || s.slotPool == [] {
      PhaseInv(c, s, s');
    } else {
      SpawnInv(c, s, s', c.repos[k % |c.repos|], Spawning(k + 1));
    }
  }

  lemma DecideInv(c: Config, s: State, s': State)
    requires ValidConfig(c) && Inv(c, s) && s.handler.Sampled? && s' == AfterOther(c, s, Decide)
    ensures Inv(c, s')
  {
    if s.handler.active >= s.maxReady {
      PhaseInv(c, s, s');
    } else {
      SpawnInv(c, s, s', s.handler.signal.1, Idle);
    }
  }

  lemma CheckPausedInv(c: Config, s: State, s': State)
    requires Inv(c, s) && s.handler.Slept?
    requires s' == s.(handler := if s.paused then Idle else Unpaused(s.handler.signal))
    ensures Inv(c, s')
  {
    PhaseInv(c, s, s');
  }

  lemma ReadActiveInv(c: Config, s: State, s': State)
    requires Inv(c, s) && s.handler.Unpaused? && s' == s.(handler := Sampled(s.handler.signal, s.active))
    ensures Inv(c, s')
  {
    ActiveBelowPopulation(s);
    PhaseInv(c, s, s');
  }

  /** What an operator sets concerns neither slots nor VMs nor the loop. */
  lemma OperatorInv(c: Config, s: State, a: Action, s': State)
    requires ValidConfig(c) && Inv(c, s) && (a.Pause? || a.Resume? || a.Scale?) && s' == AfterOther(c, s, a)
    ensures Inv(c, s')
  {
    PhaseInv(c, s, s');
  }

  lemma OtherInv(c: Config, s: State, a: Action)
    requires ValidConfig(c) && Inv(c, s) && !OfVm(a) && Enabled(c, s, a)
    ensures Inv(c, Apply(c, s, a))
  {
    var s' := AfterOther(c, s, a);
    match a
    case SpawnInitial => SpawnInitialInv(c, s, s');
    case Receive => ReceiveInv(c, s, s');
    case PutBack => PutBackInv(c, s, s');
    case Decide => DecideInv(c, s, s');
    case Stop => StopInv(c, s, s');
    case CheckPaused => CheckPausedInv(c, s, s');
    case ReadActive => ReadActiveInv(c, s, s');
    case _ => OperatorInv(c, s, a, s');
  }

  lemma {:induction false} Reachable(c: Config, acts: seq<Action>)
    requires ValidConfig(c) && Exec(c, acts).Some?
    ensures Inv(c, Exec(c, acts).value)
  {
    if acts != [] {
      var before, a := acts[..|acts| - 1], acts[|acts| - 1];
      Reachable(c, before);
      var s := Exec(c, before).value;
      if OfVm(a) {
        VmInv(c, s, Apply(c, s, a), a);
      } else {
        OtherInv(c, s, a);
      }
    }
  }
}
