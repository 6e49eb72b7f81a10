/**
 Warm-pool mode of the orchestrator, ephemeral and autoscaling.

 Every VM runs as two tasks: the main task that runs the VM to its end, and an early
 listener that may learn from the guest that the job is done.  They race on one shared
 flag for the right to return the slot.  A single handler task receives returned slots
 from a bounded channel and spawns replacements.

 One action is one atomic section.  Guest messages, the closing of the notification
 channel, the five-second join timeout, VM exits, GitHub's runner lists and shutdown may
 come at any time.
 */
module WarmPool {
  import opened Wrappers
  import opened Tally

  datatype Config = Config(
    maxVms: nat,          // max_concurrent_jobs
    poolSize: nat,        // warm_pool_size, also the autoscaler's idle target
    ephemeral: bool,
    isOrg: bool,
    repos: seq<string>,
    vsock: bool)          // vsock_enabled

  /** What configuration validation and the entry to this mode guarantee. */
  predicate ValidConfig(c: Config) { c.maxVms > 0 && c.poolSize > 0 && (c.isOrg || c.repos != []) }

  /** The repo of the i-th VM spawned by a round-robin loop. */
  function RepoFor(c: Config, i: nat): string
    requires ValidConfig(c)
  {
    if c.isOrg then "" else c.repos[i % |c.repos|]
  }

  /** What the done-channel carries: a returned slot and the repo its VM served. */
  type Signal = (nat, string)

  datatype Main = Spawned | Executing | Exited | Joined | Uncounted | Claimed | Ended(sent: bool)

  datatype Early = Unborn | Listening | Notified | Sending | Closed(sent: bool)

  datatype Vm = Vm(
    slot: nat,
    repo: string,
    main: Main,
    early: Early,
    signaled: bool,   // the shared once-only flag
    mail: bool,       // a notification sits in the one-place VSOCK channel
    wired: bool)      // the VSOCK listener still holds its sender

  datatype Handler =
    | Spawning(next: nat)             // in the initial spawn loop
    | Panicked                        // the loop's `expect` failed
    | Idle
    | Got(signal: Signal)             // received, slot not yet pushed
    | Slept(signal: Signal)           // slot pushed, in the three-second delay
    | Scaling(next: nat, target: nat) // in the autoscaler's spawn loop
    | Stopped                         // cancelled, receiver dropped

  datatype State = State(
    slotPool: seq<nat>,
    active: int,
    channel: seq<Signal>,
    handler: Handler,
    lost: seq<Signal>,                // signals dropped because of shutdown
    vms: seq<Vm>)

  /** A GitHub runner as the autoscaler sees it. */
  datatype Runner = Runner(name: string, status: string, busy: bool)

  datatype Action =
    | Start(t: nat)       // active_jobs += 1, early listener spawned, VM begins
    | JobCompleted(t: nat)
    | HangUp(t: nat)
    | EarlyReceive(t: nat)
    | EarlySwap(t: nat)
    | EarlySend(t: nat)
    | Exit(t: nat)
    | Join(t: nat)        // early task joined, or five seconds passed
    | CountDown(t: nat)
    | MainSwap(t: nat)
    | MainSend(t: nat)
    | SpawnInitial
    | Receive
    | PutBack
    | Replace
    | Tick(runners: seq<Runner>)
    | ScaleUp
    | Stop

  function Init(c: Config): State {
    State(Range(c.maxVms), 0, [], Spawning(0), [], [])
  }

  // ---- Steps of one VM's two tasks ----

  predicate OfVm(a: Action) {
    !a.SpawnInitial? && !a.Receive? && !a.PutBack? && !a.Replace? && !a.Tick? && !a.ScaleUp? && !a.Stop?
  }

  predicate VmReady(c: Config, v: Vm, a: Action)
    requires OfVm(a)
  {
    match a
    case Start(_) => v.main.Spawned?
    case JobCompleted(_) => c.vsock && !v.main.Spawned? && v.wired && !v.mail
    case HangUp(_) => !v.main.Spawned? && v.wired
    case EarlyReceive(_) => v.early.Listening? && (v.mail || !v.wired)
    case EarlySwap(_) => v.early.Notified?
    case EarlySend(_) => v.early.Sending?
    case Exit(_) => v.main.Executing?
    case Join(_) => v.main.Exited?
    case CountDown(_) => v.main.Joined?
    case MainSwap(_) => v.main.Uncounted?
    case MainSend(_) => v.main.Claimed?
  }

  function VmStep(v: Vm, a: Action): Vm
    requires OfVm(a)
  {
    match a
    case Start(_) => v.(main := Executing, early := Listening)
    case JobCompleted(_) => v.(mail := true)
    case HangUp(_) => v.(wired := false)
    case EarlyReceive(_) => if v.mail then v.(mail := false, early := Notified) else v.(early := Closed(false))
    case EarlySwap(_) => if v.signaled then v.(early := Closed(false)) else v.(signaled := true, early := Sending)
    case EarlySend(_) => v.(early := Closed(true))
    case Exit(_) => v.(main := Exited)
    case Join(_) => v.(main := Joined)
    case CountDown(_) => v.(main := Uncounted)
    case MainSwap(_) => if v.signaled then v.(main := Ended(false)) else v.(signaled := true, main := Claimed)
    case MainSend(_) => v.(main := Ended(true))
  }

  predicate IsSend(a: Action) { a.EarlySend? || a.MainSend? }

  function Capacity(c: Config): nat { 2 * c.maxVms }

  /** The new state after a VM step: the VM moves, the counter and the channel follow. */
  function AfterVm(s: State, a: Action): State
    requires OfVm(a) && a.t < |s.vms|
  {
    var v := s.vms[a.t];
    var signal := (v.slot, v.repo);
    s.(vms := s.vms[a.t := VmStep(v, a)],
       active := s.active + (if a.Start? then 1 else if a.CountDown? then -1 else 0),
       channel := if IsSend(a) && !s.handler.Stopped? then s.channel + [signal] else s.channel,
       lost := if IsSend(a) && s.handler.Stopped? then s.lost + [signal] else s.lost)
  }

  // ---- Steps of the handler ----

  function NewVm(slot: nat, repo: string): Vm {
    Vm(slot, repo, Spawned, Unborn, false, false, true)
  }

  predicate IsOurs(r: Runner) { "fc-" <= r.name && r.status == "online" }

  predicate IsOursBusy(r: Runner) { IsOurs(r) && r.busy }

  function SaturatingSub(a: nat, b: int): nat { if b < a then (if b < 0 then a else a - b) else 0 }

  function IdleRunners(runners: seq<Runner>): int {
    Count(runners, IsOurs) - Count(runners, IsOursBusy)
  }

  /** How many standbys one autoscaler check asks for. */
  function ToSpawn(c: Config, active: int, runners: seq<Runner>): nat {
    var idle := IdleRunners(runners);
    if 0 <= idle < c.poolSize then Min(c.poolSize - idle, SaturatingSub(c.maxVms, active)) else 0
  }

  /** Pop a slot and spawn a VM on it. */
  function Spawn(s: State, repo: string, next: Handler): State
    requires s.slotPool != []
  {
    var n := |s.slotPool| - 1;
    s.(slotPool := s.slotPool[..n], vms := s.vms + [NewVm(s.slotPool[n], repo)], handler := next)
  }

  predicate HandlerReady(c: Config, s: State, a: Action)
    requires !OfVm(a)
  {
    match a
    case SpawnInitial => s.handler.Spawning?
    case Receive => s.handler.Idle? && s.channel != []
    case PutBack => s.handler.Got?
    case Replace => s.handler.Slept?
    case Tick(_) => s.handler.Idle? && !c.ephemeral
    case ScaleUp => s.handler.Scaling?
    case Stop => s.handler.Idle? || s.handler.Slept?
  }

  function AfterHandler(c: Config, s: State, a: Action): State
    requires ValidConfig(c) && !OfVm(a) && HandlerReady(c, s, a)
  {
    match a
    case SpawnInitial =>
      var k := s.handler.next;
      if k >= c.poolSize then s.(handler := Idle)
      else if s.slotPool == [] then s.(handler := Panicked)
      else Spawn(s, RepoFor(c, k), Spawning(k + 1))
    case Receive => s.(handler := Got(s.channel[0]), channel := s.channel[1..])
    case PutBack => s.(slotPool := s.slotPool + [s.handler.signal.0], handler := Slept(s.handler.signal))
    case Replace =>
      if s.slotPool == [] then s.(handler := Idle) else Spawn(s, s.handler.signal.1, Idle)
    case Tick(runners) =>
      var n := ToSpawn(c, s.active, runners);
      s.(handler := if n == 0 then Idle else Scaling(0, n))
    case ScaleUp =>
      var i := s.handler.next;
      if i >= s.handler.target || s.slotPool == [] then s.(handler := Idle)
      else Spawn(s, RepoFor(c, i), Scaling(i + 1, s.handler.target))
    case Stop => s.(handler := Stopped, channel := [], lost := s.lost + s.channel)
  }

  predicate Enabled(c: Config, s: State, a: Action) {
    if OfVm(a) then
      && a.t < |s.vms|
      && VmReady(c, s.vms[a.t], a)
      && (IsSend(a) ==> s.handler.Stopped? || |s.channel| < Capacity(c))
    else HandlerReady(c, s, a)
  }

  function Apply(c: Config, s: State, a: Action): State
    requires ValidConfig(c) && Enabled(c, s, a)
  {
    if OfVm(a) then AfterVm(s, a) else AfterHandler(c, s, a)
  }

  /** The state after a schedule, or `None` if some action of it could not happen. */
  function Exec(c: Config, acts: seq<Action>): Option<State>
    requires ValidConfig(c)
  {
    if acts == [] then Some(Init(c))
    else
      var before := Exec(c, acts[..|acts| - 1]);
      var a := acts[|acts| - 1];
      if before.Some? && Enabled(c, before.value, a) then Some(Apply(c, before.value, a)) else None
  }

  /** A schedule extended by one enabled action. */
  lemma ExecOne(c: Config, acts: seq<Action>, a: Action, s: State, s': State)
    requires ValidConfig(c) && Exec(c, acts) == Some(s) && Enabled(c, s, a) && s' == Apply(c, s, a)
    ensures Exec(c, acts + [a]) == Some(s')
  {
    assert (acts + [a])[..|acts|] == acts;
  }

  // ---- Where slot tokens are ----

  predicate EarlyClaims(v: Vm) { v.early.Sending? || v.early == Closed(true) }

  predicate MainClaims(v: Vm) { v.main.Claimed? || v.main == Ended(true) }

  /** The token of a VM is with it while nobody has claimed it, and with each claimant until it sends. */
  function TokensOf(v: Vm): multiset<nat> {
    (if v.signaled then multiset{} else multiset{v.slot})
    + (if v.early.Sending? then multiset{v.slot} else multiset{})
    + (if v.main.Claimed? then multiset{v.slot} else multiset{})
  }

  predicate IsUnsignaled(v: Vm) { !v.signaled }

  predicate IsCounted(v: Vm) { v.main.Executing? || v.main.Exited? || v.main.Joined? }

  function SlotOf(signal: Signal): multiset<nat> { multiset{signal.0} }

  function HandlerToken(h: Handler): multiset<nat> { if h.Got? then multiset{h.signal.0} else multiset{} }

  /** Tokens that no VM task holds. */
  function Shared(s: State): multiset<nat> {
    multiset(s.slotPool) + Gather(s.channel, SlotOf) + HandlerToken(s.handler) + Gather(s.lost, SlotOf)
  }

  /** Every place a slot token can be, with multiplicity. */
  function Places(s: State): multiset<nat> { Shared(s) + Gather(s.vms, TokensOf) }

  /** The once-only flag: it is set exactly if one of the two tasks has claimed, and never by both. */
  predicate FlagExact(v: Vm) {
    && (v.signaled <==> EarlyClaims(v) || MainClaims(v))
    && !(EarlyClaims(v) && MainClaims(v))
    && (v.main.Ended? ==> v.signaled)
    && (v.main.Spawned? <==> v.early.Unborn?)
  }

  ghost predicate FlagsExact(s: State) { forall i | 0 <= i < |s.vms| :: FlagExact(s.vms[i]) }

  ghost predicate HandlerInv(c: Config, s: State) {
    match s.handler
    case Spawning(k) => k <= c.poolSize && k <= c.maxVms && s.slotPool == Range(c.maxVms - k)
    case Panicked => c.poolSize > c.maxVms
    case Slept(signal) => s.slotPool != [] && s.slotPool[|s.slotPool| - 1] == signal.0
    case Scaling(i, n) => i <= n <= c.poolSize && !c.ephemeral
    case _ => true
  }

  /** Everything but the whereabouts of tokens. */
  ghost predicate Control(c: Config, s: State) {
    && FlagsExact(s)
    && HandlerInv(c, s)
    && s.active == Count(s.vms, IsCounted)
    && (s.lost != [] ==> s.handler.Stopped?)
  }

  ghost predicate Inv(c: Config, s: State) {
    && Places(s) == AllSlots(c.maxVms)
    && Control(c, s)
  }

  // ---- Preservation ----

  lemma FlagStep(c: Config, v: Vm, a: Action)
    requires OfVm(a) && FlagExact(v) && VmReady(c, v, a)
    ensures FlagExact(VmStep(v, a))
  {
  }

  lemma EarlyTokenStep(c: Config, v: Vm, a: Action)
    requires (a.EarlySwap? || a.EarlySend? || a.EarlyReceive?) && FlagExact(v) && VmReady(c, v, a)
    ensures TokensOf(VmStep(v, a)) + (if IsSend(a) then multiset{v.slot} else multiset{}) == TokensOf(v)
  {
  }

  lemma MainTokenStep(c: Config, v: Vm, a: Action)
    requires OfVm(a) && !a.EarlySwap? && !a.EarlySend? && !a.EarlyReceive? && FlagExact(v) && VmReady(c, v, a)
    ensures TokensOf(VmStep(v, a)) + (if IsSend(a) then multiset{v.slot} else multiset{}) == TokensOf(v)
  {
  }

  /** A VM step moves the VM's token at most to the channel (or drops it, once shut down). */
  lemma TokenStep(c: Config, v: Vm, a: Action)
    requires OfVm(a) && FlagExact(v) && VmReady(c, v, a)
    ensures TokensOf(VmStep(v, a)) + (if IsSend(a) then multiset{v.slot} else multiset{}) == TokensOf(v)
    ensures VmStep(v, a).slot == v.slot && VmStep(v, a).repo == v.repo
  {
    if a.EarlySwap? || a.EarlySend? || a.EarlyReceive? {
      EarlyTokenStep(c, v, a);
    } else {
      MainTokenStep(c, v, a);
    }
  }

  lemma SharedAfterVm(s: State, a: Action)
    requires OfVm(a) && a.t < |s.vms|
    ensures Shared(AfterVm(s, a)) == Shared(s) + if IsSend(a) then multiset{s.vms[a.t].slot} else multiset{}
  {
    if IsSend(a) {
      SharedAfterSend(s, AfterVm(s, a), (s.vms[a.t].slot, s.vms[a.t].repo));
    }
  }

  lemma SharedAfterSend(s: State, s': State, signal: Signal)
    requires s'.slotPool == s.slotPool && s'.handler == s.handler
    requires if s.handler.Stopped? then s'.lost == s.lost + [signal] && s'.channel == s.channel
             else s'.channel == s.channel + [signal] && s'.lost == s.lost
    ensures Shared(s') == Shared(s) + multiset{signal.0}
  {
    SendInto(multiset(s.slotPool), s.channel, HandlerToken(s.handler), s.lost, signal, SlotOf);
  }

  lemma PlacesAfterVm(c: Config, s: State, a: Action)
    requires OfVm(a) && a.t < |s.vms| && FlagsExact(s) && VmReady(c, s.vms[a.t], a)
    ensures Places(AfterVm(s, a)) == Places(s)
  {
    TokenStep(c, s.vms[a.t], a);
    SharedAfterVm(s, a);
    DeliverFrom(s.vms, a.t, VmStep(s.vms[a.t], a), TokensOf, Shared(s), Shared(AfterVm(s, a)),
                if IsSend(a) then multiset{s.vms[a.t].slot} else multiset{});
  }

  /** A step that moves one VM and leaves the handler alone. */
  lemma ControlAfterMove(c: Config, s: State, s': State, t: nat, v: Vm)
    requires Control(c, s) && t < |s.vms| && s'.vms == s.vms[t := v] && FlagExact(v)
    requires s'.handler == s.handler && s'.slotPool == s.slotPool
    requires s'.active - (if IsCounted(v) then 1 else 0) == s.active - (if IsCounted(s.vms[t]) then 1 else 0)
    requires s'.lost != [] ==> s'.handler.Stopped?
    ensures Control(c, s')
  {
    CountUpdate(s.vms, t, v, IsCounted);
  }

  lemma ControlAfterVm(c: Config, s: State, a: Action)
    requires Control(c, s) && OfVm(a) && Enabled(c, s, a)
    ensures Control(c, AfterVm(s, a))
  {
    FlagStep(c, s.vms[a.t], a);
    CountedStep(c, s.vms[a.t], a);
    ControlAfterMove(c, s, AfterVm(s, a), a.t, VmStep(s.vms[a.t], a));
  }

  lemma CountedStep(c: Config, v: Vm, a: Action)
    requires OfVm(a) && VmReady(c, v, a)
    ensures (if IsCounted(VmStep(v, a)) then 1 else 0)
         == (if IsCounted(v) then 1 else 0) + (if a.Start? then 1 else if a.CountDown? then -1 else 0)
  {
  }

  lemma VmInv(c: Config, s: State, a: Action)
    requires ValidConfig(c) && Inv(c, s) && OfVm(a) && Enabled(c, s, a)
    ensures Inv(c, Apply(c, s, a))
  {
    PlacesAfterVm(c, s, a);
    ControlAfterVm(c, s, a);
  }

  lemma SpawnPlaces(s: State, repo: string, next: Handler)
    requires s.slotPool != [] && !s.handler.Got? && !next.Got?
    ensures Places(Spawn(s, repo, next)) == Places(s)
  {
    var n := |s.slotPool| - 1;
    var v := NewVm(s.slotPool[n], repo);
    GatherAppend(s.vms, v, TokensOf);
    PopToken(s.slotPool);
    assert TokensOf(v) == multiset{s.slotPool[n]};
    Carry(multiset(s.slotPool[..n]), multiset{s.slotPool[n]}, Gather(s.channel, SlotOf), multiset{},
          Gather(s.lost, SlotOf), Gather(s.vms, TokensOf));
  }

  lemma ControlAfterSpawn(c: Config, s: State, s': State, v: Vm)
    requires Control(c, s) && s'.vms == s.vms + [v] && v == NewVm(v.slot, v.repo)
    requires s'.active == s.active && s'.lost == s.lost && !s.handler.Stopped?
    requires HandlerInv(c, s')
    ensures Control(c, s')
  {
    CountAppend(s.vms, v, IsCounted);
  }

  lemma SpawnInv(c: Config, s: State, repo: string, next: Handler)
    requires Inv(c, s) && s.slotPool != [] && !s.handler.Got? && !s.handler.Stopped? && !next.Got?
    requires HandlerInv(c, Spawn(s, repo, next))
    ensures Inv(c, Spawn(s, repo, next))
  {
    SpawnPlaces(s, repo, next);
    ControlAfterSpawn(c, s, Spawn(s, repo, next), NewVm(s.slotPool[|s.slotPool| - 1], repo));
  }

  /** A handler step that spawns nothing and keeps every token in place. */
  lemma QuietInv(c: Config, s: State, s': State)
    requires Inv(c, s) && s'.vms == s.vms && s'.active == s.active
    requires Places(s') == Places(s) && HandlerInv(c, s') && (s'.lost != [] ==> s'.handler.Stopped?)
    ensures Inv(c, s')
  {
  }

  /** The handler changes phase and nothing else. */
  lemma PhaseInv(c: Config, s: State, h: Handler)
    requires Inv(c, s) && !s.handler.Got? && !h.Got? && !s.handler.Stopped? && HandlerInv(c, s.(handler := h))
    ensures Inv(c, s.(handler := h))
  {
    assert Places(s.(handler := h)) == Places(s);
  }

  lemma ReceiveInv(c: Config, s: State, s': State)
    requires Inv(c, s) && s.handler.Idle? && s.channel != []
    requires s' == s.(handler := Got(s.channel[0]), channel := s.channel[1..])
    ensures Inv(c, s')
  {
    GatherHead(s.channel, SlotOf);
    assert Shared(s') == Shared(s);
    QuietInv(c, s, s');
  }

  lemma PutBackShared(s: State, s': State, signal: Signal)
    requires s.handler == Got(signal) && s' == s.(slotPool := s.slotPool + [signal.0], handler := Slept(signal))
    ensures Shared(s') == Shared(s)
  {
    assert multiset(s'.slotPool) == multiset(s.slotPool) + multiset{signal.0};
    Return(multiset(s.slotPool), Gather(s.channel, SlotOf), multiset{signal.0}, Gather(s.lost, SlotOf));
  }

  lemma PutBackInv(c: Config, s: State, s': State)
    requires Inv(c, s) && s.handler.Got?
    requires s' == s.(slotPool := s.slotPool + [s.handler.signal.0], handler := Slept(s.handler.signal))
    ensures Inv(c, s')
  {
    PutBackShared(s, s', s.handler.signal);
    QuietInv(c, s, s');
  }

  lemma StopShared(s: State, s': State)
    requires !s.handler.Got? && s' == s.(handler := Stopped, channel := [], lost := s.lost + s.channel)
    ensures Shared(s') == Shared(s)
  {
    GatherConcat(s.lost, s.channel, SlotOf);
  }

  lemma StopInv(c: Config, s: State, s': State)
    requires Inv(c, s) && !s.handler.Got?
    requires s' == s.(handler := Stopped, channel := [], lost := s.lost + s.channel)
    ensures Inv(c, s')
  {
    StopShared(s, s');
    QuietInv(c, s, s');
  }

  lemma NextInitialSpawn(c: Config, s: State, s': State, k: nat)
    requires HandlerInv(c, s) && s.handler == Spawning(k) && k < c.poolSize && s.slotPool != []
    requires s'.handler == Spawning(k + 1) && s'.slotPool == s.slotPool[..|s.slotPool| - 1]
    ensures HandlerInv(c, s')
  {
    RangePop(c.maxVms - k);
  }

  lemma SpawnInitialInv(c: Config, s: State, s': State)
    requires ValidConfig(c) && Inv(c, s) && s.handler.Spawning?
    requires s' == if s.handler.next >= c.poolSize then s.(handler := Idle)
                   else if s.slotPool == [] then s.(handler := Panicked)
                   else Spawn(s, RepoFor(c, s.handler.next), Spawning(s.handler.next + 1))
    ensures Inv(c, s')
  {
    if s.handler.next >= c.poolSize {
      PhaseInv(c, s, Idle);
    } else if s.slotPool == [] {
      PhaseInv(c, s, Panicked);
    } else {
      var k := s.handler.next;
      NextInitialSpawn(c, s, s', k);
      SpawnInv(c, s, RepoFor(c, k), Spawning(k + 1));
    }
  }

  lemma ReplaceInv(c: Config, s: State, s': State)
    requires Inv(c, s) && s.handler.Slept?
    requires s' == if s.slotPool == [] then s.(handler := Idle) else Spawn(s, s.handler.signal.1, Idle)
    ensures Inv(c, s')
  {
    assert s.slotPool != [];
    SpawnInv(c, s, s.handler.signal.1, Idle);
  }

  lemma TickInv(c: Config, s: State, s': State, n: nat)
    requires Inv(c, s) && s.handler.Idle? && !c.ephemeral && n <= c.poolSize
    requires s' == s.(handler := if n == 0 then Idle else Scaling(0, n))
    ensures Inv(c, s')
  {
    PhaseInv(c, s, s'.handler);
  }

  lemma NextScaleUp(c: Config, s: State)
    requires ValidConfig(c) && Inv(c, s) && s.handler.Scaling?
    requires s.handler.next < s.handler.target && s.slotPool != []
    ensures Inv(c, Spawn(s, RepoFor(c, s.handler.next), Scaling(s.handler.next + 1, s.handler.target)))
  {
    SpawnInv(c, s, RepoFor(c, s.handler.next), Scaling(s.handler.next + 1, s.handler.target));
  }

  lemma ScaleUpInv(c: Config, s: State, s': State)
    requires ValidConfig(c) && Inv(c, s) && s.handler.Scaling?
    requires s' == if s.handler.next >= s.handler.target || s.slotPool == [] then s.(handler := Idle)
                   else Spawn(s, RepoFor(c, s.handler.next), Scaling(s.handler.next + 1, s.handler.target))
    ensures Inv(c, s')
  {
    if s.handler.next < s.handler.target && s.slotPool != [] {
      NextScaleUp(c, s);
    } else {
      PhaseInv(c, s, Idle);
    }
  }

  lemma SpawningStepInv(c: Config, s: State, a: Action, s': State)
    requires ValidConfig(c) && Inv(c, s) && !OfVm(a) && HandlerReady(c, s, a) && s' == AfterHandler(c, s, a)
    requires a.SpawnInitial? || a.Replace? || a.ScaleUp?
    ensures Inv(c, s')
  {
    if a.SpawnInitial? {
      SpawnInitialInv(c, s, s');
    } else if a.Replace? {
      ReplaceInv(c, s, s');
    } else {
      ScaleUpInv(c, s, s');
    }
  }

  lemma QuietStepInv(c: Config, s: State, a: Action, s': State)
    requires ValidConfig(c) && Inv(c, s) && !OfVm(a) && HandlerReady(c, s, a) && s' == AfterHandler(c, s, a)
    requires !a.SpawnInitial? && !a.Replace? && !a.ScaleUp?
    ensures Inv(c, s')
  {
    match a
    case Receive => ReceiveInv(c, s, s');
    case PutBack => PutBackInv(c, s, s');
    case Tick(runners) => TickInv(c, s, s', ToSpawn(c, s.active, runners));
    case Stop => StopInv(c, s, s');
  }

  lemma HandlerStepInv(c: Config, s: State, a: Action)
    requires ValidConfig(c) && Inv(c, s) && !OfVm(a) && Enabled(c, s, a)
    ensures Inv(c, Apply(c, s, a))
  {
    if a.SpawnInitial? || a.Replace? || a.ScaleUp? {
      SpawningStepInv(c, s, a, Apply(c, s, a));
    } else {
      QuietStepInv(c, s, a, Apply(c, s, a));
    }
  }

  lemma {:induction false} Reachable(c: Config, acts: seq<Action>)
    requires ValidConfig(c) && Exec(c, acts).Some?
    ensures Inv(c, Exec(c, acts).value)
  {
    if acts == [] {
      RangeIsAllSlots(c.maxVms);
    } else {
      var before, a := acts[..|acts| - 1], acts[|acts| - 1];
      Reachable(c, before);
      if OfVm(a) {
        VmInv(c, Exec(c, before).value, a);
      } else {
        HandlerStepInv(c, Exec(c, before).value, a);
      }
    }
  }
}
