# A verified model of the fc-runner scheduler, cache service, image builder and metadata codec

This project models, in Dafny, the four parts of fc-runner whose correctness rests on more
than one function at a time, and proves what they keep.

`dafny verify dfyconfig.toml` checks everything.

## What is modelled

**The scheduler**, as step relations over an unbounded list of concurrent tasks. One action
is one atomic section of the code: a semaphore operation, a block under one lock, an atomic
swap, a channel operation. GitHub's answers, guest messages, VM exits, the five-second join
timeout and shutdown are actions that may come at any time. Theorems are about every
schedule (`Exec(…)` of any list of actions).

- `Jit` and `JitOrchestrator`: reactive mode. Slot holders are permit holders, so the slot
  pool is never empty when a permit holder asks; that branch would also leak the job id, so
  the exactness of `seen_jobs` depends on it, and both are proved together. `JitProgress` has
  that no task is ever stuck and every one comes to its end.
- `WarmPool`, `WarmPoolTheorems`, `WarmPoolEphemeral`, `WarmProgress`, `WarmOrchestrator`: warm
  pools, with the early listener and the main task of each VM racing on one flag. Every slot
  token is in exactly one place; the replacement signal of a VM is sent once; the ephemeral
  pool keeps its initial assignment of slots to repos for ever; every VM can be brought to its
  end.
- `NamedPool`, `NamedPoolTheorems`, `PoolManager`: named pools, with pause, resume and scale
  at any moment, and the greedy split of slots between pools.
- `VmIdentity`: the names, addresses and identifiers a VM derives from its slot.
- `PoolsTogether`: all the pools the split creates, side by side.

The classes in `JitOrchestrator`, `WarmOrchestrator` and `PoolManager` are the objects of
the code. Each carries the schedule that led to its state; a method is one atomic section,
and its contract says that it performs exactly the matching action. Loops and multi-step
handlers take what the other tasks do between two sections as a parameter (`Interference`).
Their contracts hold for all of it, and say by which actions the schedule grows: what the
others do, the method's own, and nothing else. Every value a method reads is that of the
moment of the schedule at which it reads it.

**The Actions cache service.** `CacheStore` holds the handlers as functions on the shared
state (entries, index, id counter, temporary files, S3, the saved index file); `CacheServer`
is the object whose methods update the fields step by step; `CacheTheorems`, `CacheGraph` and
`CacheRoundTrip` are about runs of whole requests, restarts included; `CacheReservations` has
which request an entry comes from, and that the latest reservation wins; `CacheInterleaved`
splits the handlers at their lock releases, lets any number of them run at once and the
process restart anywhere; `CachePairs`, `CacheClients` and `CacheProgress` are about its runs;
`CacheFiles` adds the temporary files, S3 and the steps of a v1 commit between them, and
`CacheSequential` and `CacheFilesAlone` tie them to the sequential handlers;
`CacheLookup` is the two lookup APIs, `CacheChunks` the assembly of chunks and the
`Content-Range` header.

**Image layers.** `Layers` has the streaming application of a layer and the declarative
changeset of the OCI image specification, section "Whiteouts"; `LayerEntries` states both of
the tar entries themselves, by path, node and file name; `MountedTree` is the extraction as it
runs, deleting from and writing into a tree.

**The metadata codec.** `Mmds` is the KEY=VALUE parser and renderer, `MmdsEnv` the three
writers of the host (reactive, warm pool, named pool), `MmdsAgent` the way from writer through
parser to the agent's struct, `MmdsCache` what the agent then knows of the cache, told from the
host's configuration.

`Tally`, `Text`, `Interference` and `Wrappers` are shared groundwork: counting over task lists,
numerals and white space, what others do between two sections of a method, `Option` and
`Result`.

## What the proofs found

- `warm_pool_size` above `max_concurrent_jobs` is accepted by validation and makes the initial
  spawn loop panic; nothing else does (`InitialSpawnPanicsIffPoolTooLarge`).
- With VSOCK on, two VMs can execute on one slot at the same time, because the early signal
  returns the slot while the old VM is still shutting down. With VSOCK off they cannot
  (`ExclusiveIffNoVsock`). The slot tokens are conserved in both cases.
- The comment on the named-pool loop promises `min_ready` VMs "at all times". The code
  keeps that number minus the completions it declined, and never regrows
  (`PopulationExact`).
- Two pools of one name: the second manager replaces the first, whose slots are then unused
  (`ManagersExact`).
- With every request handled as a whole, a second outstanding reservation of a pair is exactly
  what gives a pair two entries (`TidyIffNoDoubleReserve`, `TwoCommittedEntriesCanCoexist`),
  and the index stops being the graph of the committed entries exactly when an entry is
  committed while another of its pair is (`GraphIffNoSecondCommit`).
- Under concurrency that is not all. A commit marks its entry and releases one lock before it
  takes the next to bind it. A reservation that falls in between finds the pair unreserved and
  unbound, evicts nothing, and adds a second entry that stays (`LateBindingRun`): the index
  names the new entry, and the v1 lookup answers the old one. A step gives a pair a second entry exactly if it
  pushes an entry of a pair that has one (`PairsDistinctIffNoTwin`). Clients that reserve a
  pair only when it has no open entry and no request under way, the binding included, and
  commit no committed entry again never get there, and both halves of that rule are needed
  (`GraphIffClientsOrderly`). Under it a saved archive is restored amid anything else that
  goes on (`ArchiveIsRestoredAmid`).
- Under concurrency an index binding can come to point nowhere exactly by the eviction of an
  entry that another request has marked committed and is about to bind
  (`DanglesIffEvictsPending`). Runs that never commit a committed entry again never get there
  (`OnceIsUnrestricted`); `DanglingRun` does, with a reservation finalized through v2 and then
  committed through v1.
- A restart after an id has been taken and before the index file is saved hands the id out a
  second time (`CrashKeepsCounterIffLastIdSaved`, `ReusedIdRun`). Restarts between whole
  requests do not (`IdsNeverReused`).
- A whiteout after an entry of the same layer deletes that entry, which the OCI specification
  forbids; streaming equals the changeset exactly when that never hits an entry that is not
  added again (`StreamIsChangesetIffNothingLost`), and the whole image equals the stack of its
  layers' changesets exactly when no such loss shows through the layers above
  (`ImageIsSpecifiedIffNothingLost`).
- A text setting that happens to be `true` or `false` becomes a boolean and keeps the agent
  from starting (`JitAgent`, `WarmAgent`, `PoolAgent`).
- A VM of a named pool is told where the cache is, but never of S3 (`PoolAgent`), unlike the
  other two kinds of runner.

## Model

| member | source | states |
|---|---|---|
| Jit.PermitHolderAlwaysFindsSlot | src/scheduler/orchestrator.rs:251-265 | in every schedule a task that has its permit finds the slot pool non-empty, so the "no slot available despite semaphore permit" branch is never taken |
| Jit.SlotCounts | src/scheduler/orchestrator.rs:49-51 | free slots plus held slots is `max_concurrent_jobs`; slot holders never outnumber permit holders, nor these the limit |
| Jit.SlotsCovered | src/scheduler/orchestrator.rs:259-280 | an index is below the limit exactly if it is free or held by some task |
| Jit.HeldSlotIsNotFree | src/scheduler/orchestrator.rs:259-280 | a held slot is below the limit and not in the free pool |
| Jit.SlotsExclusive | src/scheduler/orchestrator.rs:259-280 | no two tasks hold one slot in any schedule |
| Jit.SeenJobsExact | src/scheduler/orchestrator.rs:211-293 | `seen_jobs` is exactly the ids in the poller's hand or of tasks that have not passed their removal step |
| Jit.OneExecutionPerJob | src/scheduler/orchestrator.rs:211-293 | no job id has two live tasks, and the poller never dispatches the id of a live one |
| Jit.ActiveJobsNeverUnderflows | src/scheduler/orchestrator.rs:267-281 | the counter is the number of tasks between their two updates; its unsigned decrement never wraps |
| Jit.QuiescentStateIsClean | src/scheduler/orchestrator.rs:250-305 | once all tasks ended: all permits, all slots and no seen id, whatever the schedule was |
| JitProgress.CanActUnlessFinished | src/scheduler/orchestrator.rs:240-305 | with at least one permit, in every reachable state some job task can act unless all have finished: no deadlock |
| JitProgress.TasksComeToTheirEnd | src/scheduler/orchestrator.rs:240-305 | run in any order, the tasks take exactly the steps that are left, and when none can act every one has finished |
| JitOrchestrator.FreshIsExact | src/scheduler/orchestrator.rs:206-226 | the ids an undisturbed poll dispatches are the unseen ones of jobs that have every configured label, each once |
| JitOrchestrator.ChosenIsExact | src/scheduler/orchestrator.rs:206-226 | amid other tasks an id is dispatched exactly if some job of it has every configured label and the id was not in `seen_jobs` at the moment it was looked at |
| JitOrchestrator.Orchestrator.PollRepo | src/scheduler/orchestrator.rs:200-230 | whatever job tasks do before and inside the rounds: exactly the ids of jobs with every configured label, not in `seen_jobs` at their moment, are dispatched; the schedule gains what the tasks do, one insertion for each matching job and one dispatch for each of these, and nothing else; undisturbed, each fresh id is dispatched once |
| JitOrchestrator.Orchestrator.PopSlot | src/scheduler/orchestrator.rs:259-265 | takes the last free slot; needs no failure branch |
| JitOrchestrator.Orchestrator.PushSlot | src/scheduler/orchestrator.rs:280-280 | gives the slot back; afterwards no task holds it |
| JitOrchestrator.Orchestrator.DecrementActive | src/scheduler/orchestrator.rs:281-281 | counts down without passing zero |
| JitOrchestrator.Orchestrator.RemoveSeen | src/scheduler/orchestrator.rs:292-293 | afterwards the job id is free to be dispatched again |
| WarmPool.Reachable | src/scheduler/orchestrator.rs:346-717 | the invariant of every schedule: tokens conserved, flag exact, counter exact, handler phases consistent |
| WarmPoolTheorems.EverySlotInOnePlace | src/scheduler/orchestrator.rs:385-418 | each slot is in exactly one of: free pool, unsignaled VM, claimed-but-unsent signal, channel, handler, dropped at shutdown (also lines 581-611, 691-710) |
| WarmPoolTheorems.ChannelNeverFills | src/scheduler/orchestrator.rs:346-346 | the done-channel of capacity `2 * max_concurrent_jobs` never holds more than half of it, so every send goes through at once |
| WarmPoolTheorems.ReplacementGetsSameSlot | src/scheduler/orchestrator.rs:391-417 | the pop for a replacement never fails and yields the slot just returned, for the same repo |
| WarmPoolTheorems.SignalSentOnce | src/scheduler/orchestrator.rs:573-716 | at most one replacement signal per VM; exactly one once its main task ended and the early task is not about to send |
| WarmPoolTheorems.ActiveJobsNeverUnderflows | src/scheduler/orchestrator.rs:561-687 | the counter is exact and its decrement never wraps |
| WarmPoolTheorems.InitialSpawnPanicsIffPoolTooLarge | src/scheduler/orchestrator.rs:349-360 | the `expect` fails in some schedule if and only if `warm_pool_size > max_concurrent_jobs` |
| WarmPoolTheorems.UnsignaledBounded | src/scheduler/orchestrator.rs:448-547 | for any runner lists, unsignaled VMs, free slots and queued signals together never exceed the limit |
| WarmPoolTheorems.ExclusiveWithoutVsock | src/scheduler/orchestrator.rs:585-617 | without VSOCK no two VMs execute on one slot |
| WarmPoolTheorems.SharedSlotWithVsock | src/scheduler/orchestrator.rs:585-596 | with VSOCK a schedule exists in which two do |
| WarmPoolTheorems.ExclusiveIffNoVsock | src/scheduler/orchestrator.rs:585-617 | the exact condition: exclusive in all schedules iff VSOCK is off or the pool is too large to get past its initial loop |
| WarmProgress.VmCanFinish | src/scheduler/orchestrator.rs:552-717 | from every reachable state a VM can be brought to its end by a bounded number of steps of its own two tasks, whatever everybody else does, and then exactly one signal has been sent for it |
| WarmProgress.BothAboutToSwap | src/scheduler/orchestrator.rs:585-692 | the race on the flag is real: with VSOCK a run leaves both tasks of a VM about to swap it |
| WarmPoolEphemeral.AssignmentHoldsForever | src/scheduler/orchestrator.rs:349-418 | until shutdown the (slot, repo) pairs in flight are the initial round-robin assignment, and their number is `warm_pool_size` |
| WarmPoolEphemeral.AssignedExactly | src/scheduler/orchestrator.rs:349-360 | the initial loop hands out each of the top slots once, with the repo of its round |
| WarmPoolEphemeral.IndexLoadExact | src/scheduler/orchestrator.rs:350-354 | the round-robin share of a repo index in closed form |
| WarmPoolEphemeral.LoadsStayBalanced | src/scheduler/orchestrator.rs:349-418 | in every reachable state each repo has its initial share, and shares differ by at most one |
| WarmOrchestrator.Orchestrator.SpawnInitialPool | src/scheduler/orchestrator.rs:348-360 | whatever the VMs already started do meanwhile, the loop starts the VMs of the initial assignment, the last free slot and the next repo in each round, and leaves the lower slots free; the schedule gains one spawn per round and what the VMs do |
| WarmOrchestrator.Orchestrator.HandleCompletion | src/scheduler/orchestrator.rs:385-418 | one signal received, its slot returned, one VM started on that slot for that repo, whatever VM tasks do before the push and during the delay; the free slots are as before, signals only added, and the schedule gains exactly these three steps and what the VM tasks do |
| WarmOrchestrator.Orchestrator.AutoscaleCheck | src/scheduler/orchestrator.rs:485-547 | amid other tasks, starts exactly as many standbys as the least of three limits: the pool size minus the number of listed runners whose name starts with `fc-`, that are online and not busy; `max_vms` minus the counter at the moment of the schedule at which it is read; and the free slots; each on the last free slot, for the next repo |
| WarmOrchestrator.Orchestrator.SpawnStandbys | src/scheduler/orchestrator.rs:528-546 | the spawn loop ends at the target or when the slots run out, whatever VM tasks do before each round; the schedule gains one spawn per round and what the VM tasks do |
| WarmOrchestrator.Orchestrator.SwapEarly | src/scheduler/orchestrator.rs:587-597 | the early task wins the swap exactly if the main task has not claimed |
| WarmOrchestrator.Orchestrator.SwapMain | src/scheduler/orchestrator.rs:691-692 | the main task wins the swap exactly if the early task has not claimed |
| WarmOrchestrator.Orchestrator.SendEarly | src/scheduler/orchestrator.rs:588-596 | when the early task has sent, exactly one signal has been sent for the VM: its slot and repo, at the end of the channel, or dropped after shutdown |
| WarmOrchestrator.Orchestrator.SendMain | src/scheduler/orchestrator.rs:692-709 | when the main task has sent, exactly one signal has been sent for the VM: its slot and repo, likewise |
| WarmOrchestrator.IdleIsNatural | src/scheduler/orchestrator.rs:499-506 | `total - busy` never underflows |
| WarmOrchestrator.IdleIsNumber | src/scheduler/orchestrator.rs:499-506 | `total - busy` is the number of list positions with a runner of ours, online and not busy |
| NamedPool.Reachable | src/scheduler/pool.rs:136-247 | the invariant of every run of a pool, with pause, resume and scale anywhere |
| NamedPoolTheorems.SlotsConserved | src/scheduler/pool.rs:162-247 | in every run the pool's slots are conserved over free pool, VMs, channel, handler and shutdown, as a multiset and in number |
| NamedPoolTheorems.ChannelNeverFills | src/scheduler/pool.rs:136-246 | no completion signal ever blocks: the channel of capacity `2 * max_ready` never holds more signals than the pool has slots |
| NamedPoolTheorems.ActiveCountExact | src/scheduler/pool.rs:228-245 | the counter is the number of executing VMs; its decrement never wraps |
| NamedPoolTheorems.PopulationStep | src/scheduler/pool.rs:162-203 | no step raises the population; only a declined completion lowers it, by one |
| NamedPoolTheorems.PopulationExact | src/scheduler/pool.rs:118-208 | before shutdown the population is `min(min_ready, slots)` minus the completions declined |
| NamedPoolTheorems.KeepsSizeIffNothingDeclined | src/scheduler/pool.rs:173-184 | the pool has its initial size exactly if it declined nothing |
| NamedPoolTheorems.UndisturbedDeclinesNothing | src/scheduler/pool.rs:173-184 | with no completion handled paused and `max_ready` never scaled below the size, nothing is declined |
| NamedPoolTheorems.ReplacementGetsSameSlot | src/scheduler/pool.rs:164-203 | a replacement runs on the slot just returned, for the same repo |
| NamedPoolTheorems.InServiceSlots | src/scheduler/pool.rs:162-247 | two VMs of one pool never share a slot |
| NamedPoolTheorems.VmCanFinish | src/scheduler/pool.rs:227-247 | from every reachable state a VM can be brought to its end, its signal sent, by exactly the steps it has left, whatever everybody else does |
| PoolsTogether.ServingSlotsDiffer | src/scheduler/orchestrator.rs:102-131 | for any configured pools and any run of each: two VMs in service, of different pools or of one, never share a slot, and use slots below the limit |
| PoolManager.Manager.SpawnInitialPool | src/scheduler/pool.rs:139-153 | starts `min(min_ready, slots)` VMs, the `k`-th on the `k`-th slot from the end for the `k`-th repo in turn, whatever VMs and operators do before each round; the schedule gains one spawn per round and what they do |
| PoolManager.Manager.TakeCompletion | src/scheduler/pool.rs:162-164 | receives the first signal of the channel and pushes its slot back, whatever others do in between |
| PoolManager.Manager.AnswerCompletion | src/scheduler/pool.rs:172-203 | with others acting before each of the three reads: replaces on the returned slot exactly if the flag is down, and the counter below the maximum, at the moments of the schedule at which they are read, else declines; the schedule gains these steps and what the others do |
| PoolManager.Manager.PausePool | src/scheduler/pool.rs:71-74 | sets the flag, and nothing else |
| PoolManager.Manager.ResumePool | src/scheduler/pool.rs:77-80 | lowers the flag, and nothing else |
| PoolManager.Manager.ScalePool | src/scheduler/pool.rs:88-101 | each bound becomes the one given, or stays if none is; flag, counter, running VMs, slots, signals and the loop are untouched |
| PoolManager.TakeSlots | src/scheduler/orchestrator.rs:107-109 | pops up to the wanted number off the end |
| PoolManager.SplitSlots | src/scheduler/orchestrator.rs:102-132 | the loop registers for each name its greedy share |
| PoolManager.ShareIsGreedy | src/scheduler/orchestrator.rs:102-109 | each pool gets exactly the lesser of its `max_ready` and what the pools before it have left, counting down from the highest slot left |
| PoolManager.LeftDecreases | src/scheduler/orchestrator.rs:102-109 | what is left for a later pool lies below every earlier share |
| PoolManager.SharesDisjoint | src/scheduler/orchestrator.rs:102-131 | the shares of two pools have no slot in common |
| PoolsTogether.ShareWithin | src/scheduler/orchestrator.rs:102-109 | each share, the last included, has distinct slots below `max_concurrent_jobs` |
| PoolsTogether.ManagerWithin | src/scheduler/orchestrator.rs:103-132 | every manager registered runs on at least one slot, all distinct and below the limit |
| PoolManager.ManagersExact | src/scheduler/orchestrator.rs:103-132 | a name has a manager iff one of its pools got slots, and it runs the last such share |
| PoolManager.ManagersDisjoint | src/scheduler/orchestrator.rs:103-132 | managers of different names have no slot in common |
| VmIdentity.CidsCollideExactly | src/vm/firecracker/mod.rs:184-187 | the context ids of two slots collide iff the slots agree modulo 2^32 |
| VmIdentity.IdentitySpelled | src/vm/firecracker/mod.rs:131-187 | host and guest address are the first two of the subnet of the slot, the MAC spells the guest address in hexadecimal, the context id is base plus slot, the cache image is the file of the slot in the cache directory |
| VmIdentity.DistinctSlotsDisjoint | src/vm/firecracker/mod.rs:131-160 | different slots give disjoint TAP names, host and guest IPs, MACs and cache images always, and context ids unless the slots agree modulo 2^32 |
| VmIdentity.JitVmsAreDisjoint | src/scheduler/orchestrator.rs:240-283 | in every schedule of reactive mode concurrent VMs share no host resource |
| PoolsTogether.ServingVmsAreDisjoint | src/scheduler/orchestrator.rs:102-131 | for any configured pools and any run of each, up to 2^32 slots: two VMs in service share no host resource |
| Text.ValueOfNumeral | src/vm/firecracker/mod.rs:156-159 | a printed number has its value, in decimal and hexadecimal |
| Text.Hex2Injective | src/vm/firecracker/mod.rs:159-159 | padded upper-case hexadecimal is injective |
| Text.Hex2Digits | src/vm/firecracker/mod.rs:159-159 | a number below 256 is printed as its two upper-case hexadecimal digits |
| Text.DecimalDigits | src/vm/firecracker/mod.rs:156-158 | a decimal numeral is the numeral of its tens followed by the digit of its ones |
| Text.ParseOfDecimal | src/api/cache_server.rs:525-525 | parsing a printed number gives it back, if it fits 64 bits |
| Text.ParseU64Accepts | src/api/cache_server.rs:525-525 | accepted are exactly the digit strings of a 64-bit number, with or without a plus sign |
| Text.TrimShape | src/vm/firecracker/mmds.rs:96-97 | `trim` cuts out a slice with no white space at its ends and drops only white space |
| Text.SpacesAre | src/vm/firecracker/mmds.rs:96-97 | which characters count as white space |
| CacheLookup.FirstExact | src/api/cache_server.rs:373-376 | the first committed entry with that key and version, or none exists |
| CacheLookup.BestPrefix | src/api/cache_server.rs:389-393 | a prefix match with maximal `created_at`, the last one among ties, or none exists |
| CacheLookup.LookupIsItsSpecification | src/api/cache_server.rs:367-405 | an answer is the v1 answer if and only if it meets the declarative specification: hit iff a prefix match exists, exact beats prefix, earliest key first, newest entry |
| CacheLookup.Lookup2IsItsSpecification | src/api/cache_server.rs:767-798 | an answer is the v2 answer if and only if it meets its declarative specification: the first exact match of the key, else a newest prefix match of the earliest restore key that has one, the key itself never counting as a prefix |
| CacheLookup.V1InTermsOfV2 | src/api/cache_server.rs:371-402 | the v1 answer to key and restore keys, case by case, from the v2 answer (also lines 767-798) |
| CacheLookup.LookupsAgree | src/api/cache_server.rs:371-402 | a v2 hit is a v1 hit; when they are the same entry; and exactly when v1 hits and v2 misses (also lines 767-798) |
| CacheLookup.KeysOfJoin | src/api/cache_server.rs:368-368 | a comma-joined list of comma-free keys is read back as that list, each key trimmed |
| CacheChunks.DisjointWritesCommute | src/api/cache_server.rs:498-515 | writes to disjoint ranges commute on any file, holes included |
| CacheChunks.WriteAtOverwrites | src/api/cache_server.rs:498-515 | a write leaves the body from its offset on, the old bytes elsewhere, and zeros in a hole between |
| CacheChunks.AssembleIsArchive | src/api/cache_server.rs:487-517 | slices that cover an archive assemble to it, in any order, with overlaps and repeats |
| CacheChunks.OrderDoesNotMatter | src/api/cache_server.rs:487-517 | any permutation of such chunks leaves the same file |
| CacheChunks.RangeRoundTrip | src/api/cache_server.rs:520-526 | the start printed in `bytes start-end/*` (RFC 9110, section 14.4) is parsed back |
| CacheChunks.RangeAcceptedIff | src/api/cache_server.rs:520-526 | a header is accepted, with this offset, if and only if it is `bytes `, the offset, a dash and anything |
| CacheStore.HandleInv | src/api/cache_server.rs:423-728 | every request keeps: ids ascending, the last one `next_id - 1`, every binding sound, index file up to date |
| CacheStore.ServeInv | src/api/cache_server.rs:423-728 | so does every run of requests and restarts |
| CacheStore.EvictSound | src/api/cache_server.rs:432-655 | eviction removes the pair's binding and entry and leaves every other binding sound |
| CacheStore.RebuildSound | src/api/cache_server.rs:84-91 | the rebuilt index binds only present committed entries of the right pair |
| CacheStore.RebuildBindsLast | src/api/cache_server.rs:86-91 | the rebuilt index binds every pair with a committed entry to its last one, and no other pair |
| CacheStore.FindOpen | src/api/cache_server.rs:707-714 | the oldest uncommitted entry of the pair, or there is none |
| CacheStore.MaxIsLast | src/api/cache_server.rs:84-84 | in ascending entries the last one carries the maximal id |
| CacheTheorems.HandleTidy | src/api/cache_server.rs:423-728 | of requests handled whole: with no double reservation, one entry per pair at most, and the index is exactly the graph of the committed entries |
| CacheTheorems.TidyIffNoDoubleReserve | src/api/cache_server.rs:423-678 | a request handled whole keeps at most one entry per pair, uncommitted ones included, exactly if it does not reserve a pair already reserved |
| CacheGraph.GraphIffNoSecondCommit | src/api/cache_server.rs:423-735 | over every request handled whole: the index stays the graph of the committed entries, one per pair, exactly if the request does not commit an entry while another of its pair is committed |
| CacheGraph.RunsKeepGraphIffNoSecondCommit | src/api/cache_server.rs:423-735 | the same over every run, restarts included |
| CacheGraph.MarkGraph | src/api/cache_server.rs:555-574 | the step that decides it: marking an entry, in any such store |
| CacheGraph.DisciplinePreventsSecondCommit | src/api/cache_server.rs:423-735 | runs of whole requests without double reservations never do that |
| CacheTheorems.DisciplinedRunsStayTidy | src/api/cache_server.rs:423-728 | every run of whole requests without double reservations stays so |
| CacheTheorems.AtMostOneCommittedPerPair | src/api/cache_server.rs:423-728 | the same, requests handled whole, from an empty service, spelled out: index iff committed entry, last id is `next_id - 1` |
| CacheTheorems.TwoCommittedEntriesCanCoexist | src/api/cache_server.rs:637-735 | two creates and two finalizes of one pair leave two committed entries, the older finalized first |
| CacheGraph.RestartIsTransparent | src/api/cache_server.rs:84-278 | with that index, reservations outstanding or not, a restart rebuilds entries, index and counter unchanged; only temporary files of entries no longer open go |
| CacheTheorems.IdsNeverReused | src/api/cache_server.rs:84-84 | across requests and restarts the counter advances by exactly the number of reservations (also lines 445-445, 657-657) |
| CacheReservations.EntryKeepsItsReservation | src/api/cache_server.rs:445-457 | over every run of requests and restarts: the entry whose id a reserve or create was answered carries the key, version and time of that request as long as it is in the list (also lines 657-665) |
| CacheReservations.ReservationAddsEntry | src/api/cache_server.rs:445-468 | right after the request its entry is the last of the list, uncommitted and empty (also lines 657-669) |
| CacheReservations.LatestReservationWins | src/api/cache_server.rs:367-405 | end to end: for a prefix that is no cached key, both lookups answer, among the cached keys with that prefix, the one reserved at the latest time, the last of several, or miss exactly if there is none (also lines 767-798) |
| CacheReservations.EntriesWereReserved | src/api/cache_server.rs:445-468 | in every interleaving, restarts included, each entry carries key, version and time of one reservation of the run |
| CacheRoundTrip.ReservedRun | src/api/cache_server.rs:423-518 | while other requests run, a v1 reservation stays open and its file is the assembly of the chunks sent to it |
| CacheRoundTrip.SignedRun | src/api/cache_server.rs:637-684 | while other requests run, a v2 reservation stays open and its content is the last upload through its URL |
| CacheRoundTrip.CachedRun | src/api/cache_server.rs:423-735 | a cached archive survives every request until its pair is reserved or its URL used again |
| CacheRoundTrip.CachedIsServed | src/api/cache_server.rs:353-406 | a cached pair is the answer of both lookups and its bytes are downloaded (also lines 589-613, 767-798) |
| CacheRoundTrip.SavedArchiveIsRestored | src/api/cache_server.rs:353-613 | v1 end to end: reserve, chunks covering the archive amid other traffic and restarts, commit; then both lookups return the id and the download is the archive |
| CacheRoundTrip.SignedArchiveIsRestored | src/api/cache_server.rs:637-798 | v2 end to end: create, upload through the URL amid other traffic and restarts, finalize, which answers the id created; then the same |
| CacheServer.BuildIndex | src/api/cache_server.rs:86-91 | the loop builds the index that binds each pair to its last committed entry |
| CacheServer.CacheState.constructor | src/api/cache_server.rs:59-127 | a start from the files another process left is the restart of its state: saved entries, each pair bound to its last committed one, the counter right above the largest id, the temporary files of open entries |
| CacheServer.CacheState.CleanupStaleTemps | src/api/cache_server.rs:255-278 | exactly the files of uncommitted entries are kept |
| CacheServer.CacheState.ReserveCache | src/api/cache_server.rs:423-474 | new id; the entry bound to the pair gone with its binding; the new entry last, open, with key, version and time of the request; an empty file; the index file saved |
| CacheServer.CacheState.UploadChunk | src/api/cache_server.rs:479-518 | 400 without a start, 404 without a file, else the bytes are written there, with zeros in a hole before them |
| CacheServer.CacheState.CommitCache | src/api/cache_server.rs:536-584 | 404 without a file or entry (the file is then shipped and gone), else the first entry with the id is committed with the size and S3 key, its pair bound to it, the file in S3, the index file saved; nothing else changes |
| CacheServer.CacheState.GetArtifact | src/api/cache_server.rs:589-613 | the bytes S3 has for the id, or 404 |
| CacheServer.CacheState.LookupCache | src/api/cache_server.rs:353-406 | the two loops compute the v1 answer |
| CacheServer.CacheState.TwirpCreateCacheEntry | src/api/cache_server.rs:637-684 | as reserve, with the S3 key in the entry and a pre-signed URL instead of a file |
| CacheServer.CacheState.TwirpFinalizeCacheEntry | src/api/cache_server.rs:696-741 | commits the oldest open entry of the pair with the size, binds the pair to it and answers its id, or 404 exactly if there is none; nothing else changes |
| CacheServer.CacheState.TwirpGetDownloadUrl | src/api/cache_server.rs:760-809 | exact match, then the loop over restore keys: the v2 answer, whose declarative specification is `Lookup2IsItsSpecification` |
| CacheInterleaved.IdsAreUnique | src/api/cache_server.rs:445-671 | in every interleaving ids in the list and in flight are pairwise distinct and below the counter |
| CacheInterleaved.BindingsNeverCollide | src/api/cache_server.rs:432-733 | an id waiting to be bound is in no other request's hand and its entry is present and committed |
| CacheInterleaved.StepLive | src/api/cache_server.rs:423-735 | in the unrestricted model, a step keeps every binding and pending binding on a present committed entry exactly if it does not evict an entry another request is about to bind |
| CacheInterleaved.LiveIffNeverEvictsPending | src/api/cache_server.rs:423-735 | the same over whole runs, restarts between any two lock releases included |
| CacheInterleaved.DanglesIffEvictsPending | src/api/cache_server.rs:423-735 | exactly such an eviction lets the next binding point nowhere |
| CacheInterleaved.OnceIsUnrestricted | src/api/cache_server.rs:536-583 | a run in which no committed entry is committed again never does that |
| CacheInterleaved.CrashKeepsCounterIffLastIdSaved | src/api/cache_server.rs:84-84 | a restart anywhere never raises the id counter, and keeps it exactly if the last id handed out is in the saved file |
| CacheInterleaved.ReusedIdRun | src/api/cache_server.rs:445-469 | the run in which a restart before the save hands an id out twice |
| CacheProgress.CanContinueUnlessDone | src/api/cache_server.rs:432-473 | no deadlock on the index lock: some request under way can go on unless all are done |
| CacheProgress.RequestsComeToTheirEnd | src/api/cache_server.rs:423-735 | run in any order, the requests under way take exactly the steps that are left, and when none can go on every one is done |
| CacheClients.SoundIffCommittedOnce | src/api/cache_server.rs:423-735 | as a rule for clients: under "commit no committed entry again" every reachable index is sound, and without the rule some is not |
| CacheClients.DanglingRun | src/api/cache_server.rs:432-574 | a v1 reservation finalized through v2 is, while a new reservation evicts it, committed through v1; the late binding then points nowhere and stays |
| CachePairs.PairsDistinctIffNoTwin | src/api/cache_server.rs:423-735 | over every step of the interleaved service, restarts included: no two entries share key and version afterwards exactly if the step does not push an entry of a pair that has one |
| CachePairs.AlwaysDistinctIffNoTwin | src/api/cache_server.rs:423-735 | the same over whole runs |
| CacheClients.OrderlyNeverPushesTwin | src/api/cache_server.rs:423-735 | runs whose clients reserve a pair only when it has no open entry and no request under way, its binding included, and commit no committed entry again, never give a pair a second entry |
| CacheClients.CommittedInOnePlace | src/api/cache_server.rs:432-574 | at every moment of such a run a committed entry is in exactly one of three places: bound, about to be bound, or being evicted |
| CacheClients.GraphIffClientsOrderly | src/api/cache_server.rs:423-735 | once no request is under way, the index is exactly the graph of the committed entries in all runs that reserve no pair twice at a time, if and only if clients also wait for the binding and commit no committed entry again |
| CacheClients.LateBindingRun | src/api/cache_server.rs:555-574 | the run of clients that do not wait for the binding: all requests complete, two committed entries of the pair stay, the index names the new one and the v1 lookup answers the old one |
| CacheFiles.RunsProject | src/api/cache_server.rs:423-735 | every run of the concurrent service with temporary files and S3 is, with its file steps left out, a run of the one without, so all that holds of those runs holds of its lists and index |
| CacheFiles.UploadingRun | src/api/cache_server.rs:479-518 | amid any other requests, restarts included, an answered v1 reservation stays open and its file is the assembly of the chunks sent to it |
| CacheFiles.CommittingRun | src/api/cache_server.rs:536-574 | amid others a v1 commit carries exactly the assembled archive from the file to S3 and then to the committed entry |
| CacheFiles.ArchiveIsRestoredAmid | src/api/cache_server.rs:353-613 | v1 end to end under concurrency, all clients following the rule: reserve, chunks covering the archive and commit, split at locks, disk and S3 amid anything others do elsewhere; until the pair is reserved again, restarts included, both lookups return the id, the index names it, and the download is the archive |
| CacheFiles.ArchiveIsSavedAlone | src/api/cache_server.rs:423-583 | such runs exist for every archive and pair: a client alone goes through exactly these steps |
| CacheSequential.ReserveAlone | src/api/cache_server.rs:423-473 | run without interference, exactly the steps of a reservation end in the state of the sequential handler |
| CacheSequential.CreateAlone | src/api/cache_server.rs:637-678 | the same for a v2 create |
| CacheSequential.CommitAlone | src/api/cache_server.rs:536-583 | the same for commit, bind and save, or the commit alone if there is no entry |
| CacheSequential.FinalizeAlone | src/api/cache_server.rs:696-735 | the same for finalize, bind and save, or the finalize alone |
| CacheSequential.CrashIsRestart | src/api/cache_server.rs:59-127 | a restart between any two lock releases does what the sequential restart does, whatever was under way |
| CacheFilesAlone.ReserveWithFile | src/api/cache_server.rs:423-473 | with files and S3: run without interference, exactly the steps of a v1 reservation end in the state of the sequential handler, temporary file included |
| CacheFilesAlone.CommitWithFile | src/api/cache_server.rs:536-583 | the same for a whole v1 commit, from the check for the file to the saved index |
| CacheFilesAlone.UploadWithFile | src/api/cache_server.rs:479-518 | the same for an upload |
| CacheFilesAlone.RestartWithFiles | src/api/cache_server.rs:255-278 | a restart anywhere keeps and drops the temporary files the sequential one does |
| Layers.WhiteoutRoundTrip | src/image.rs:154-174 | a whiteout file is read back as the whiteout of its target iff the target is not called `.wh..opq` |
| LayerEntries.OrdinaryIsAdded | src/image.rs:187-189 | an entry whose file name does not start with `.wh.` is unpacked as it is: its own path and node |
| LayerEntries.MarkerIsOpaque | src/image.rs:155-171 | the entry `.wh..wh..opq` of any directory empties that directory |
| LayerEntries.EntryIsItsStep | src/image.rs:149-189 | which paths an entry creates, with which node, and which it hides, told by path and file name alone |
| LayerEntries.GzippedTarIsFilesystem | src/image.rs:104-108 | exactly the layers of the two gzipped tar media types are extracted |
| Layers.StreamWellFormed | src/image.rs:149-192 | every successful stream leaves a tree in which every parent is a directory |
| Layers.StreamingLaw | src/image.rs:149-192 | what a stream leaves at a path is decided by the last entry or whiteout that concerns it |
| Layers.SucceedsIffNoClash | src/image.rs:149-192 | a stream succeeds exactly when no step finds a node of the wrong kind |
| Layers.StreamIsChangesetIffNothingLost | src/image.rs:149-192 | streaming equals the declarative changeset at every path iff no entry is hidden by a later whiteout and not added again |
| Layers.WhiteoutsFirstGivesChangeset | src/image.rs:149-192 | in particular for layers with their whiteouts first |
| Layers.LateOpaqueDeletesSibling | src/image.rs:155-171 | the counterexample: an opaque marker after a sibling deletes it |
| LayerEntries.TopmostEntryWins | src/image.rs:94-193 | over all layers: what stands at a path is the node of an entry of that path, or a directory brought along by an entry below it, namely the entry that has the last word in the topmost extracted layer with an entry or whiteout concerning the path |
| LayerEntries.ExtractsIffNothingBlocked | src/image.rs:94-193 | an image is extracted if and only if no entry finds a file where it needs a directory, or the other way round, in what the entries before it have left |
| LayerEntries.ImageIsSpecifiedIffNothingLost | src/image.rs:94-193 | an extracted image is at every path what the changeset semantics of the OCI specification says of its tar entries, if and only if no entry, nor a parent it brings along, is hidden by a later whiteout of its layer and neither created again there nor concerned by a layer above |
| MountedTree.Mount.ClearDirectory | src/image.rs:158-168 | the loop over the children removes exactly what is below the directory |
| MountedTree.Mount.Remove | src/image.rs:180-184 | a whiteout removes the target and all below it, whatever its kind |
| MountedTree.Mount.ExtractEntry | src/image.rs:149-189 | by file name: `.wh..wh..opq` empties its directory, `.wh.<name>` removes `<name>` and all below it, anything else puts its node at its path and directories at its parents; nothing else changes; and when it fails |
| MountedTree.Mount.ExtractLayer | src/image.rs:137-193 | the loop computes the stream of the layer: at every path the last entry or whiteout concerning it decides, untouched paths stay; or it fails where the stream fails |
| MountedTree.Mount.ExtractAllLayers | src/image.rs:94-134 | the loop applies the gzipped layers bottom to top; from an empty tree it succeeds exactly if nothing is blocked and then leaves at every path the node of its topmost last word |
| Mmds.BuildMmdsPayload | src/vm/firecracker/mmds.rs:90-111 | the loop over lines computes the parsed map under `fc-runner` |
| Mmds.RoundTrip | src/vm/firecracker/mmds.rs:94-105 | rendering pairs and parsing them gives exactly their map: keys lower-cased, sides trimmed, last one wins, values with `=` intact |
| Mmds.LastPairWins | src/vm/firecracker/mmds.rs:99-103 | the value of a key is that of its last pair |
| Mmds.KeysOfCollected | src/vm/firecracker/mmds.rs:94-105 | the keys are exactly those of the pairs |
| Mmds.SurvivesIffPlain | src/vm/firecracker/mmds.rs:96-103 | a value comes back as that text iff it is on one line, trimmed and not `true` or `false` |
| Mmds.ParseAppend | src/vm/firecracker/mmds.rs:94-105 | appending to terminated text overrides entry by entry |
| Mmds.AppendOverridesIffBlankTail | src/vm/firecracker/mmds.rs:94-105 | for every block appended, if and only if nothing but blanks follows the last line feed |
| MmdsEnv.KeyBecomesName | src/agent.rs:36-72 | each key the host writes arrives under the field name of the agent's struct |
| MmdsEnv.LastPieceIs | src/scheduler/orchestrator.rs:931-936 | `rsplit(c).next()` is what follows the last `c` |
| MmdsEnv.PortOf | src/scheduler/orchestrator.rs:931-936 | the port of a listen address `host:port` is that port, if it fits 16 bits |
| MmdsEnv.ReplaceFirst | src/scheduler/orchestrator.rs:944-948 | `replace` replaces the first occurrence and goes on after it |
| MmdsEnv.ReplaceNowhere | src/scheduler/orchestrator.rs:944-948 | and changes nothing where the pattern does not occur |
| MmdsEnv.AppendCacheEnv | src/scheduler/orchestrator.rs:927-957 | appends exactly the lines of the cache, spelled out, when enabled with token and port |
| MmdsEnv.CacheTextIsRendered | src/scheduler/orchestrator.rs:939-957 | the lines of the cache, spelled out, are the rendering of its settings |
| MmdsEnv.JitTextIsRendered | src/scheduler/orchestrator.rs:792-795 | the format string of a just-in-time runner prints exactly its settings, one per line |
| MmdsEnv.WarmTextIsRendered | src/scheduler/orchestrator.rs:896-899 | so does that of a warm-pool runner |
| MmdsEnv.JitEnv | src/scheduler/orchestrator.rs:792-797 | the file of a just-in-time runner is its format string with the cache settings appended, and that is the rendering of all its settings |
| MmdsEnv.WarmEnv | src/scheduler/orchestrator.rs:896-901 | the same for a warm-pool runner |
| MmdsEnv.PoolEnv | src/scheduler/pool.rs:336-354 | the file of a named pool's VM: the same format string with the cache's URL and token appended when announced, and that is the rendering of all its settings |
| MmdsEnv.ParsedField | src/vm/firecracker/mmds.rs:94-105 | a parsed file holds each field's last setting under its name |
| MmdsAgent.AgentReadsSettings | src/agent.rs:36-76 | a written file starts the agent iff exactly the flags read as booleans, and then the struct holds what was set last |
| MmdsAgent.JitAgent | src/scheduler/orchestrator.rs:792-797 | end to end for a just-in-time VM: when the agent starts, and with which values |
| MmdsAgent.WarmAgent | src/scheduler/orchestrator.rs:896-901 | the same for a warm-pool VM |
| MmdsAgent.PoolAgent | src/scheduler/pool.rs:336-355 | the same for a VM of a named pool, whose agent never has an S3 setting |
| MmdsCache.JitAgentFindsCache | src/scheduler/orchestrator.rs:792-957 | with a listen address `host:port`: from the text of its file, the agent of a just-in-time runner gets the cache URL `http://<host ip>:<port>/`, the token and the S3 settings if the cache is enabled, has a token and the port fits 16 bits, and none of them otherwise |
| MmdsCache.WarmAgentFindsCache | src/scheduler/orchestrator.rs:896-957 | the same for a warm-pool runner |
| MmdsCache.PoolAgentFindsCache | src/scheduler/pool.rs:336-354 | the same for a VM of a named pool, without the S3 settings |
| MmdsCache.LocalhostIsRewritten | src/scheduler/orchestrator.rs:944-948 | an S3 endpoint on `localhost` is rewritten to the address the guest can reach |
| MmdsCache.LoopbackIsRewritten | src/scheduler/orchestrator.rs:944-948 | so is one on `127.0.0.1` |
| MmdsCache.RemoteEndpointStays | src/scheduler/orchestrator.rs:944-948 | any other endpoint stays as it is |

## Left out

- I/O failures of temporary files, the index file, S3 and mounts, and task panics: assumed away. GitHub's answers are arbitrary inputs; a VM run is one step of any length that succeeds or fails alike.
- Machine integers: ids and sizes are unbounded (the code has `i64`, `u64`, `usize`), except for the context id, whose 32-bit wrap is modelled, and the ports and offsets the code parses. Negative cache ids and seeks beyond a file system's limit are not modelled.
- Bearer and key checks, HTTP routing, JSON encoding, logging, metrics, JWTs, the command line, Firecracker itself, jailer, network and mount set-up. UUIDs and wall-clock time are inputs.
- WarmPool.Reachable: the initial spawn loop's `expect` is a phase of the handler in which it stays; what a panicked task leaves behind is not followed.
- Jit.PermitHolderAlwaysFindsSlot: assumes the semaphore is never closed, as nothing in the code closes it.
- WarmPoolEphemeral.AssignmentHoldsForever: holds until shutdown only; afterwards signals are dropped.
- WarmOrchestrator.Orchestrator.AutoscaleCheck: GitHub's list is one input; the early return when no repo is configured is excluded by the entry to this mode.
- WarmOrchestrator.Orchestrator.HandleCompletion: is about a delay that is not cut short by shutdown; that case is the action `Stop` of the schedules.
- WarmPoolTheorems.ExclusiveIffNoVsock: is about VM executions; processes that outlive a timed-out VM are not modelled.
- The listener on the VSOCK socket appears as its effect: a guest may report a completed job at any time and any number of times while the one-place channel has room, and the listener may go away at any time.
- NamedPool.Reachable: `scale` before the pool's loop starts is not modelled; the channel's capacity is taken from the configured maximum.
- VmIdentity.DistinctSlotsDisjoint: is about the texts; above slot 255 they are distinct but no valid addresses.
- CacheServer.CacheState.UploadChunk: a write of a whole body is one step; two uploads of overlapping ranges at the same time are not split further.
- CacheTheorems.HandleTidy: is about requests handled whole; for requests interleaved at their lock releases see `CachePairs` and `CacheClients`.
- CacheTheorems.TidyIffNoDoubleReserve: its condition is exact for requests handled whole only; the interleaved law is `PairsDistinctIffNoTwin`.
- CacheTheorems.DisciplinedRunsStayTidy: runs of whole requests; interleaved, clients must wait for the binding as well (`LateBindingRun`).
- CacheTheorems.AtMostOneCommittedPerPair: runs of whole requests, likewise.
- CacheGraph.DisciplinePreventsSecondCommit: runs of whole requests, likewise.
- CacheInterleaved.LiveIffNeverEvictsPending: has no files and no S3; its steps with them are in `CacheFiles`. Saving the index file is one step, since the entries stay read-locked while it is written.
- CacheFiles.ArchiveIsRestoredAmid: assumes that nobody else finalizes this reservation, commits its id or, once its commit has begun, uploads to it, since the service cannot tell clients apart; the process does not restart while the reservation or the commit is being answered. Sending a file to S3 is one step. Uploads through pre-signed URLs are not among the steps: one reaches only the object of its own id (`SignedArchiveIsRestored`, requests handled whole).
- The upload by a v2 client straight to S3 is a request of the model that needs a pre-signed URL for that id; URLs do not expire.
- MountedTree.Mount.ExtractEntry: tar paths are lists of normal components, and whiteouts name a child (not `.wh.`, `.wh..` or `.wh...`); ownership, permissions, extended attributes and links are left out.
- MountedTree.Mount.ExtractLayer: after a failed entry the half-written tree is not specified; the code gives the image up.
- Gzip and tar decoding: a layer is the list of its entries.
- Mmds.RoundTrip: lower-casing is any function on strings. Two things are assumed of it where they matter: `LowersAscii`, that it is the usual one on ASCII text, for the agent's field names; `KeepsKeys`, that only the empty key becomes the empty key, for `AppendOverridesIffBlankTail`.
- MmdsEnv.AppendCacheEnv: the copy of the S3 settings kept on the VM for mount mode is not part of this model.
