/**
 The concurrent cache service with its temporary files and S3: v1 uploads and commits, split
 where they wait for the disk or the network, amid everything `CacheInterleaved` has.
 */
module CacheFiles {
  import opened Wrappers
  import opened CacheLookup
  import opened CacheChunks
  import opened CacheStore
  import opened CacheInterleaved
  import opened CachePairs
  import opened CacheClients

  /** Where a v1 commit stands before it marks its entry. */
  datatype CommitPhase =
    | Checked(id: nat, size: int)  // has found the file
    | Shipped(id: nat, size: int)  // has uploaded it to S3
    | Cleared(id: nat, size: int)  // has removed it
    | Over                         // has marked the entry, or failed

  datatype Full = Full(
    base: State,
    temps: map<nat, Bytes>,
    blobs: map<nat, Bytes>,
    made: set<nat>,                // ids for which a reserve of this process has created the file
    commits: seq<CommitPhase>)

  datatype Step =
    | Inner(a: Action)             // a step of `CacheInterleaved` other than a v1 commit's mark and a restart
    | MakeFile(t: nat)             // v1 reserve: between taking the id and pushing the entry
    | UploadChunk(id: nat, range: string, body: Bytes)
    | BeginCommit(id: nat, size: int)
    | ShipFile(k: nat)
    | RemoveFile(k: nat)
    | MarkEntry(k: nat)
    | RestartService

  function Start(): Full { Full(Init(), map[], map[], {}, []) }

  ghost predicate CanStep(f: Full, step: Step) {
    match step
    case Inner(a) =>
      && !a.Commit? && !a.Crash? && Enabled(false, f.base, a)
      && (a.Push? && f.base.tasks[a.t].entry.s3Key.None? ==> f.base.tasks[a.t].entry.id in f.made)
    case MakeFile(t) =>
      && t < |f.base.tasks| && f.base.tasks[t].Pushing? && f.base.tasks[t].entry.s3Key.None?
      && f.base.tasks[t].entry.id !in f.made
    case UploadChunk(_, _, _) => true
    case BeginCommit(_, _) => true
    case ShipFile(k) => k < |f.commits| && f.commits[k].Checked?
    case RemoveFile(k) => k < |f.commits| && f.commits[k].Shipped?
    case MarkEntry(k) => k < |f.commits| && f.commits[k].Cleared?
    case RestartService => true
  }

  function WriteChunk(temps: map<nat, Bytes>, id: nat, range: string, body: Bytes): map<nat, Bytes> {
    var start := ParseContentRangeStart(range);
    if start.None? || id !in temps then temps else temps[id := WriteAt(temps[id], start.value, body)]
  }

  ghost function After(f: Full, step: Step): Full
    requires CanStep(f, step)
  {
    match step
    case Inner(a) => f.(base := Apply(false, f.base, a))
    case MakeFile(t) =>
      var id := f.base.tasks[t].entry.id;
      f.(temps := f.temps[id := []], made := f.made + {id})
    case UploadChunk(id, range, body) => f.(temps := WriteChunk(f.temps, id, range, body))
    case BeginCommit(id, size) => if id in f.temps then f.(commits := f.commits + [Checked(id, size)]) else f
    case ShipFile(k) =>
      var id := f.commits[k].id;
      if id !in f.temps then f.(commits := f.commits[k := Over])
      else f.(blobs := f.blobs[id := f.temps[id]], commits := f.commits[k := Shipped(id, f.commits[k].size)])
    case RemoveFile(k) =>
      var id := f.commits[k].id;
      f.(temps := f.temps - {id}, commits := f.commits[k := Cleared(id, f.commits[k].size)])
    case MarkEntry(k) =>
      f.(base := Apply(false, f.base, Commit(f.commits[k].id, f.commits[k].size)), commits := f.commits[k := Over])
    case RestartService =>
      Full(Apply(false, f.base, Crash),
           map id | id in f.temps && id in OpenIds(f.base.disk) :: f.temps[id], f.blobs, {}, [])
  }

  /** The state a schedule leads to, or `None` if some step of it could not happen. */
  ghost function Run(steps: seq<Step>): Option<Full> {
    if steps == [] then Some(Start())
    else
      var before := Run(steps[..|steps| - 1]);
      var step := steps[|steps| - 1];
      if before.Some? && CanStep(before.value, step) then Some(After(before.value, step)) else None
  }

  // ---- Its runs are runs of the service without files ----

  /** The step of the service without files, if it is one. */
  function ActOf(f: Full, step: Step): seq<Action> {
    match step
    case Inner(a) => [a]
    case MarkEntry(k) =>
      if k < |f.commits| && f.commits[k].Cleared? then [Commit(f.commits[k].id, f.commits[k].size)] else []
    case RestartService => [Crash]
    case _ => []
  }

  ghost function Project(steps: seq<Step>): seq<Action> {
    if steps == [] || Run(steps[..|steps| - 1]).None? then []
    else Project(steps[..|steps| - 1]) + ActOf(Run(steps[..|steps| - 1]).value, steps[|steps| - 1])
  }

  lemma BaseStep(f: Full, step: Step)
    requires CanStep(f, step)
    ensures var acts := ActOf(f, step);
      if acts == [] then After(f, step).base == f.base
      else |acts| == 1 && Enabled(false, f.base, acts[0]) && After(f, step).base == Apply(false, f.base, acts[0])
  {
  }

  /** Every run with files, with its file steps left out, is a run of the service without. */
  lemma {:induction false} RunsProject(steps: seq<Step>)
    requires Run(steps).Some?
    ensures Exec(false, Init(), Project(steps)) == Some(Run(steps).value.base)
  {
    if steps != [] {
      var before, step := steps[..|steps| - 1], steps[|steps| - 1];
      RunsProject(before);
      var f := Run(before).value;
      BaseStep(f, step);
      var acts := ActOf(f, step);
      if acts == [] {
        assert Project(steps) == Project(before);
      } else {
        assert acts == [acts[0]];
        ExecAppend(false, Init(), Project(before), f.base, acts[0], After(f, step).base);
      }
    }
  }

  // ---- Runs of orderly clients ----

  /** Clients follow the rule of `CacheClients`. */
  ghost predicate OrderlySteps(steps: seq<Step>) { Run(steps).Some? && Orderly(true, true, Project(steps)) }

  function OnlyAct(acts: seq<Action>): Option<Action> { if acts == [] then None else Some(acts[0]) }

  /** The step can happen, and as a step of the service without files it follows the rule. */
  ghost predicate OrderlyNext(f: Full, step: Step) {
    && CanStep(f, step)
    && var a := OnlyAct(ActOf(f, step));
       a.Some? ==> Enabled(true, f.base, a.value) && !ReservesEarly(true, f.base, a.value)
  }

  lemma OrderlyBase(steps: seq<Step>)
    requires OrderlySteps(steps)
    ensures Run(steps).Some? && OrderlyInv(Run(steps).value.base)
    ensures Exec(true, Init(), Project(steps)) == Some(Run(steps).value.base)
  {
    RunsProject(steps);
    OnceIsUnrestricted(Project(steps));
    OrderlyRuns(Project(steps));
  }

  lemma OrderlyLast(before: seq<Step>, step: Step)
    requires OrderlySteps(before + [step])
    ensures OrderlySteps(before) && OrderlyInv(Run(before).value.base) && OrderlyNext(Run(before).value, step)
    ensures Run(before + [step]).value == After(Run(before).value, step)
  {
    var steps := before + [step];
    assert steps[..|steps| - 1] == before;
    var f := Run(before).value;
    var acts := ActOf(f, step);
    if acts == [] {
      assert Project(steps) == Project(before);
    } else {
      BaseStep(f, step);
      assert acts == [acts[0]];
      assert Project(steps)[..|Project(before)|] == Project(before);
    }
    OrderlyBase(before);
  }

  lemma {:induction false} OrderlyPrefix(before: seq<Step>, more: seq<Step>)
    requires OrderlySteps(before + more)
    ensures OrderlySteps(before)
  {
    if more == [] {
      assert before + more == before;
    } else {
      var n := |more| - 1;
      assert before + more == before + more[..n] + [more[n]];
      OrderlyLast(before + more[..n], more[n]);
      OrderlyPrefix(before, more[..n]);
    }
  }

  // ---- Entries ----

  /** An open entry of this pair with this id is in the list. */
  ghost predicate IsOpen(entries: seq<Entry>, pair: Pair, id: nat) {
    exists e :: e in entries && e.id == id && !e.committed && PairOf(e) == pair
  }

  /** The action marks no entry of this pair or id. */
  predicate SparesEntry(a: Action, pair: Pair, id: nat) {
    !(a.Finalize? && a.pair == pair) && !(a.Commit? && a.id == id)
  }

  lemma OpenAfterWithout(entries: seq<Entry>, gone: nat, other: Pair, pair: Pair, id: nat)
    requires DistinctIds(entries) && IsOpen(entries, pair, id) && Present(entries, other, gone)
    ensures IsOpen(Without(entries, gone), pair, id)
  {
    var e :| e in entries && e.id == id && !e.committed && PairOf(e) == pair;
    var i :| 0 <= i < |entries| && entries[i] == e;
    OpenIsUnclaimed(entries, i, other, gone);
    WithoutMembers(entries, gone, e);
  }

  lemma OpenAfterMark(entries: seq<Entry>, i: nat, marked: Entry, pair: Pair, id: nat)
    requires i < |entries| && IsOpen(entries, pair, id) && !(entries[i].id == id && PairOf(entries[i]) == pair)
    ensures IsOpen(entries[i := marked], pair, id)
  {
    var e :| e in entries && e.id == id && !e.committed && PairOf(e) == pair;
    var k :| 0 <= k < |entries| && entries[k] == e;
    assert entries[i := marked][k] == e;
  }

  /** An open entry stays in the list until it is marked. */
  lemma OpenInList(s: State, a: Action, s': State, pair: Pair, id: nat)
    requires OrderlyInv(s) && Enabled(true, s, a) && s' == Apply(true, s, a) && SparesEntry(a, pair, id)
    requires IsOpen(s.entries, pair, id) && !a.Crash?
    ensures IsOpen(s'.entries, pair, id)
  {
    match a
    case Retain(t) => OpenAfterWithout(s.entries, s.tasks[t].id, s.tasks[t].pair, pair, id);
    case Push(t) => OpenAfterPush(s.entries, s.tasks[t].entry, pair, id);
    case Commit(other, size) =>
      var i := FindId(s.entries, other);
      if i.Some? {
        OpenAfterMark(s.entries, i.value, MarkCommitted(s.entries[i.value], size, Some(S3Key(other))), pair, id);
      }
    case Finalize(other, size) =>
      var i := FindOpen(s.entries, other);
      if i.Some? {
        OpenAfterMark(s.entries, i.value, MarkCommitted(s.entries[i.value], size, s.entries[i.value].s3Key), pair, id);
      }
    case _ =>
  }

  /** And in the saved file, restarts included. */
  lemma OpenStays(s: State, a: Action, s': State, pair: Pair, id: nat)
    requires OrderlyInv(s) && Enabled(true, s, a) && s' == Apply(true, s, a) && SparesEntry(a, pair, id)
    requires IsOpen(s.entries, pair, id) && IsOpen(s.disk, pair, id)
    ensures IsOpen(s'.entries, pair, id) && IsOpen(s'.disk, pair, id)
  {
    if !a.Crash? {
      OpenInList(s, a, s', pair, id);
    }
  }

  lemma OpenAfterPush(entries: seq<Entry>, added: Entry, pair: Pair, id: nat)
    requires IsOpen(entries, pair, id)
    ensures IsOpen(entries + [added], pair, id)
  {
    var e :| e in entries && e.id == id && !e.committed && PairOf(e) == pair;
    assert e in entries + [added];
  }

  /** Its own commit marks it. */
  lemma OpenIsMarked(s: State, id: nat, size: int, s': State, pair: Pair)
    requires DistinctIds(s.entries) && IsOpen(s.entries, pair, id) && s' == Apply(false, s, Commit(id, size))
    ensures Present(s'.entries, pair, id)
  {
    var e :| e in s.entries && e.id == id && !e.committed && PairOf(e) == pair;
    var k :| 0 <= k < |s.entries| && s.entries[k] == e;
    var i := FindId(s.entries, id).value;
    assert i == k;
    assert s'.entries[i] == MarkCommitted(e, size, Some(S3Key(id)));
  }

  /** Nobody is on the way to a new entry of this pair. */
  ghost predicate NoneStarting(s: State, pair: Pair) {
    forall t | 0 <= t < |s.tasks| && Starting(s.tasks[t]) :: PhasePair(s.tasks[t]) != pair
  }

  lemma OpenNoneStarting(s: State, pair: Pair, id: nat)
    requires OrderlyInv(s) && IsOpen(s.entries, pair, id)
    ensures NoneStarting(s, pair)
  {
    var e :| e in s.entries && e.id == id && !e.committed && PairOf(e) == pair;
    var k :| 0 <= k < |s.entries| && s.entries[k] == e;
    OpenIsIdle(s, k);
  }

  lemma NoneStartingStays(s: State, a: Action, s': State, pair: Pair)
    requires Enabled(true, s, a) && s' == Apply(true, s, a) && NoneStarting(s, pair) && !(a.Reserve? && a.pair == pair)
    ensures NoneStarting(s', pair)
  {
    forall t | 0 <= t < |s'.tasks| && Starting(s'.tasks[t])
      ensures PhasePair(s'.tasks[t]) != pair
    {
      if t < |s.tasks| && s'.tasks[t] != s.tasks[t] {
        assert Starting(s.tasks[t]) && PhasePair(s.tasks[t]) == PhasePair(s'.tasks[t]);
      }
    }
  }

  /** A committed entry stays until its pair is reserved again. */
  lemma PresentStays(s: State, a: Action, s': State, pair: Pair, id: nat)
    requires OrderlyInv(s) && Enabled(true, s, a) && s' == Apply(true, s, a)
    requires Present(s.entries, pair, id) && NoneStarting(s, pair) && !a.Crash?
    ensures Present(s'.entries, pair, id)
  {
    match a
    case Retain(t) =>
      OtherEvicted(s, t, pair, id);
      PresentAfterWithout(s.entries, s.tasks[t].id, pair, id);
    case Push(t) => PresentAfterPush(s.entries, s.tasks[t].entry, pair, id);
    case Commit(other, size) =>
      var i := FindId(s.entries, other);
      if i.Some? {
        PresentAfterAnyMark(s.entries, i.value, size, Some(S3Key(other)), pair, id);
      }
    case Finalize(other, size) =>
      var i := FindOpen(s.entries, other);
      if i.Some? {
        PresentAfterAnyMark(s.entries, i.value, size, s.entries[i.value].s3Key, pair, id);
      }
    case _ =>
  }

  lemma OtherEvicted(s: State, t: nat, pair: Pair, id: nat)
    requires OrderlyInv(s) && Present(s.entries, pair, id) && NoneStarting(s, pair)
    requires t < |s.tasks| && s.tasks[t].Evicting?
    ensures s.tasks[t].id != id
  {
    assert Starting(s.tasks[t]) && PhasePair(s.tasks[t]) == s.tasks[t].pair;
    DifferentIds(s.entries, s.tasks[t].pair, s.tasks[t].id, pair, id);
  }

  lemma DifferentIds(entries: seq<Entry>, p: Pair, i: nat, q: Pair, j: nat)
    requires DistinctIds(entries) && Present(entries, p, i) && Present(entries, q, j) && p != q
    ensures i != j
  {
    var k := PresentAt(entries, p, i);
    var l := PresentAt(entries, q, j);
    assert k != l;
  }

  lemma PresentAfterPush(entries: seq<Entry>, added: Entry, pair: Pair, id: nat)
    requires Present(entries, pair, id)
    ensures Present(entries + [added], pair, id)
  {
    var e :| e in entries && e.id == id && e.committed && PairOf(e) == pair;
    assert e in entries + [added];
  }

  // ---- From the reservation to the archive in S3 ----

  /** The request has checked for this id's file and not yet marked the entry. */
  predicate About(p: CommitPhase, id: nat) { !p.Over? && p.id == id }

  /** The reservation is answered: its entry is open and saved, its file there, and nobody commits it yet. */
  ghost predicate Uploading(f: Full, pair: Pair, id: nat) {
    && IsOpen(f.base.entries, pair, id) && IsOpen(f.base.disk, pair, id) && id in f.temps
    && forall k | 0 <= k < |f.commits| :: !About(f.commits[k], id)
  }

  /** A step that leaves such a reservation open; chunks may be uploaded, and the service restarted. */
  predicate LeavesOpen(step: Step, pair: Pair, id: nat) {
    && !(step.Inner? && step.a.Finalize? && step.a.pair == pair)
    && !(step.BeginCommit? && step.id == id)
  }

  /** The chunk a step writes to this id's file. */
  function ChunkOf(step: Step, id: nat): seq<Chunk> {
    if step.UploadChunk? && step.id == id && ParseContentRangeStart(step.range).Some?
    then [Chunk(ParseContentRangeStart(step.range).value, step.body)] else []
  }

  function ChunksOf(steps: seq<Step>, id: nat): seq<Chunk> {
    if steps == [] then [] else ChunksOf(steps[..|steps| - 1], id) + ChunkOf(steps[|steps| - 1], id)
  }

  function Written(file: Bytes, chunks: seq<Chunk>): Bytes {
    if chunks == [] then file else WriteAt(file, chunks[0].start, chunks[0].body)
  }

  /** The entries under a step of the service: those of one of its own steps, or unchanged. */
  lemma OpenUnderStep(f: Full, step: Step, f': Full, pair: Pair, id: nat)
    requires OrderlyInv(f.base) && OrderlyNext(f, step) && f' == After(f, step)
    requires var a := OnlyAct(ActOf(f, step)); a.Some? ==> SparesEntry(a.value, pair, id)
    requires IsOpen(f.base.entries, pair, id) && IsOpen(f.base.disk, pair, id)
    ensures IsOpen(f'.base.entries, pair, id) && IsOpen(f'.base.disk, pair, id)
  {
    BaseStep(f, step);
    var a := OnlyAct(ActOf(f, step));
    if a.Some? {
      OpenStays(f.base, a.value, f'.base, pair, id);
    }
  }

  /** A file is created only for an id that is new. */
  lemma NewFileElsewhere(f: Full, t: nat, pair: Pair, id: nat)
    requires IdsInv(f.base) && CanStep(f, MakeFile(t)) && exists e :: e in f.base.entries && e.id == id
    ensures f.base.tasks[t].entry.id != id
  {
    var e :| e in f.base.entries && e.id == id;
    var i :| 0 <= i < |f.base.entries| && f.base.entries[i] == e;
  }

  /** What a step does to the file of an open reservation. */
  lemma FileUnderStep(f: Full, step: Step, f': Full, pair: Pair, id: nat)
    requires IdsInv(f.base) && CanStep(f, step) && f' == After(f, step)
    requires Uploading(f, pair, id)
    ensures id in f'.temps && f'.temps[id] == Written(f.temps[id], ChunkOf(step, id))
  {
    match step
    case MakeFile(t) =>
      var e :| e in f.base.entries && e.id == id && !e.committed && PairOf(e) == pair;
      NewFileElsewhere(f, t, pair, id);
    case RemoveFile(k) => assert About(f.commits[k], f.commits[k].id);
    case RestartService =>
      var e :| e in f.base.disk && e.id == id && !e.committed && PairOf(e) == pair;
      assert id in OpenIds(f.base.disk);
    case _ =>
  }

  lemma NoCommitUnderStep(f: Full, step: Step, f': Full, pair: Pair, id: nat)
    requires CanStep(f, step) && f' == After(f, step) && LeavesOpen(step, pair, id)
    requires forall k | 0 <= k < |f.commits| :: !About(f.commits[k], id)
    ensures forall k | 0 <= k < |f'.commits| :: !About(f'.commits[k], id)
  {
    forall k | 0 <= k < |f'.commits|
      ensures !About(f'.commits[k], id)
    {
      if k < |f.commits| {
        assert !About(f.commits[k], id);
      }
    }
  }

  lemma UploadingStep(f: Full, step: Step, f': Full, pair: Pair, id: nat)
    requires OrderlyInv(f.base) && OrderlyNext(f, step) && f' == After(f, step)
    requires Uploading(f, pair, id) && LeavesOpen(step, pair, id)
    ensures Uploading(f', pair, id) && f'.temps[id] == Written(f.temps[id], ChunkOf(step, id))
  {
    assert step.MarkEntry? ==> About(f.commits[step.k], f.commits[step.k].id);
    OpenUnderStep(f, step, f', pair, id);
    FileUnderStep(f, step, f', pair, id);
    NoCommitUnderStep(f, step, f', pair, id);
  }

  /** While others do what they like elsewhere, the file of an open reservation is the assembly of its chunks. */
  lemma {:induction false} UploadingRun(before: seq<Step>, during: seq<Step>, pair: Pair, id: nat)
    requires OrderlySteps(before + during)
    requires Run(before).Some? && Uploading(Run(before).value, pair, id) && Run(before).value.temps[id] == []
    requires forall step | step in during :: LeavesOpen(step, pair, id)
    ensures Uploading(Run(before + during).value, pair, id)
    ensures Run(before + during).value.temps[id] == Assemble(ChunksOf(during, id))
  {
    hide Run, Project, Orderly, Uploading, After;
    if during == [] {
      assert before + during == before;
    } else {
      var n := |during| - 1;
      var steps := before + during[..n];
      assert before + during == steps + [during[n]];
      OrderlyLast(steps, during[n]);
      UploadingRun(before, during[..n], pair, id);
      UploadingStep(Run(steps).value, during[n], Run(before + during).value, pair, id);
      AssembleOneMore(ChunksOf(during[..n], id), ChunkOf(during[n], id));
    }
  }

  lemma AssembleOneMore(chunks: seq<Chunk>, next: seq<Chunk>)
    requires |next| <= 1
    ensures Assemble(chunks + next) == Written(Assemble(chunks), next)
  {
    if next == [] {
      assert chunks + next == chunks;
    } else {
      assert (chunks + next)[..|chunks|] == chunks && (chunks + next)[|chunks|] == next[0];
    }
  }

  // ---- The commit ----

  /**
   Commit `k` is on its way for this id, and nobody else's: the entry is still open, and the
   archive is in the file, and then in S3.
   */
  ghost predicate Committing(f: Full, k: nat, pair: Pair, id: nat, archive: Bytes) {
    && IsOpen(f.base.entries, pair, id) && IsOpen(f.base.disk, pair, id)
    && k < |f.commits| && About(f.commits[k], id)
    && (forall j | 0 <= j < |f.commits| && j != k :: !About(f.commits[j], id))
    && (f.commits[k].Checked? ==> id in f.temps && f.temps[id] == archive)
    && (!f.commits[k].Checked? ==> id in f.blobs && f.blobs[id] == archive)
    && (f.commits[k].Cleared? ==> id !in f.temps)
  }

  /** The entry is committed, its archive is in S3 and nothing is on its way to replace it. */
  ghost predicate Marked(f: Full, pair: Pair, id: nat, archive: Bytes) {
    && Present(f.base.entries, pair, id) && NoneStarting(f.base, pair)
    && id !in f.temps && id in f.blobs && f.blobs[id] == archive
    && forall k | 0 <= k < |f.commits| :: !About(f.commits[k], id)
  }

  /** A step that leaves the commit alone: no upload for the id, no other commit or finalize, no restart. */
  predicate LeavesCommit(step: Step, pair: Pair, id: nat) {
    && LeavesOpen(step, pair, id) && !(step.UploadChunk? && step.id == id) && !step.RestartService?
    && !(step.Inner? && step.a.Reserve? && step.a.pair == pair)
  }

  lemma BeginsCommit(f: Full, size: int, pair: Pair, id: nat)
    requires Uploading(f, pair, id)
    ensures Committing(After(f, BeginCommit(id, size)), |f.commits|, pair, id, f.temps[id])
  {
  }

  /** The commit's own next step. */
  lemma OwnStep(f: Full, k: nat, step: Step, f': Full, pair: Pair, id: nat, archive: Bytes)
    requires OrderlyInv(f.base) && OrderlyNext(f, step) && f' == After(f, step) && Committing(f, k, pair, id, archive)
    requires step == ShipFile(k) || step == RemoveFile(k)
    ensures Committing(f', k, pair, id, archive)
  {
  }

  lemma OwnMark(f: Full, k: nat, f': Full, pair: Pair, id: nat, archive: Bytes)
    requires OrderlyInv(f.base) && OrderlyNext(f, MarkEntry(k)) && f' == After(f, MarkEntry(k))
    requires Committing(f, k, pair, id, archive)
    ensures Marked(f', pair, id, archive)
  {
    var a := Commit(id, f.commits[k].size);
    OpenIsMarked(f.base, id, f.commits[k].size, f'.base, pair);
    OpenNoneStarting(f.base, pair, id);
    NoneStartingStays(f.base, a, f'.base, pair);
  }

  lemma OthersCommits(f: Full, k: nat, step: Step, f': Full, pair: Pair, id: nat)
    requires CanStep(f, step) && f' == After(f, step) && LeavesCommit(step, pair, id)
    requires k < |f.commits| && (forall j | 0 <= j < |f.commits| && j != k :: !About(f.commits[j], id))
    requires step != ShipFile(k) && step != RemoveFile(k) && step != MarkEntry(k)
    ensures k < |f'.commits| && f'.commits[k] == f.commits[k]
    ensures forall j | 0 <= j < |f'.commits| && j != k :: !About(f'.commits[j], id)
  {
    forall j | 0 <= j < |f'.commits| && j != k
      ensures !About(f'.commits[j], id)
    {
      if j < |f.commits| {
        assert !About(f.commits[j], id);
      }
    }
  }

  lemma OthersFiles(f: Full, k: nat, step: Step, f': Full, pair: Pair, id: nat)
    requires IdsInv(f.base) && CanStep(f, step) && f' == After(f, step) && LeavesCommit(step, pair, id)
    requires forall j | 0 <= j < |f.commits| && j != k :: !About(f.commits[j], id)
    requires step != ShipFile(k) && step != RemoveFile(k) && step != MarkEntry(k)
    requires exists e :: e in f.base.entries && e.id == id
    ensures (id in f'.temps <==> id in f.temps) && (id in f.temps ==> f'.temps[id] == f.temps[id])
    ensures (id in f'.blobs <==> id in f.blobs) && (id in f.blobs ==> f'.blobs[id] == f.blobs[id])
  {
    match step
    case MakeFile(t) => NewFileElsewhere(f, t, pair, id);
    case ShipFile(j) => assert About(f.commits[j], f.commits[j].id);
    case RemoveFile(j) => assert About(f.commits[j], f.commits[j].id);
    case _ =>
  }

  lemma OthersStep(f: Full, k: nat, step: Step, f': Full, pair: Pair, id: nat, archive: Bytes)
    requires OrderlyInv(f.base) && OrderlyNext(f, step) && f' == After(f, step) && Committing(f, k, pair, id, archive)
    requires LeavesCommit(step, pair, id) && step != ShipFile(k) && step != RemoveFile(k) && step != MarkEntry(k)
    ensures Committing(f', k, pair, id, archive)
  {
    assert step.MarkEntry? ==> About(f.commits[step.k], f.commits[step.k].id);
    OpenUnderStep(f, step, f', pair, id);
    OthersCommits(f, k, step, f', pair, id);
    OthersFiles(f, k, step, f', pair, id);
  }

  // ---- The committed entry ----

  /** Nothing but a new reservation of its pair concerns a committed entry. */
  predicate LeavesMarked(step: Step, pair: Pair) { !(step.Inner? && step.a.Reserve? && step.a.pair == pair) }

  lemma MarkedStep(f: Full, step: Step, f': Full, pair: Pair, id: nat, archive: Bytes)
    requires OrderlyInv(f.base) && OrderlyNext(f, step) && f' == After(f, step)
    requires Marked(f, pair, id, archive) && LeavesMarked(step, pair) && !step.RestartService?
    ensures Marked(f', pair, id, archive)
  {
    MarkedEntry(f, step, f', pair, id);
    MarkedFiles(f, step, f', pair, id);
  }

  lemma MarkedEntry(f: Full, step: Step, f': Full, pair: Pair, id: nat)
    requires OrderlyInv(f.base) && OrderlyNext(f, step) && f' == After(f, step)
    requires Present(f.base.entries, pair, id) && NoneStarting(f.base, pair)
    requires LeavesMarked(step, pair) && !step.RestartService?
    ensures Present(f'.base.entries, pair, id) && NoneStarting(f'.base, pair)
  {
    BaseStep(f, step);
    var a := OnlyAct(ActOf(f, step));
    if a.Some? {
      PresentStays(f.base, a.value, f'.base, pair, id);
      NoneStartingStays(f.base, a.value, f'.base, pair);
    }
  }

  lemma MarkedFiles(f: Full, step: Step, f': Full, pair: Pair, id: nat)
    requires IdsInv(f.base) && CanStep(f, step) && f' == After(f, step) && Present(f.base.entries, pair, id)
    requires id !in f.temps && id in f.blobs && forall k | 0 <= k < |f.commits| :: !About(f.commits[k], id)
    ensures id !in f'.temps && id in f'.blobs && f'.blobs[id] == f.blobs[id]
    ensures forall k | 0 <= k < |f'.commits| :: !About(f'.commits[k], id)
  {
    forall k | 0 <= k < |f.commits|
      ensures f.commits[k].Over? || f.commits[k].id != id
    {
      assert !About(f.commits[k], id);
    }
    if step.MakeFile? {
      NewFileElsewhere(f, step.t, pair, id);
    }
  }

  /** The saved file has it too, so that a restart does not lose it. */
  ghost predicate Kept(f: Full, pair: Pair, id: nat, archive: Bytes) {
    Marked(f, pair, id, archive) && Present(f.base.disk, pair, id)
  }

  lemma KeptStep(f: Full, step: Step, f': Full, pair: Pair, id: nat, archive: Bytes)
    requires OrderlyInv(f.base) && OrderlyNext(f, step) && f' == After(f, step)
    requires Kept(f, pair, id, archive) && LeavesMarked(step, pair)
    ensures Kept(f', pair, id, archive)
  {
    if !step.RestartService? {
      MarkedStep(f, step, f', pair, id, archive);
      BaseStep(f, step);
    }
  }

  /** Every save after the mark puts it into the file. */
  lemma SaveKeeps(f: Full, t: nat, f': Full, pair: Pair, id: nat, archive: Bytes)
    requires OrderlyInv(f.base) && OrderlyNext(f, Inner(Save(t))) && f' == After(f, Inner(Save(t)))
    requires Marked(f, pair, id, archive)
    ensures Kept(f', pair, id, archive)
  {
    MarkedStep(f, Inner(Save(t)), f', pair, id, archive);
  }

  /** Once it is bound, both lookups of the key answer this id, and its download is the archive. */
  ghost predicate ServedFull(f: Full, pair: Pair, id: nat, archive: Bytes, otherKeys: seq<string>) {
    var entries := f.base.entries;
    var v1, v2 := LookupV1(entries, [pair.0] + otherKeys, pair.1), LookupV2(entries, pair.0, otherKeys, pair.1);
    && id in f.blobs && f.blobs[id] == archive
    && v1.Some? && entries[v1.value].id == id && v2 == v1
    && (!BindingNow(f.base, pair) ==> pair in f.base.index && f.base.index[pair] == id)
  }

  lemma MarkedIsServed(f: Full, pair: Pair, id: nat, archive: Bytes, otherKeys: seq<string>)
    requires OrderlyInv(f.base) && Marked(f, pair, id, archive)
    ensures ServedFull(f, pair, id, archive, otherKeys)
  {
    var entries := f.base.entries;
    var i := PresentAt(entries, pair, id);
    assert ExactMatch(entries[i], pair.0, pair.1);
    var r := FirstExact(entries, pair.0, pair.1).value;
    PresentIsOnly(entries, pair, id, r);
    assert ([pair.0] + otherKeys)[0] == pair.0;
    MarkedIsBound(f.base, pair, id, i);
  }

  lemma MarkedIsBound(s: State, pair: Pair, id: nat, i: nat)
    requires OrderlyInv(s) && Present(s.entries, pair, id) && NoneStarting(s, pair)
    requires i < |s.entries| && s.entries[i].id == id && s.entries[i].committed && PairOf(s.entries[i]) == pair
    ensures !BindingNow(s, pair) ==> pair in s.index && s.index[pair] == id
  {
    if pair in s.index {
      PresentIsOnly(s.entries, pair, s.index[pair], i);
    } else {
      var t :| 0 <= t < |s.tasks| && Claims(s.tasks[t]) && s.tasks[t].pair == pair;
      assert s.tasks[t].Evicting? ==> Starting(s.tasks[t]) && PhasePair(s.tasks[t]) == pair;
    }
  }

  // ---- Whole runs ----

  lemma CommittingStep(f: Full, k: nat, step: Step, f': Full, pair: Pair, id: nat, archive: Bytes)
    requires OrderlyInv(f.base) && OrderlyNext(f, step) && f' == After(f, step) && LeavesCommit(step, pair, id)
    requires Committing(f, k, pair, id, archive) || Marked(f, pair, id, archive)
    ensures Committing(f', k, pair, id, archive) || Marked(f', pair, id, archive)
  {
    if Marked(f, pair, id, archive) {
      MarkedStep(f, step, f', pair, id, archive);
    } else if step == MarkEntry(k) {
      OwnMark(f, k, f', pair, id, archive);
    } else if step == ShipFile(k) || step == RemoveFile(k) {
      OwnStep(f, k, step, f', pair, id, archive);
    } else {
      OthersStep(f, k, step, f', pair, id, archive);
    }
  }

  lemma {:induction false} CommittingRun(before: seq<Step>, mid: seq<Step>, k: nat, pair: Pair, id: nat, archive: Bytes)
    requires OrderlySteps(before + mid) && Run(before).Some? && Committing(Run(before).value, k, pair, id, archive)
    requires forall step | step in mid :: LeavesCommit(step, pair, id)
    ensures Committing(Run(before + mid).value, k, pair, id, archive)
      || Marked(Run(before + mid).value, pair, id, archive)
  {
    hide Run, Project, Orderly, Committing, Marked, After;
    if mid == [] {
      assert before + mid == before;
    } else {
      var n := |mid| - 1;
      var steps := before + mid[..n];
      assert before + mid == steps + [mid[n]];
      OrderlyLast(steps, mid[n]);
      CommittingRun(before, mid[..n], k, pair, id, archive);
      CommittingStep(Run(steps).value, k, mid[n], Run(before + mid).value, pair, id, archive);
    }
  }

  lemma {:induction false} KeptRun(before: seq<Step>, after: seq<Step>, pair: Pair, id: nat, archive: Bytes)
    requires OrderlySteps(before + after) && Run(before).Some? && Kept(Run(before).value, pair, id, archive)
    requires forall step | step in after :: LeavesMarked(step, pair)
    ensures Kept(Run(before + after).value, pair, id, archive)
  {
    hide Run, Project, Orderly, Kept, After;
    if after == [] {
      assert before + after == before;
    } else {
      var n := |after| - 1;
      var steps := before + after[..n];
      assert before + after == steps + [after[n]];
      OrderlyLast(steps, after[n]);
      KeptRun(before, after[..n], pair, id, archive);
      KeptStep(Run(steps).value, after[n], Run(before + after).value, pair, id, archive);
    }
  }

  // ---- The reservation ----

  /** Files and commits are of ids handed out. */
  ghost predicate FilesInv(f: Full) {
    && (forall id | id in f.temps :: id < f.base.nextId)
    && (forall id | id in f.made :: id < f.base.nextId)
    && (forall k | 0 <= k < |f.commits| && !f.commits[k].Over? :: f.commits[k].id < f.base.nextId)
  }

  lemma NextIdGrows(f: Full, step: Step)
    requires CanStep(f, step) && !step.RestartService?
    ensures f.base.nextId <= After(f, step).base.nextId
  {
  }

  lemma FilesStep(f: Full, step: Step, f': Full)
    requires IdsInv(f.base) && FilesInv(f) && CanStep(f, step) && f' == After(f, step)
    ensures FilesInv(f')
  {
    if step.RestartService? {
      MaxIdIsBound(f.base.disk);
      forall id | id in f'.temps
        ensures id < f'.base.nextId
      {
        var e :| e in f.base.disk && !e.committed && e.id == id;
        var i :| 0 <= i < |f.base.disk| && f.base.disk[i] == e;
      }
    } else {
      NextIdGrows(f, step);
      forall k | 0 <= k < |f'.commits| && !f'.commits[k].Over?
        ensures f'.commits[k].id < f'.base.nextId
      {
        if k < |f.commits| {
          assert !f.commits[k].Over? && f'.commits[k].id == f.commits[k].id;
        }
      }
    }
  }

  lemma {:induction false} FilesReachable(steps: seq<Step>)
    requires Run(steps).Some?
    ensures FilesInv(Run(steps).value)
  {
    if steps != [] {
      var before := steps[..|steps| - 1];
      FilesReachable(before);
      RunsProject(before);
      ExecInv(false, Project(before));
      FilesStep(Run(before).value, steps[|steps| - 1], Run(steps).value);
    }
  }

  /** Reserve request `t` has this id and has not pushed its entry: the file, once made, is empty. */
  ghost predicate Reserving(f: Full, t: nat, pair: Pair, id: nat) {
    && t < |f.base.tasks| && f.base.tasks[t].Pushing?
    && f.base.tasks[t].entry.id == id && PairOf(f.base.tasks[t].entry) == pair
    && !f.base.tasks[t].entry.committed && f.base.tasks[t].entry.s3Key.None?
    && (id in f.made ==> id in f.temps && f.temps[id] == [])
    && forall k | 0 <= k < |f.commits| :: !About(f.commits[k], id)
  }

  /** It has pushed the entry: once it has answered, that is saved. */
  ghost predicate Pushed(f: Full, t: nat, pair: Pair, id: nat) {
    && t < |f.base.tasks| && (f.base.tasks[t].Saving? || f.base.tasks[t].Done?)
    && IsOpen(f.base.entries, pair, id) && (f.base.tasks[t].Done? ==> IsOpen(f.base.disk, pair, id))
    && id in f.temps && f.temps[id] == []
    && forall k | 0 <= k < |f.commits| :: !About(f.commits[k], id)
  }

  /** A step that leaves the reservation alone: the id, not yet answered, is not guessed. */
  predicate LeavesReserve(step: Step, pair: Pair, id: nat) {
    LeavesOpen(step, pair, id) && !(step.UploadChunk? && step.id == id) && !step.RestartService?
  }

  lemma TakesId(f: Full, t: nat, pair: Pair, now: int)
    requires FilesInv(f) && t < |f.base.tasks| && f.base.tasks[t] == Allocating(pair, false, now)
    ensures Reserving(After(f, Inner(Allocate(t))), t, pair, f.base.nextId)
  {
  }

  /** Steps of others leave request `t` where it is. */
  lemma TaskStays(f: Full, t: nat, step: Step, f': Full)
    requires CanStep(f, step) && f' == After(f, step) && t < |f.base.tasks| && !step.RestartService?
    requires f.base.tasks[t].Pushing? ==> step != Inner(Push(t))
    requires f.base.tasks[t].Pushing? || f.base.tasks[t].Saving? || f.base.tasks[t].Done?
    ensures t < |f'.base.tasks|
    ensures f'.base.tasks[t] == if step == Inner(Save(t)) then Done else f.base.tasks[t]
  {
  }

  lemma ReservingFiles(f: Full, t: nat, step: Step, f': Full, pair: Pair, id: nat)
    requires IdsInv(f.base) && CanStep(f, step) && f' == After(f, step) && LeavesReserve(step, pair, id)
    requires Reserving(f, t, pair, id)
    ensures id in f'.made ==> id in f'.temps && f'.temps[id] == []
    ensures step == Inner(Push(t)) ==> id in f'.temps && f'.temps[id] == []
  {
    match step
    case MakeFile(u) => assert u != t ==> f.base.tasks[u].entry.id != id;
    case ShipFile(j) => assert About(f.commits[j], f.commits[j].id);
    case RemoveFile(j) => assert About(f.commits[j], f.commits[j].id);
    case _ =>
  }

  lemma PushOpens(f: Full, t: nat, f': Full, pair: Pair, id: nat)
    requires Reserving(f, t, pair, id) && CanStep(f, Inner(Push(t))) && f' == After(f, Inner(Push(t)))
    ensures IsOpen(f'.base.entries, pair, id) && t < |f'.base.tasks| && f'.base.tasks[t] == Saving
  {
    assert f.base.tasks[t].entry in f'.base.entries;
  }

  lemma ReservingStep(f: Full, t: nat, step: Step, f': Full, pair: Pair, id: nat)
    requires OrderlyInv(f.base) && OrderlyNext(f, step) && f' == After(f, step) && LeavesReserve(step, pair, id)
    requires Reserving(f, t, pair, id)
    ensures Reserving(f', t, pair, id) || Pushed(f', t, pair, id)
  {
    ReservingFiles(f, t, step, f', pair, id);
    NoCommitUnderStep(f, step, f', pair, id);
    if step == Inner(Push(t)) {
      PushOpens(f, t, f', pair, id);
    } else {
      TaskStays(f, t, step, f');
    }
  }

  lemma PushedStep(f: Full, t: nat, step: Step, f': Full, pair: Pair, id: nat)
    requires OrderlyInv(f.base) && OrderlyNext(f, step) && f' == After(f, step) && LeavesReserve(step, pair, id)
    requires Pushed(f, t, pair, id)
    ensures Pushed(f', t, pair, id)
  {
    TaskStays(f, t, step, f');
    NoCommitUnderStep(f, step, f', pair, id);
    PushedFiles(f, step, f', pair, id);
    PushedEntry(f, step, f', pair, id);
  }

  lemma PushedFiles(f: Full, step: Step, f': Full, pair: Pair, id: nat)
    requires IdsInv(f.base) && CanStep(f, step) && f' == After(f, step) && LeavesReserve(step, pair, id)
    requires IsOpen(f.base.entries, pair, id) && id in f.temps && f.temps[id] == []
    requires forall k | 0 <= k < |f.commits| :: !About(f.commits[k], id)
    ensures id in f'.temps && f'.temps[id] == []
  {
    match step
    case MakeFile(u) =>
      var e :| e in f.base.entries && e.id == id && !e.committed && PairOf(e) == pair;
      NewFileElsewhere(f, u, pair, id);
    case RemoveFile(j) => assert About(f.commits[j], f.commits[j].id);
    case _ =>
  }

  lemma PushedEntry(f: Full, step: Step, f': Full, pair: Pair, id: nat)
    requires OrderlyInv(f.base) && OrderlyNext(f, step) && f' == After(f, step) && LeavesReserve(step, pair, id)
    requires IsOpen(f.base.entries, pair, id) && forall k | 0 <= k < |f.commits| :: !About(f.commits[k], id)
    ensures IsOpen(f'.base.entries, pair, id)
    ensures IsOpen(f.base.disk, pair, id) || (step.Inner? && step.a.Save?) ==> IsOpen(f'.base.disk, pair, id)
  {
    assert step.MarkEntry? ==> About(f.commits[step.k], f.commits[step.k].id);
    BaseStep(f, step);
    var a := OnlyAct(ActOf(f, step));
    if a.Some? {
      OpenInList(f.base, a.value, f'.base, pair, id);
    }
  }

  lemma {:induction false} ReservingRun(before: seq<Step>, opening: seq<Step>, t: nat, pair: Pair, id: nat)
    requires OrderlySteps(before + opening) && Run(before).Some? && Reserving(Run(before).value, t, pair, id)
    requires forall step | step in opening :: LeavesReserve(step, pair, id)
    ensures Reserving(Run(before + opening).value, t, pair, id) || Pushed(Run(before + opening).value, t, pair, id)
  {
    hide Run, Project, Orderly, Reserving, Pushed, After;
    if opening == [] {
      assert before + opening == before;
    } else {
      var n := |opening| - 1;
      var steps := before + opening[..n];
      assert before + opening == steps + [opening[n]];
      OrderlyLast(steps, opening[n]);
      ReservingRun(before, opening[..n], t, pair, id);
      if Reserving(Run(steps).value, t, pair, id) {
        ReservingStep(Run(steps).value, t, opening[n], Run(before + opening).value, pair, id);
      } else {
        PushedStep(Run(steps).value, t, opening[n], Run(before + opening).value, pair, id);
      }
    }
  }

  // ---- End to end ----

  /** Reserve request `t` takes the next id and runs amid others until it has answered. */
  ghost predicate ReservesAmid(r0: seq<Step>, t: nat, opening: seq<Step>, r2: seq<Step>, pair: Pair, now: int,
                               id: nat)
  {
    && Run(r0).Some? && t < |Run(r0).value.base.tasks|
    && Run(r0).value.base.tasks[t] == Allocating(pair, false, now) && id == Run(r0).value.base.nextId
    && r2 == r0 + [Inner(Allocate(t))] + opening
    && (forall step | step in opening :: LeavesReserve(step, pair, id))
    && Run(r2).Some? && t < |Run(r2).value.base.tasks| && Run(r2).value.base.tasks[t].Done?
  }

  /** Chunks that cover the archive are uploaded, in any order and amid anything else. */
  ghost predicate UploadsAmid(r2: seq<Step>, during: seq<Step>, r3: seq<Step>, pair: Pair, id: nat, archive: Bytes) {
    && r3 == r2 + during && (forall step | step in during :: LeavesOpen(step, pair, id))
    && AllSlices(ChunksOf(during, id), archive)
    && forall p: nat | p < |archive| :: Touched(ChunksOf(during, id), p)
  }

  /** A commit runs amid others until it has marked the entry; the next save puts that into the file. */
  ghost predicate CommitsAmid(r3: seq<Step>, size: int, mid: seq<Step>, u: nat, r6: seq<Step>, pair: Pair, id: nat) {
    var r5 := r3 + [BeginCommit(id, size)] + mid;
    && Run(r3).Some? && Run(r5).Some? && r6 == r5 + [Inner(Save(u))]
    && (forall step | step in mid :: LeavesCommit(step, pair, id))
    && |Run(r3).value.commits| < |Run(r5).value.commits|
    && Run(r5).value.commits[|Run(r3).value.commits|].Over?
  }

  lemma ReservedAmid(r0: seq<Step>, t: nat, opening: seq<Step>, r2: seq<Step>, pair: Pair, now: int, id: nat)
    requires ReservesAmid(r0, t, opening, r2, pair, now, id) && OrderlySteps(r2)
    ensures Run(r2).Some? && Uploading(Run(r2).value, pair, id) && Run(r2).value.temps[id] == []
  {
    hide Project, Orderly;
    var r1 := r0 + [Inner(Allocate(t))];
    OrderlyPrefix(r1, opening);
    OrderlyLast(r0, Inner(Allocate(t)));
    FilesReachable(r0);
    TakesId(Run(r0).value, t, pair, now);
    ReservingRun(r1, opening, t, pair, id);
  }

  lemma UploadedAmid(r2: seq<Step>, during: seq<Step>, r3: seq<Step>, pair: Pair, id: nat, archive: Bytes)
    requires UploadsAmid(r2, during, r3, pair, id, archive) && OrderlySteps(r3)
    requires Run(r2).Some? && Uploading(Run(r2).value, pair, id) && Run(r2).value.temps[id] == []
    ensures Run(r3).Some? && Uploading(Run(r3).value, pair, id) && Run(r3).value.temps[id] == archive
  {
    hide Project, Orderly;
    UploadingRun(r2, during, pair, id);
    AssembleIsArchive(ChunksOf(during, id), archive);
  }

  lemma CommittedAmid(r3: seq<Step>, size: int, mid: seq<Step>, u: nat, r6: seq<Step>, pair: Pair, id: nat,
                      archive: Bytes)
    requires CommitsAmid(r3, size, mid, u, r6, pair, id) && OrderlySteps(r6)
    requires Uploading(Run(r3).value, pair, id) && Run(r3).value.temps[id] == archive
    ensures Run(r6).Some? && Kept(Run(r6).value, pair, id, archive)
  {
    hide Project, Orderly;
    var r4, k := r3 + [BeginCommit(id, size)], |Run(r3).value.commits|;
    OrderlyLast(r4 + mid, Inner(Save(u)));
    OrderlyPrefix(r4, mid);
    OrderlyLast(r3, BeginCommit(id, size));
    BeginsCommit(Run(r3).value, size, pair, id);
    CommittingRun(r4, mid, k, pair, id, archive);
    SaveKeeps(Run(r4 + mid).value, u, Run(r6).value, pair, id, archive);
  }

  lemma CommitExtends(r3: seq<Step>, size: int, mid: seq<Step>, u: nat, r6: seq<Step>, pair: Pair, id: nat)
    requires CommitsAmid(r3, size, mid, u, r6, pair, id)
    ensures r3 + ([BeginCommit(id, size)] + mid + [Inner(Save(u))]) == r6
  {
  }

  lemma UploadExtends(r2: seq<Step>, during: seq<Step>, r3: seq<Step>, pair: Pair, id: nat, archive: Bytes)
    requires UploadsAmid(r2, during, r3, pair, id, archive)
    ensures r2 + during == r3
  {
  }

  /**
   v1 under concurrency.  Any number of requests of any kind are in flight, split where they
   wait for a lock, the disk or S3, and all clients follow the rule.  One of them reserves a
   pair, uploads chunks that together cover an archive, and commits.  Others may do anything
   in between but finalize this reservation, commit it, or upload to it once its commit has
   begun; the service may restart while it is open and after the commit is saved.  Until the
   pair is reserved again, both lookups of the key then answer the id of the reservation, the
   index names it as soon as no binding of the pair is pending, and its download is the
   archive.
   */
  lemma ArchiveIsRestoredAmid(r0: seq<Step>, t: nat, opening: seq<Step>, r2: seq<Step>, during: seq<Step>,
                              r3: seq<Step>, size: int, mid: seq<Step>, u: nat, r6: seq<Step>, after: seq<Step>,
                              pair: Pair, now: int, id: nat, archive: Bytes, otherKeys: seq<string>)
    requires OrderlySteps(r6 + after)
    requires ReservesAmid(r0, t, opening, r2, pair, now, id)
    requires UploadsAmid(r2, during, r3, pair, id, archive)
    requires CommitsAmid(r3, size, mid, u, r6, pair, id)
    requires forall step | step in after :: LeavesMarked(step, pair)
    ensures Run(r6 + after).Some? && ServedFull(Run(r6 + after).value, pair, id, archive, otherKeys)
  {
    hide *;
    OrderlyPrefix(r6, after);
    var commit := [BeginCommit(id, size)] + mid + [Inner(Save(u))];
    CommitExtends(r3, size, mid, u, r6, pair, id);
    OrderlyPrefix(r3, commit);
    UploadExtends(r2, during, r3, pair, id, archive);
    OrderlyPrefix(r2, during);
    ReservedAmid(r0, t, opening, r2, pair, now, id);
    UploadedAmid(r2, during, r3, pair, id, archive);
    CommittedAmid(r3, size, mid, u, r6, pair, id, archive);
    KeptRun(r6, after, pair, id, archive);
    OrderlyBase(r6 + after);
    KeptIsServed(Run(r6 + after).value, pair, id, archive, otherKeys);
  }

  lemma KeptIsServed(f: Full, pair: Pair, id: nat, archive: Bytes, otherKeys: seq<string>)
    requires OrderlyInv(f.base) && Kept(f, pair, id, archive)
    ensures ServedFull(f, pair, id, archive, otherKeys)
  {
    MarkedIsServed(f, pair, id, archive, otherKeys);
  }

  // ---- Such runs exist ----

  lemma RunAppend(steps: seq<Step>, f: Full, step: Step)
    requires Run(steps) == Some(f) && CanStep(f, step)
    ensures Run(steps + [step]) == Some(After(f, step))
    ensures Project(steps + [step]) == Project(steps) + ActOf(f, step)
  {
    var longer := steps + [step];
    assert longer[..|longer| - 1] == steps && longer[|longer| - 1] == step;
  }

  lemma StepsAppend(steps: seq<Step>, f: Full, step: Step, f': Full)
    requires OrderlySteps(steps) && Run(steps) == Some(f) && OrderlyNext(f, step) && After(f, step) == f'
    ensures OrderlySteps(steps + [step]) && Run(steps + [step]) == Some(f')
  {
    hide Run, Project, Orderly, After, Exec;
    RunAppend(steps, f, step);
    BaseStep(f, step);
    OrderlyBase(steps);
    var acts := ActOf(f, step);
    if acts == [] {
      assert Project(steps) + acts == Project(steps);
    } else {
      assert acts == [acts[0]];
      OrderlyAppend(true, true, Project(steps), f.base, acts[0], f'.base);
    }
  }

  lemma StartOrderly()
    ensures OrderlySteps([]) && Run([]) == Some(Start())
  {
  }

  function Reserved(pair: Pair, now: int): Entry { NewEntry(1, pair, None, now) }

  function Answered(pair: Pair, now: int): Full {
    var e := Reserved(pair, now);
    Full(State([e], map[], 2, [e], [Done]), map[1 := []], map[], {1}, [])
  }

  lemma AllocatesAlone(pair: Pair, now: int) returns (r0: seq<Step>, f0: Full, f1: Full)
    ensures f0 == Full(State([], map[], 1, [], [Allocating(pair, false, now)]), map[], map[], {}, [])
    ensures f1 == Full(State([], map[], 2, [], [Pushing(Reserved(pair, now))]), map[], map[], {}, [])
    ensures Run(r0) == Some(f0) && Run(r0 + [Inner(Allocate(0))]) == Some(f1) && OrderlySteps(r0 + [Inner(Allocate(0))])
  {
    hide Run, Project, Orderly, OrderlySteps;
    StartOrderly();
    f0 := Full(State([], map[], 1, [], [Allocating(pair, false, now)]), map[], map[], {}, []);
    f1 := Full(State([], map[], 2, [], [Pushing(Reserved(pair, now))]), map[], map[], {}, []);
    r0 := [] + [Inner(Reserve(pair, false, now))];
    StepsAppend([], Start(), Inner(Reserve(pair, false, now)), f0);
    StepsAppend(r0, f0, Inner(Allocate(0)), f1);
  }

  lemma OpensAlone(r1: seq<Step>, f1: Full, pair: Pair, now: int) returns (opening: seq<Step>)
    requires f1 == Full(State([], map[], 2, [], [Pushing(Reserved(pair, now))]), map[], map[], {}, [])
    requires Run(r1) == Some(f1) && OrderlySteps(r1)
    ensures Run(r1 + opening) == Some(Answered(pair, now)) && OrderlySteps(r1 + opening)
    ensures forall step | step in opening :: LeavesReserve(step, pair, 1)
  {
    hide Run, Project, Orderly, OrderlySteps;
    var e := Reserved(pair, now);
    var f2 := Full(State([], map[], 2, [], [Pushing(e)]), map[1 := []], map[], {1}, []);
    var f3 := Full(State([e], map[], 2, [], [Saving]), map[1 := []], map[], {1}, []);
    StepsAppend(r1, f1, MakeFile(0), f2);
    StepsAppend(r1 + [MakeFile(0)], f2, Inner(Push(0)), f3);
    StepsAppend(r1 + [MakeFile(0)] + [Inner(Push(0))], f3, Inner(Save(0)), Answered(pair, now));
    opening := [MakeFile(0), Inner(Push(0)), Inner(Save(0))];
    assert r1 + opening == r1 + [MakeFile(0)] + [Inner(Push(0))] + [Inner(Save(0))];
  }

  lemma ReservesAlone(pair: Pair, now: int) returns (r0: seq<Step>, opening: seq<Step>)
    ensures var r2 := r0 + [Inner(Allocate(0))] + opening;
      ReservesAmid(r0, 0, opening, r2, pair, now, 1) && OrderlySteps(r2) && Run(r2) == Some(Answered(pair, now))
  {
    hide Run, Project, Orderly, OrderlySteps;
    var f0, f1;
    r0, f0, f1 := AllocatesAlone(pair, now);
    opening := OpensAlone(r0 + [Inner(Allocate(0))], f1, pair, now);
  }

  lemma OneChunk(archive: Bytes) returns (step: Step)
    ensures step.UploadChunk? && ChunksOf([step], 1) == [Chunk(0, archive)]
    ensures AllSlices([Chunk(0, archive)], archive) && forall p: nat | p < |archive| :: Touched([Chunk(0, archive)], p)
    ensures forall pair :: LeavesOpen(step, pair, 1)
  {
    step := UploadChunk(1, ContentRange(0, 0), archive);
    RangeRoundTrip(0, 0);
    assert [step][..0] == [];
    assert ChunksOf([step], 1) == [] + ChunkOf(step, 1);
    var chunks := [Chunk(0, archive)];
    assert archive == archive[0..0 + |archive|];
    forall p: nat | p < |archive|
      ensures Touched(chunks, p)
    {
      assert chunks[0] in chunks;
    }
  }

  /**
   The theorem is about something: a client alone saves any archive under any pair, and the
   run is one of those it speaks of.
   */
  lemma ArchiveIsSavedAlone(pair: Pair, now: int, size: int, archive: Bytes)
    returns (r0: seq<Step>, opening: seq<Step>, during: seq<Step>, mid: seq<Step>, r2: seq<Step>, r6: seq<Step>)
    ensures OrderlySteps(r6) && ReservesAmid(r0, 0, opening, r2, pair, now, 1)
    ensures UploadsAmid(r2, during, r2 + during, pair, 1, archive)
    ensures CommitsAmid(r2 + during, size, mid, 1, r6, pair, 1)
  {
    r0, opening := ReservesAlone(pair, now);
    r2 := r0 + [Inner(Allocate(0))] + opening;
    var chunk := OneChunk(archive);
    during := [chunk];
    var f5 := Answered(pair, now).(temps := map[1 := archive]);
    UploadsChunk(Answered(pair, now), chunk, archive, f5);
    StepsAppend(r2, Answered(pair, now), chunk, f5);
    mid, r6 := CommitsAlone(r2 + during, pair, now, size, archive);
  }

  lemma UploadsChunk(f: Full, step: Step, archive: Bytes, f': Full)
    requires f.temps == map[1 := []] && step.UploadChunk? && ChunksOf([step], 1) == [Chunk(0, archive)]
    requires f' == f.(temps := map[1 := archive])
    ensures CanStep(f, step) && After(f, step) == f'
  {
    assert [step][..0] == [] && ChunksOf([], 1) + ChunkOf(step, 1) == ChunkOf(step, 1);
    assert ChunkOf(step, 1) == [Chunk(0, archive)];
    assert [] + archive + [] == archive;
    assert f.temps[1 := archive] == map[1 := archive];
  }

  lemma CommitsAlone(r3: seq<Step>, pair: Pair, now: int, size: int, archive: Bytes)
    returns (mid: seq<Step>, r6: seq<Step>)
    requires OrderlySteps(r3) && Run(r3) == Some(Answered(pair, now).(temps := map[1 := archive]))
    ensures CommitsAmid(r3, size, mid, 1, r6, pair, 1) && OrderlySteps(r6)
  {
    hide Run, Project, Orderly, OrderlySteps;
    var e := Reserved(pair, now);
    var s5, r4 := State([e], map[], 2, [e], [Done]), r3 + [BeginCommit(1, size)];
    var f5 := Full(s5, map[1 := archive], map[], {1}, []);
    var f6 := Full(s5, map[1 := archive], map[], {1}, [Checked(1, size)]);
    var f7 := Full(s5, map[1 := archive], map[1 := archive], {1}, [Shipped(1, size)]);
    var f8 := Full(s5, map[], map[1 := archive], {1}, [Cleared(1, size)]);
    StepsAppend(r3, f5, BeginCommit(1, size), f6);
    StepsAppend(r4, f6, ShipFile(0), f7);
    assert map[1 := archive] - {1} == map[];
    StepsAppend(r4 + [ShipFile(0)], f7, RemoveFile(0), f8);
    var r := r4 + [ShipFile(0)] + [RemoveFile(0)];
    var more := MarksAlone(r, pair, now, size, archive);
    mid := [ShipFile(0), RemoveFile(0)] + more;
    assert r + more == r4 + mid;
    r6 := r + more + [Inner(Save(1))];
  }

  lemma MarksAlone(r: seq<Step>, pair: Pair, now: int, size: int, archive: Bytes) returns (more: seq<Step>)
    requires var s5 := State([Reserved(pair, now)], map[], 2, [Reserved(pair, now)], [Done]);
      OrderlySteps(r) && Run(r) == Some(Full(s5, map[], map[1 := archive], {1}, [Cleared(1, size)]))
    ensures more == [MarkEntry(0), Inner(Bind(1))]
    ensures Run(r + more).Some? && Run(r + more).value.commits == [Over] && OrderlySteps(r + more + [Inner(Save(1))])
  {
    hide Run, Project, Orderly, OrderlySteps;
    var e, blobs := Reserved(pair, now), map[1 := archive];
    var c := MarkCommitted(e, size, Some(S3Key(1)));
    var f8 := Full(State([e], map[], 2, [e], [Done]), map[], blobs, {1}, [Cleared(1, size)]);
    var f9 := Full(State([c], map[], 2, [e], [Done, Binding(pair, 1)]), map[], blobs, {1}, [Over]);
    var f10 := Full(State([c], map[pair := 1], 2, [e], [Done, Saving]), map[], blobs, {1}, [Over]);
    var f11 := Full(State([c], map[pair := 1], 2, [c], [Done, Done]), map[], blobs, {1}, [Over]);
    assert FindId([e], 1) == Some(0) by {
      assert [e][..0] == [];
    }
    assert [e][0 := c] == [c];
    StepsAppend(r, f8, MarkEntry(0), f9);
    StepsAppend(r + [MarkEntry(0)], f9, Inner(Bind(1)), f10);
    more := [MarkEntry(0), Inner(Bind(1))];
    assert r + more == r + [MarkEntry(0)] + [Inner(Bind(1))];
    StepsAppend(r + more, f10, Inner(Save(1)), f11);
  }
}
