/** Each v1 request run alone through its steps with files does what the sequential handler does, S3 included. */
module CacheFilesAlone {
  import opened Wrappers
  import opened CacheChunks
  import opened CacheStore
  import opened CacheFiles
  import opened CacheSequential
  import I = CacheInterleaved

  ghost predicate SameWithFiles(f: Full, st: Store) {
    SameShared(f.base, st) && f.temps == st.temps && f.blobs == st.blobs
  }

  /** Where steps lead from this state, or `None` if some step cannot happen. */
  ghost function From(f: Full, steps: seq<Step>): Option<Full> {
    if steps == [] then Some(f)
    else
      var before := From(f, steps[..|steps| - 1]);
      var step := steps[|steps| - 1];
      if before.Some? && CanStep(before.value, step) then Some(After(before.value, step)) else None
  }

  lemma FromNext(f: Full, steps: seq<Step>, f1: Full, step: Step)
    requires From(f, steps) == Some(f1) && CanStep(f1, step)
    ensures From(f, steps + [step]) == Some(After(f1, step))
  {
    assert (steps + [step])[..|steps|] == steps;
  }

  /** One upload. */
  lemma UploadWithFile(f: Full, st: Store, id: nat, range: string, body: Bytes)
    requires SameWithFiles(f, st)
    ensures SameWithFiles(After(f, UploadChunk(id, range, body)), Upload(st, id, range, body))
  {
  }

  /** A restart, whatever else was under way. */
  lemma RestartWithFiles(f: Full, st: Store)
    requires SameWithFiles(f, st)
    ensures SameWithFiles(After(f, RestartService), Restart(st))
  {
    CrashIsRestart(f.base, st);
  }

  /** Finding the file, shipping and removing it. */
  lemma ShipAlone(f: Full, st: Store, id: nat, size: int) returns (steps: seq<Step>, f': Full)
    requires SameWithFiles(f, st) && id in st.temps
    ensures var k := |f.commits|; steps == [] + [BeginCommit(id, size)] + [ShipFile(k)] + [RemoveFile(k)]
    ensures From(f, steps) == Some(f') && f'.base == f.base && SameWithFiles(f', Ship(st, id))
    ensures f'.commits == f.commits + [Cleared(id, size)]
  {
    var k := |f.commits|;
    var f1 := After(f, BeginCommit(id, size));
    FromNext(f, [], f, BeginCommit(id, size));
    var f2 := After(f1, ShipFile(k));
    FromNext(f, [] + [BeginCommit(id, size)], f1, ShipFile(k));
    f' := After(f2, RemoveFile(k));
    FromNext(f, [] + [BeginCommit(id, size)] + [ShipFile(k)], f2, RemoveFile(k));
    steps := [] + [BeginCommit(id, size)] + [ShipFile(k)] + [RemoveFile(k)];
  }

  function CommitSteps(f: Full, id: nat, size: int, there: bool, found: bool): seq<Step> {
    var k, t := |f.commits|, |f.base.tasks|;
    if !there then [BeginCommit(id, size)]
    else
      [BeginCommit(id, size), ShipFile(k), RemoveFile(k), MarkEntry(k)]
      + if found then [Inner(I.Bind(t)), Inner(I.Save(t))] else []
  }

  /** A whole commit: refused without a file; otherwise shipped and, if its entry is there, marked, bound and saved. */
  lemma CommitWithFile(f: Full, st: Store, id: nat, size: int) returns (steps: seq<Step>, f': Full)
    requires SameWithFiles(f, st) && !I.IndexLocked(f.base)
    ensures From(f, steps) == Some(f') && SameWithFiles(f', Commit(st, id, size))
    ensures steps == CommitSteps(f, id, size, id in st.temps, CommitStatus(st, id).Ok?)
  {
    if id !in st.temps {
      FromNext(f, [], f, BeginCommit(id, size));
      steps, f' := [BeginCommit(id, size)], f;
      assert [] + [BeginCommit(id, size)] == steps;
    } else {
      var shipped: Full;
      steps, shipped := ShipAlone(f, st, id, size);
      steps, f' := MarkAfterShip(f, steps, shipped, Ship(st, id), id, size);
    }
  }

  lemma MarkAfterShip(f: Full, steps: seq<Step>, f1: Full, st: Store, id: nat, size: int)
    returns (all: seq<Step>, f': Full)
    requires From(f, steps) == Some(f1) && SameWithFiles(f1, st) && !I.IndexLocked(f1.base)
    requires f1.commits != [] && f1.commits[|f1.commits| - 1] == Cleared(id, size)
    ensures var k, t, i := |f1.commits| - 1, |f1.base.tasks|, FindId(st.entries, id);
      && all == steps + [MarkEntry(k)] + (if i.Some? then [Inner(I.Bind(t))] + [Inner(I.Save(t))] else [])
      && From(f, all) == Some(f')
      && SameWithFiles(f', if i.None? then st else MarkAndBind(st, i.value, size, Some(S3Key(id))))
  {
    var k, t, i := |f1.commits| - 1, |f1.base.tasks|, FindId(st.entries, id);
    f' := After(f1, MarkEntry(k));
    FromNext(f, steps, f1, MarkEntry(k));
    all := steps + [MarkEntry(k)];
    if i.Some? {
      StillUnlocked(f1.base, i.value, size, Some(S3Key(id)));
      var f2 := After(f', Inner(I.Bind(t)));
      FromNext(f, all, f', Inner(I.Bind(t)));
      f' := After(f2, Inner(I.Save(t)));
      FromNext(f, all + [Inner(I.Bind(t))], f2, Inner(I.Save(t)));
      all := all + [Inner(I.Bind(t))] + [Inner(I.Save(t))];
    }
  }

  lemma StillUnlocked(s: I.State, i: nat, size: int, s3Key: Option<string>)
    requires !I.IndexLocked(s) && i < |s.entries|
    ensures !I.IndexLocked(I.Mark(s, i, size, s3Key))
  {
    var s' := I.Mark(s, i, size, s3Key);
    forall t | 0 <= t < |s'.tasks|
      ensures !s'.tasks[t].Evicting?
    {
      assert t < |s.tasks| ==> s'.tasks[t] == s.tasks[t];
    }
  }

  /** The old entry goes first, if the index knows one. */
  lemma EvictWithFiles(f: Full, st: Store, pair: Pair, now: int) returns (steps: seq<Step>, f': Full)
    requires SameWithFiles(f, st) && !I.IndexLocked(f.base)
    ensures steps == [] + [Inner(I.Reserve(pair, false, now))]
      + (if pair in st.index then [Inner(I.Retain(|f.base.tasks|))] else [])
    ensures From(f, steps) == Some(f') && f' == f.(base := f'.base)
    ensures SameShared(f'.base, Evict(st, pair).(disk := st.disk))
    ensures f'.base.tasks == f.base.tasks + [I.Allocating(pair, false, now)]
  {
    var t := |f.base.tasks|;
    var f1 := After(f, Inner(I.Reserve(pair, false, now)));
    FromNext(f, [], f, Inner(I.Reserve(pair, false, now)));
    steps, f' := [] + [Inner(I.Reserve(pair, false, now))], f1;
    if pair in st.index {
      f' := After(f1, Inner(I.Retain(t)));
      FromNext(f, steps, f1, Inner(I.Retain(t)));
      steps := steps + [Inner(I.Retain(t))];
    } else {
      assert steps + [] == steps;
    }
  }

  function ReserveSteps(f: Full, pair: Pair, now: int, bound: bool): seq<Step> {
    var t := |f.base.tasks|;
    [] + [Inner(I.Reserve(pair, false, now))] + (if bound then [Inner(I.Retain(t))] else [])
    + [Inner(I.Allocate(t))] + [MakeFile(t)] + [Inner(I.Push(t))] + [Inner(I.Save(t))]
  }

  /** A whole v1 reservation: the file is made between taking the id and adding the entry. */
  lemma ReserveWithFile(f: Full, st: Store, pair: Pair, now: int) returns (steps: seq<Step>, f': Full)
    requires SameWithFiles(f, st) && !I.IndexLocked(f.base) && FilesInv(f)
    ensures steps == ReserveSteps(f, pair, now, pair in st.index)
    ensures From(f, steps) == Some(f') && SameWithFiles(f', Reserve(st, pair, now))
  {
    var f1: Full;
    steps, f1 := EvictWithFiles(f, st, pair, now);
    steps, f' := AllocateWithFile(f, steps, f1, Evict(st, pair).(disk := st.disk), |f.base.tasks|, pair, now);
  }

  lemma AllocateWithFile(f: Full, steps: seq<Step>, f1: Full, st: Store, t: nat, pair: Pair, now: int)
    returns (all: seq<Step>, f': Full)
    requires From(f, steps) == Some(f1) && SameWithFiles(f1, st) && f1.base.nextId !in f1.made
    requires t < |f1.base.tasks| && f1.base.tasks[t] == I.Allocating(pair, false, now)
    ensures all == steps + [Inner(I.Allocate(t))] + [MakeFile(t)] + [Inner(I.Push(t))] + [Inner(I.Save(t))]
    ensures From(f, all) == Some(f')
    ensures SameWithFiles(f', Saved(st.(nextId := st.nextId + 1, temps := st.temps[st.nextId := []],
                                        entries := st.entries + [NewEntry(st.nextId, pair, None, now)])))
  {
    var f2 := After(f1, Inner(I.Allocate(t)));
    FromNext(f, steps, f1, Inner(I.Allocate(t)));
    all := steps + [Inner(I.Allocate(t))];
    var f3 := After(f2, MakeFile(t));
    FromNext(f, all, f2, MakeFile(t));
    all := all + [MakeFile(t)];
    var f4 := After(f3, Inner(I.Push(t)));
    FromNext(f, all, f3, Inner(I.Push(t)));
    all := all + [Inner(I.Push(t))];
    f' := After(f4, Inner(I.Save(t)));
    FromNext(f, all, f4, Inner(I.Save(t)));
    all := all + [Inner(I.Save(t))];
  }
}
