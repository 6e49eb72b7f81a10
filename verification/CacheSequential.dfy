/** Each request run alone through its interleaved steps does what the sequential handler does. */
module CacheSequential {
  import opened Wrappers
  import opened CacheStore
  import I = CacheInterleaved

  ghost predicate SameShared(s: I.State, st: Store) {
    s.entries == st.entries && s.index == st.index && s.nextId == st.nextId && s.disk == st.disk
  }

  /** The steps of a reservation by request `t`: the old entry goes first, if the index knows one. */
  function AllocatingSteps(s: I.State, pair: Pair, v2: bool, now: int): seq<I.Action> {
    var t := |s.tasks|;
    [I.Reserve(pair, v2, now)] + (if pair in s.index then [I.Retain(t)] else []) + [I.Allocate(t)] + [I.Push(t)]
      + [I.Save(t)]
  }

  /** Up to the point where the id is taken. */
  lemma EvictAlone(s: I.State, st: Store, pair: Pair, v2: bool, now: int) returns (s': I.State)
    requires SameShared(s, st) && !I.IndexLocked(s)
    ensures I.Exec(true, s, [I.Reserve(pair, v2, now)] + (if pair in s.index then [I.Retain(|s.tasks|)] else [])) ==
      Some(s')
    ensures SameShared(s', Evict(st, pair).(disk := st.disk)) && s'.tasks == s.tasks + [I.Allocating(pair, v2, now)]
  {
    s' := I.Apply(true, s, I.Reserve(pair, v2, now));
    I.ExecAppend(true, s, [], s, I.Reserve(pair, v2, now), s');
    assert [] + [I.Reserve(pair, v2, now)] == [I.Reserve(pair, v2, now)];
    if pair in s.index {
      var s2 := I.Apply(true, s', I.Retain(|s.tasks|));
      I.ExecAppend(true, s, [I.Reserve(pair, v2, now)], s', I.Retain(|s.tasks|), s2);
      s' := s2;
    } else {
      assert [I.Reserve(pair, v2, now)] + [] == [I.Reserve(pair, v2, now)];
    }
  }

  /** Run without interference, the steps of a v1 reserve or v2 create end in the state both models agree on. */
  lemma AllocateAlone(s: I.State, st: Store, pair: Pair, v2: bool, now: int) returns (s': I.State)
    requires SameShared(s, st) && !I.IndexLocked(s)
    ensures I.Exec(true, s, AllocatingSteps(s, pair, v2, now)) == Some(s') && s'.tasks == s.tasks + [I.Done]
    ensures var s3Key := if v2 then Some(S3Key(st.nextId)) else None; var st1 := Evict(st, pair);
      && s'.entries == st1.entries + [NewEntry(st.nextId, pair, s3Key, now)] && s'.index == st1.index
      && s'.nextId == st.nextId + 1 && s'.disk == s'.entries
  {
    var t := |s.tasks|;
    var s1 := EvictAlone(s, st, pair, v2, now);
    var acts := [I.Reserve(pair, v2, now)] + (if pair in s.index then [I.Retain(t)] else []);
    var s2 := I.Apply(true, s1, I.Allocate(t));
    I.ExecAppend(true, s, acts, s1, I.Allocate(t), s2);
    var s3 := I.Apply(true, s2, I.Push(t));
    I.ExecAppend(true, s, acts + [I.Allocate(t)], s2, I.Push(t), s3);
    s' := I.Apply(true, s3, I.Save(t));
    I.ExecAppend(true, s, acts + [I.Allocate(t)] + [I.Push(t)], s3, I.Save(t), s');
  }

  lemma ReserveAlone(s: I.State, st: Store, pair: Pair, now: int) returns (s': I.State)
    requires SameShared(s, st) && !I.IndexLocked(s)
    ensures I.Exec(true, s, AllocatingSteps(s, pair, false, now)) == Some(s') && s'.tasks == s.tasks + [I.Done]
    ensures SameShared(s', Reserve(st, pair, now))
  {
    s' := AllocateAlone(s, st, pair, false, now);
  }

  lemma CreateAlone(s: I.State, st: Store, pair: Pair, now: int) returns (s': I.State)
    requires SameShared(s, st) && !I.IndexLocked(s)
    ensures I.Exec(true, s, AllocatingSteps(s, pair, true, now)) == Some(s') && s'.tasks == s.tasks + [I.Done]
    ensures SameShared(s', Create(st, pair, now))
  {
    s' := AllocateAlone(s, st, pair, true, now);
  }

  /** The steps of a request that marks an entry: itself, then, if it found one, binding and saving. */
  function MarkingSteps(s: I.State, a: I.Action, found: bool): seq<I.Action> {
    if found then [a] + [I.Bind(|s.tasks|)] + [I.Save(|s.tasks|)] else [a]
  }

  lemma MarkAlone(s: I.State, st: Store, a: I.Action, i: nat, size: int, s3Key: Option<string>) returns (s': I.State)
    requires SameShared(s, st) && !I.IndexLocked(s) && i < |s.entries|
    requires I.Enabled(false, s, a) && I.Apply(false, s, a) == I.Mark(s, i, size, s3Key)
    ensures I.Exec(false, s, MarkingSteps(s, a, true)) == Some(s') && s'.tasks == s.tasks + [I.Done]
    ensures SameShared(s', MarkAndBind(st, i, size, s3Key))
  {
    var t, s1 := |s.tasks|, I.Mark(s, i, size, s3Key);
    forall k | 0 <= k < |s1.tasks|
      ensures !s1.tasks[k].Evicting?
    {
      assert k < t ==> s1.tasks[k] == s.tasks[k];
    }
    I.ExecAppend(false, s, [], s, a, s1);
    assert [] + [a] == [a];
    var s2 := I.Apply(false, s1, I.Bind(t));
    I.ExecAppend(false, s, [a], s1, I.Bind(t), s2);
    s' := I.Apply(false, s2, I.Save(t));
    I.ExecAppend(false, s, [a] + [I.Bind(t)], s2, I.Save(t), s');
  }

  /** The same for a commit whose temporary file is there. */
  lemma CommitAlone(s: I.State, st: Store, id: nat, size: int) returns (s': I.State)
    requires SameShared(s, st) && !I.IndexLocked(s) && id in st.temps
    ensures I.Exec(false, s, MarkingSteps(s, I.Commit(id, size), CommitStatus(st, id).Ok?)) == Some(s')
    ensures SameShared(s', Commit(st, id, size))
  {
    var i := FindId(s.entries, id);
    if i.Some? {
      s' := MarkAlone(s, Ship(st, id), I.Commit(id, size), i.value, size, Some(S3Key(id)));
    } else {
      s' := s;
      I.ExecAppend(false, s, [], s, I.Commit(id, size), s);
      assert [] + [I.Commit(id, size)] == [I.Commit(id, size)];
    }
  }

  /** The same for a finalize. */
  lemma FinalizeAlone(s: I.State, st: Store, pair: Pair, size: int) returns (s': I.State)
    requires SameShared(s, st) && !I.IndexLocked(s)
    ensures I.Exec(false, s, MarkingSteps(s, I.Finalize(pair, size), FindOpen(st.entries, pair).Some?)) == Some(s')
    ensures SameShared(s', Finalize(st, pair, size))
  {
    var i := FindOpen(s.entries, pair);
    if i.Some? {
      s' := MarkAlone(s, st, I.Finalize(pair, size), i.value, size, s.entries[i.value].s3Key);
    } else {
      s' := s;
      I.ExecAppend(false, s, [], s, I.Finalize(pair, size), s);
      assert [] + [I.Finalize(pair, size)] == [I.Finalize(pair, size)];
    }
  }

  /** A crash is the sequential restart, whatever else was under way. */
  lemma CrashIsRestart(s: I.State, st: Store)
    requires SameShared(s, st)
    ensures SameShared(I.Apply(false, s, I.Crash), Restart(st)) && I.Apply(false, s, I.Crash).tasks == []
  {
  }
}
