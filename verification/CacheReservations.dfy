/** Which reservation an entry comes from, and what that means for the newest match. */
module CacheReservations {
  import opened Wrappers
  import opened CacheLookup
  import opened CacheStore
  import opened CacheTheorems
  import opened Text
  import I = CacheInterleaved

  /**
   Request `i` of a run of the service reserves an entry for this key and version at this
   time, through either API, and is answered this id.
   */
  ghost predicate ReservedBy(reqs: seq<Request>, i: nat, id: nat, key: string, version: string, now: int) {
    && i < |reqs|
    && (reqs[i] == ReserveReq((key, version), now) || reqs[i] == CreateReq((key, version), now))
    && id == Serve(Empty(), reqs[..i]).nextId
  }

  predicate SameOrigin(e: Entry, f: Entry) {
    e.id == f.id && e.key == f.key && e.version == f.version && e.createdAt == f.createdAt
  }

  /** The request reserves exactly this entry. */
  predicate Begins(st: Store, req: Request, e: Entry) {
    (req == ReserveReq((e.key, e.version), e.createdAt) || req == CreateReq((e.key, e.version), e.createdAt))
      && e.id == st.nextId
  }

  lemma EvictedWereThere(st: Store, pair: Pair, e: Entry)
    requires e in Evict(st, pair).entries
    ensures e in st.entries
  {
    if pair in st.index {
      WithoutMembers(st.entries, st.index[pair], e);
    }
  }

  lemma MarkedWereThere(entries: seq<Entry>, i: nat, size: int, s3Key: Option<string>, e: Entry)
    requires i < |entries| && e in entries[i := MarkCommitted(entries[i], size, s3Key)]
    ensures exists f :: f in entries && SameOrigin(e, f)
  {
    var marked := entries[i := MarkCommitted(entries[i], size, s3Key)];
    var k :| 0 <= k < |marked| && marked[k] == e;
    assert entries[k] in entries && SameOrigin(e, entries[k]);
  }

  /** Whatever the request, an entry after it was there before, or is the one it reserves. */
  lemma StepOrigin(st: Store, req: Request, e: Entry)
    requires Inv(st) && e in Handle(st, req).entries
    ensures (exists f :: f in st.entries && SameOrigin(e, f)) || Begins(st, req, e)
  {
    match req
    case ReserveReq(pair, now) => AllocateOrigin(st, pair, now, None, e);
    case CreateReq(pair, now) => AllocateOrigin(st, pair, now, Some(S3Key(st.nextId)), e);
    case CommitReq(id, size) =>
      if id in st.temps && FindId(st.entries, id).Some? {
        MarkedWereThere(st.entries, FindId(st.entries, id).value, size, Some(S3Key(id)), e);
      } else {
        assert SameOrigin(e, e);
      }
    case FinalizeReq(pair, size) =>
      var i := FindOpen(st.entries, pair);
      if i.Some? {
        MarkedWereThere(st.entries, i.value, size, st.entries[i.value].s3Key, e);
      } else {
        assert SameOrigin(e, e);
      }
    case _ => assert SameOrigin(e, e);
  }

  lemma AllocateOrigin(st: Store, pair: Pair, now: int, s3Key: Option<string>, e: Entry)
    requires e in Evict(st, pair).entries + [NewEntry(st.nextId, pair, s3Key, now)]
    ensures (exists f :: f in st.entries && SameOrigin(e, f))
      || (e.id == st.nextId && (e.key, e.version) == pair && e.createdAt == now)
  {
    if e in Evict(st, pair).entries {
      EvictedWereThere(st, pair, e);
      assert SameOrigin(e, e);
    }
  }

  lemma EmptyInv()
    ensures Inv(Empty())
  {
  }

  lemma ReservedEarlier(reqs: seq<Request>, n: nat, i: nat, id: nat, key: string, version: string, now: int)
    requires n <= |reqs| && ReservedBy(reqs[..n], i, id, key, version, now)
    ensures ReservedBy(reqs, i, id, key, version, now)
  {
    assert reqs[..n][..i] == reqs[..i];
  }

  /** Every entry was reserved, with the key, version and time it carries. */
  lemma {:induction false} EveryEntryWasReserved(reqs: seq<Request>, e: Entry)
    requires e in Serve(Empty(), reqs).entries
    ensures exists i: nat :: ReservedBy(reqs, i, e.id, e.key, e.version, e.createdAt)
  {
    hide Handle;
    if reqs != [] {
      var n := |reqs| - 1;
      var st := Serve(Empty(), reqs[..n]);
      EmptyInv();
      ServeInv(Empty(), reqs[..n]);
      StepOrigin(st, reqs[n], e);
      if Begins(st, reqs[n], e) {
        assert ReservedBy(reqs, n, e.id, e.key, e.version, e.createdAt);
      } else {
        var f :| f in st.entries && SameOrigin(e, f);
        EveryEntryWasReserved(reqs[..n], f);
        var i: nat :| ReservedBy(reqs[..n], i, f.id, f.key, f.version, f.createdAt);
        ReservedEarlier(reqs, n, i, f.id, f.key, f.version, f.createdAt);
      }
    }
  }

  lemma {:induction false} CounterGrows(reqs: seq<Request>, i: nat, j: nat)
    requires i < j <= |reqs| && (reqs[i].ReserveReq? || reqs[i].CreateReq?)
    ensures Serve(Empty(), reqs[..i]).nextId < Serve(Empty(), reqs[..j]).nextId
  {
    hide Handle;
    var before, req := reqs[..j - 1], reqs[j - 1];
    EmptyInv();
    ServeInv(Empty(), before);
    NextIdStep(Serve(Empty(), before), req);
    assert reqs[..j][..j - 1] == before;
    if i < j - 1 {
      CounterGrows(reqs, i, j - 1);
    }
  }

  /** An id is handed out by one request only. */
  lemma IdTellsRequest(reqs: seq<Request>, i: nat, j: nat, id: nat, key: string, version: string, now: int,
                       key': string, version': string, now': int)
    requires ReservedBy(reqs, i, id, key, version, now) && ReservedBy(reqs, j, id, key', version', now')
    ensures i == j && key == key' && version == version' && now == now'
  {
    hide Serve;
    if i < j {
      CounterGrows(reqs, i, j);
    } else if j < i {
      CounterGrows(reqs, j, i);
    }
  }

  /** Ids come in the order of the requests. */
  lemma IdsInOrder(reqs: seq<Request>, i: nat, j: nat, id: nat, id': nat, key: string, version: string, now: int,
                   key': string, version': string, now': int)
    requires ReservedBy(reqs, i, id, key, version, now) && ReservedBy(reqs, j, id', key', version', now')
    ensures i < j <==> id < id'
  {
    hide Serve;
    if i < j {
      CounterGrows(reqs, i, j);
    } else if j < i {
      CounterGrows(reqs, j, i);
    }
  }

  /**
   Whatever else a run does, restarts included: the entry whose id a reservation was answered
   carries the key, the version and the time of that reservation as long as it is in the list.
   */
  lemma EntryKeepsItsReservation(reqs: seq<Request>, i: nat, id: nat, key: string, version: string, now: int,
                                 e: Entry)
    requires ReservedBy(reqs, i, id, key, version, now)
    requires e in Serve(Empty(), reqs).entries && e.id == id
    ensures e.key == key && e.version == version && e.createdAt == now
  {
    hide ReservedBy, Serve;
    EveryEntryWasReserved(reqs, e);
    var j: nat :| ReservedBy(reqs, j, e.id, e.key, e.version, e.createdAt);
    IdTellsRequest(reqs, i, j, id, key, version, now, e.key, e.version, e.createdAt);
  }

  /** Right after the request its entry is the last of the list, open and empty. */
  lemma ReservationAddsEntry(reqs: seq<Request>, i: nat, id: nat, key: string, version: string, now: int)
    requires ReservedBy(reqs, i, id, key, version, now)
    ensures var entries := Serve(Empty(), reqs[..i + 1]).entries;
      && entries != []
      && entries[|entries| - 1] == Entry(id, key, version, false, 0,
           if reqs[i].CreateReq? then Some("cache/" + Decimal(id)) else None, now)
  {
    EmptyInv();
    ServeInv(Empty(), reqs[..i]);
    assert reqs[..i + 1][..i] == reqs[..i];
    EvictSound(Serve(Empty(), reqs[..i]), (key, version));
  }

  // ---- The newest match, told by the requests ----

  /** Entry `n` comes from the latest reservation of a cached key with this prefix, the last of several at one time. */
  ghost predicate ReservedLatest(reqs: seq<Request>, entries: seq<Entry>, prefix: string, version: string, n: nat) {
    && n < |entries| && entries[n].committed
    && exists i: nat, key, now ::
         && ReservedBy(reqs, i, entries[n].id, key, version, now) && prefix <= key
         && forall e, j: nat, key', now' |
              e in entries && e.committed && ReservedBy(reqs, j, e.id, key', version, now') && prefix <= key' ::
              now' < now || (now' == now && j <= i)
  }

  /** A prefix match that a lookup prefers is the one reserved latest. */
  lemma PrefixHitIsReservedLatest(reqs: seq<Request>, keys: seq<string>, version: string, n: nat, j: nat)
    requires PrefixHit(Serve(Empty(), reqs).entries, keys, version, n, j)
    ensures ReservedLatest(reqs, Serve(Empty(), reqs).entries, keys[j], version, n)
  {
    hide ReservedBy, Serve;
    var entries := Serve(Empty(), reqs).entries;
    var hit := entries[n];
    EveryEntryWasReserved(reqs, hit);
    var i: nat :| ReservedBy(reqs, i, hit.id, hit.key, hit.version, hit.createdAt);
    forall e, k: nat, key, now |
      e in entries && e.committed && ReservedBy(reqs, k, e.id, key, version, now) && keys[j] <= key
      ensures now < hit.createdAt || (now == hit.createdAt && k <= i)
    {
      EntryKeepsItsReservation(reqs, k, e.id, key, version, now, e);
      IdsInOrder(reqs, i, k, hit.id, e.id, hit.key, hit.version, hit.createdAt, key, version, now);
      NotNewer(reqs, keys, version, n, j, e);
    }
  }

  lemma NotNewer(reqs: seq<Request>, keys: seq<string>, version: string, n: nat, j: nat, e: Entry)
    requires PrefixHit(Serve(Empty(), reqs).entries, keys, version, n, j)
    requires e in Serve(Empty(), reqs).entries && e.committed && keys[j] <= e.key && e.version == version
    ensures var hit := Serve(Empty(), reqs).entries[n];
      e.createdAt < hit.createdAt || (e.createdAt == hit.createdAt && e.id <= hit.id)
  {
    hide Serve;
    var entries := Serve(Empty(), reqs).entries;
    EmptyInv();
    ServeInv(Empty(), reqs);
    var k :| 0 <= k < |entries| && entries[k] == e;
    assert k < n ==> entries[k].id < entries[n].id;
  }

  /** No cached key of the version has this prefix. */
  ghost predicate NothingCached(entries: seq<Entry>, prefix: string, version: string) {
    forall e | e in entries && e.committed && e.version == version :: !(prefix <= e.key)
  }

  /** The answer for a prefix that is not itself a cached key: the latest reservation, or a miss if there is none. */
  ghost predicate LatestOrMiss(reqs: seq<Request>, prefix: string, version: string, r: Option<nat>) {
    var entries := Serve(Empty(), reqs).entries;
    match r
    case None => NothingCached(entries, prefix, version)
    case Some(n) => ReservedLatest(reqs, entries, prefix, version, n)
  }

  /**
   End to end, after any run: asked for a prefix that is no cached key, the v1 lookup answers
   what was reserved latest among the cached keys with that prefix; so does the v2 lookup with
   the prefix as its restore key and any key that is not cached.
   */
  lemma LatestReservationWins(reqs: seq<Request>, prefix: string, key: string, version: string)
    ensures var entries := Serve(Empty(), reqs).entries;
      && (NoExact(entries, prefix, version) ==>
            LatestOrMiss(reqs, prefix, version, LookupV1(entries, [prefix], version)))
      && (NoExact(entries, key, version) ==>
            LatestOrMiss(reqs, prefix, version, LookupV2(entries, key, [prefix], version)))
  {
    hide Serve, ReservedLatest, LookupV1, LookupV2, PrefixHit;
    var entries := Serve(Empty(), reqs).entries;
    assert [prefix][0] == prefix;
    if NoExact(entries, prefix, version) {
      var r := LookupV1(entries, [prefix], version);
      LookupIsItsSpecification(entries, [prefix], version, r);
      LatestOfHits(reqs, prefix, version, r);
    }
    if NoExact(entries, key, version) {
      var r := LookupV2(entries, key, [prefix], version);
      Lookup2IsItsSpecification(entries, key, [prefix], version, r);
      LatestOfHits(reqs, prefix, version, r);
    }
  }

  lemma LatestOfHits(reqs: seq<Request>, prefix: string, version: string, r: Option<nat>)
    requires r.None? ==> NoPrefix(Serve(Empty(), reqs).entries, prefix, version)
    requires r.Some? ==> exists j: nat :: PrefixHit(Serve(Empty(), reqs).entries, [prefix], version, r.value, j)
    ensures LatestOrMiss(reqs, prefix, version, r)
  {
    hide Serve, ReservedLatest;
    if r.Some? {
      var j: nat :| PrefixHit(Serve(Empty(), reqs).entries, [prefix], version, r.value, j);
      assert j == 0;
      PrefixHitIsReservedLatest(reqs, [prefix], version, r.value, 0);
    }
  }

  // ---- With requests interleaved ----

  /** Some request of the run reserves the entry's key and version at the time it carries. */
  ghost predicate WasReserved(acts: seq<I.Action>, e: Entry) {
    exists v2 :: I.Reserve((e.key, e.version), v2, e.createdAt) in acts
  }

  ghost predicate AllReserved(acts: seq<I.Action>, entries: seq<Entry>) {
    forall e | e in entries :: WasReserved(acts, e)
  }

  /** What a request in flight is about to add was asked for. */
  ghost predicate TaskReserved(acts: seq<I.Action>, p: I.Phase) {
    match p
    case Evicting(pair, _, v2, now) => I.Reserve(pair, v2, now) in acts
    case Allocating(pair, v2, now) => I.Reserve(pair, v2, now) in acts
    case Pushing(e) => WasReserved(acts, e) && !e.committed
    case _ => true
  }

  ghost predicate ReservedInv(acts: seq<I.Action>, s: I.State) {
    && AllReserved(acts, s.entries) && AllReserved(acts, s.disk)
    && forall t | 0 <= t < |s.tasks| :: TaskReserved(acts, s.tasks[t])
  }

  lemma ReservedStill(acts: seq<I.Action>, a: I.Action, s: I.State)
    requires ReservedInv(acts, s)
    ensures ReservedInv(acts + [a], s)
  {
    forall e | WasReserved(acts, e)
      ensures WasReserved(acts + [a], e)
    {
      var v2 :| I.Reserve((e.key, e.version), v2, e.createdAt) in acts;
      assert I.Reserve((e.key, e.version), v2, e.createdAt) in acts + [a];
    }
    forall t | 0 <= t < |s.tasks|
      ensures TaskReserved(acts + [a], s.tasks[t])
    {
      assert TaskReserved(acts, s.tasks[t]);
    }
  }

  lemma MarkReserved(acts: seq<I.Action>, s: I.State, i: nat, size: int, s3Key: Option<string>)
    requires ReservedInv(acts, s) && i < |s.entries|
    ensures ReservedInv(acts, I.Mark(s, i, size, s3Key))
  {
    hide WasReserved;
    var s' := I.Mark(s, i, size, s3Key);
    forall e | e in s'.entries
      ensures WasReserved(acts, e)
    {
      MarkedWereThere(s.entries, i, size, s3Key, e);
      var f :| f in s.entries && SameOrigin(e, f);
      SameReservation(acts, e, f);
    }
    forall t | 0 <= t < |s'.tasks|
      ensures TaskReserved(acts, s'.tasks[t])
    {
      assert t < |s.tasks| ==> s'.tasks[t] == s.tasks[t];
    }
  }

  lemma SameReservation(acts: seq<I.Action>, e: Entry, f: Entry)
    requires SameOrigin(e, f) && WasReserved(acts, f)
    ensures WasReserved(acts, e)
  {
  }

  /** A step by one task that leaves the list and the file alone. */
  lemma TaskMoves(acts: seq<I.Action>, s: I.State, t: nat, p: I.Phase, s': I.State)
    requires ReservedInv(acts, s) && t < |s.tasks| && TaskReserved(acts, p)
    requires s'.tasks == s.tasks[t := p]
    requires AllReserved(acts, s'.entries) && AllReserved(acts, s'.disk)
    ensures ReservedInv(acts, s')
  {
  }

  lemma TaskComes(acts: seq<I.Action>, s: I.State, p: I.Phase, s': I.State)
    requires ReservedInv(acts, s) && TaskReserved(acts, p)
    requires s'.tasks == s.tasks + [p] && s'.entries == s.entries && s'.disk == s.disk
    ensures ReservedInv(acts, s')
  {
    forall t | 0 <= t < |s'.tasks|
      ensures TaskReserved(acts, s'.tasks[t])
    {
      assert t < |s.tasks| ==> s'.tasks[t] == s.tasks[t];
    }
  }

  lemma StepReserved(once: bool, acts: seq<I.Action>, s: I.State, a: I.Action)
    requires ReservedInv(acts, s) && a in acts && I.Enabled(once, s, a)
    ensures ReservedInv(acts, I.Apply(once, s, a))
  {
    hide ReservedInv;
    var s' := I.Apply(once, s, a);
    match a
    case Reserve(pair, v2, now) =>
      TaskComes(acts, s, s'.tasks[|s.tasks|], s');
    case Commit(id, size) =>
      if FindId(s.entries, id).Some? {
        MarkReserved(acts, s, FindId(s.entries, id).value, size, Some(S3Key(id)));
      }
    case Finalize(pair, size) =>
      var i := FindOpen(s.entries, pair);
      if i.Some? {
        MarkReserved(acts, s, i.value, size, s.entries[i.value].s3Key);
      }
    case Crash => CrashReserved(acts, s, s');
    case _ => OneTaskReserved(once, acts, s, a, s');
  }

  lemma CrashReserved(acts: seq<I.Action>, s: I.State, s': I.State)
    requires ReservedInv(acts, s) && s'.entries == s.disk == s'.disk && s'.tasks == []
    ensures ReservedInv(acts, s')
  {
  }

  lemma OneTaskReserved(once: bool, acts: seq<I.Action>, s: I.State, a: I.Action, s': I.State)
    requires ReservedInv(acts, s) && I.Enabled(once, s, a) && s' == I.Apply(once, s, a)
    requires a.Retain? || a.Allocate? || a.Push? || a.Bind? || a.Save?
    ensures ReservedInv(acts, s')
  {
    assert TaskReserved(acts, s.tasks[a.t]);
    if a.Retain? {
      forall e | e in s'.entries
        ensures WasReserved(acts, e)
      {
        WithoutMembers(s.entries, s.tasks[a.t].id, e);
      }
    } else if a.Allocate? {
      var p := s.tasks[a.t];
      assert I.Reserve(p.pair, p.v2, p.now) in acts;
      assert WasReserved(acts, s'.tasks[a.t].entry);
    }
    TaskMoves(acts, s, a.t, s'.tasks[a.t], s');
  }

  /**
   However requests interleave and wherever the process restarts: every entry of the list
   carries the key, the version and the time of one reservation of the run.
   */
  lemma {:induction false} EntriesWereReserved(once: bool, acts: seq<I.Action>)
    requires I.Exec(once, I.Init(), acts).Some?
    ensures ReservedInv(acts, I.Exec(once, I.Init(), acts).value)
    ensures forall e | e in I.Exec(once, I.Init(), acts).value.entries ::
      exists v2 :: I.Reserve((e.key, e.version), v2, e.createdAt) in acts
  {
    if acts != [] {
      hide I.Apply, I.Enabled, WasReserved, TaskReserved;
      var before, a := acts[..|acts| - 1], acts[|acts| - 1];
      var s := I.Exec(once, I.Init(), before).value;
      assert acts == before + [a];
      EntriesWereReserved(once, before);
      ReservedStill(before, a, s);
      StepReserved(once, acts, s, a);
    }
    forall e | e in I.Exec(once, I.Init(), acts).value.entries
      ensures exists v2 :: I.Reserve((e.key, e.version), v2, e.createdAt) in acts
    {
      assert WasReserved(acts, e);
    }
  }
}
