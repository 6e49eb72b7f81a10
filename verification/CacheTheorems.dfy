/** What holds of runs of the cache service, each request handled as a whole. */
module CacheTheorems {
  import opened Wrappers
  import opened CacheLookup
  import opened CacheChunks
  import opened CacheStore

  // ---- One reservation at a time ----

  /** An uncommitted entry of this pair is outstanding. */
  ghost predicate Outstanding(entries: seq<Entry>, pair: Pair) {
    exists e :: e in entries && PairOf(e) == pair && !e.committed
  }

  /** The request reserves a pair that is already reserved. */
  ghost predicate DoubleReserve(st: Store, req: Request) {
    (req.ReserveReq? || req.CreateReq?) && Outstanding(st.entries, req.pair)
  }

  /** No two entries share a key and version. */
  ghost predicate UniquePairs(entries: seq<Entry>) {
    forall e, f | e in entries && f in entries && PairOf(e) == PairOf(f) :: e == f
  }

  /** Every committed entry is bound. */
  ghost predicate IndexComplete(entries: seq<Entry>, index: map<Pair, nat>) {
    forall e | e in entries && e.committed :: PairOf(e) in index && index[PairOf(e)] == e.id
  }

  /**
   Each pair has at most one entry, and the index is exactly the graph of the committed
   entries (with `Inv`, every binding is sound as well).
   */
  ghost predicate Tidy(st: Store) {
    Inv(st) && UniquePairs(st.entries) && IndexComplete(st.entries, st.index)
  }

  lemma EvictTidy(st: Store, pair: Pair)
    requires Tidy(st) && !Outstanding(st.entries, pair)
    ensures var st1 := Evict(st, pair);
      && UniquePairs(st1.entries) && IndexComplete(st1.entries, st1.index)
      && (forall e | e in st1.entries :: PairOf(e) != pair)
  {
    var st1 := Evict(st, pair);
    EvictSound(st, pair);
    forall e | e in st1.entries
      ensures PairOf(e) != pair && (e.committed ==> PairOf(e) in st1.index && st1.index[PairOf(e)] == e.id)
    {
      assert e in st.entries;
      if PairOf(e) == pair {
        assert e.committed && st.index[pair] == e.id;
        WithoutMembers(st.entries, e.id, e);
      }
    }
  }

  lemma AllocateTidy(st: Store, pair: Pair, e: Entry, st': Store)
    requires Tidy(st) && Inv(st') && !e.committed && PairOf(e) == pair && !Outstanding(st.entries, pair)
    requires st'.entries == Evict(st, pair).entries + [e] && st'.index == Evict(st, pair).index
    ensures Tidy(st')
  {
    EvictTidy(st, pair);
  }

  lemma MarkTidy(st: Store, i: nat, size: int, s3Key: Option<string>)
    requires Tidy(st) && i < |st.entries|
    ensures Tidy(MarkAndBind(st, i, size, s3Key))
  {
    MarkInv(st, i, size, s3Key);
    var st' := MarkAndBind(st, i, size, s3Key);
    forall e | e in st'.entries
      ensures e == st'.entries[i] || (e in st.entries && PairOf(e) != PairOf(st'.entries[i]))
    {
      var k :| 0 <= k < |st'.entries| && st'.entries[k] == e;
      if k != i {
        OtherPair(st.entries, k, i);
      }
    }
  }

  lemma OtherPair(entries: seq<Entry>, k: nat, i: nat)
    requires Ascending(entries) && UniquePairs(entries) && k < |entries| && i < |entries| && k != i
    ensures entries[k] in entries && PairOf(entries[k]) != PairOf(entries[i])
  {
    assert entries[k].id != entries[i].id && entries[i] in entries;
  }

  lemma {:induction false} RebuildComplete(entries: seq<Entry>)
    requires UniquePairs(entries)
    ensures IndexComplete(entries, Rebuild(entries))
  {
    if entries != [] {
      var n := |entries| - 1;
      assert entries == entries[..n] + [entries[n]];
      RebuildComplete(entries[..n]);
    }
  }

  lemma CommitTidy(st: Store, id: nat, size: int)
    requires Tidy(st)
    ensures Tidy(Commit(st, id, size))
  {
    if id in st.temps {
      var st1 := Ship(st, id);
      assert Tidy(st1);
      if FindId(st1.entries, id).Some? {
        MarkTidy(st1, FindId(st1.entries, id).value, size, Some(S3Key(id)));
      }
    }
  }

  lemma FinalizeTidy(st: Store, pair: Pair, size: int)
    requires Tidy(st)
    ensures Tidy(Finalize(st, pair, size))
  {
    var i := FindOpen(st.entries, pair);
    if i.Some? {
      MarkTidy(st, i.value, size, st.entries[i.value].s3Key);
    }
  }

  lemma UploadTidy(st: Store, id: nat, range: string, body: Bytes)
    requires Tidy(st)
    ensures Tidy(Upload(st, id, range, body))
  {
  }

  lemma ReserveTidy(st: Store, pair: Pair, now: int)
    requires Tidy(st) && Inv(Reserve(st, pair, now)) && !Outstanding(st.entries, pair)
    ensures Tidy(Reserve(st, pair, now))
  {
    EvictSound(st, pair);
    AllocateTidy(st, pair, NewEntry(st.nextId, pair, None, now), Reserve(st, pair, now));
  }

  lemma CreateTidy(st: Store, pair: Pair, now: int)
    requires Tidy(st) && Inv(Create(st, pair, now)) && !Outstanding(st.entries, pair)
    ensures Tidy(Create(st, pair, now))
  {
    EvictSound(st, pair);
    AllocateTidy(st, pair, NewEntry(st.nextId, pair, Some(S3Key(st.nextId)), now), Create(st, pair, now));
  }

  /** Every request keeps a tidy store tidy, except reserving a pair that is already reserved. */
  lemma HandleTidy(st: Store, req: Request)
    requires Tidy(st) && !DoubleReserve(st, req)
    ensures Tidy(Handle(st, req))
  {
    HandleInv(st, req);
    match req
    case ReserveReq(pair, now) => ReserveTidy(st, pair, now);
    case CreateReq(pair, now) => CreateTidy(st, pair, now);
    case UploadReq(id, range, body) => UploadTidy(st, id, range, body);
    case CommitReq(id, size) => CommitTidy(st, id, size);
    case FinalizeReq(pair, size) => FinalizeTidy(st, pair, size);
    case PutReq(id, body) =>
    case RestartReq => RebuildComplete(st.disk);
  }

  /** The exception is real: exactly a double reservation breaks tidiness. */
  lemma TidyIffNoDoubleReserve(st: Store, req: Request)
    requires Tidy(st)
    ensures Tidy(Handle(st, req)) <==> !DoubleReserve(st, req)
  {
    if DoubleReserve(st, req) {
      var pair := req.pair;
      var e :| e in st.entries && PairOf(e) == pair && !e.committed;
      EvictKeepsOpen(st, pair, e);
      var st' := Handle(st, req);
      var added := st'.entries[|st'.entries| - 1];
      assert added.id == st.nextId && PairOf(added) == pair;
      assert e in st'.entries && added in st'.entries && e.id < st.nextId;
    } else {
      HandleTidy(st, req);
    }
  }

  lemma EvictKeepsOpen(st: Store, pair: Pair, e: Entry)
    requires Inv(st) && e in st.entries && !e.committed
    ensures e in Evict(st, pair).entries
  {
    if pair in st.index {
      var o :| o in st.entries && o.id == st.index[pair] && o.committed && PairOf(o) == pair;
      if o.id == e.id {
        UniqueIds(st.entries, o, e);
      }
      WithoutMembers(st.entries, st.index[pair], e);
    }
  }

  ghost predicate Disciplined(st: Store, reqs: seq<Request>) {
    reqs == [] || (
      && Disciplined(st, reqs[..|reqs| - 1])
      && !DoubleReserve(Serve(st, reqs[..|reqs| - 1]), reqs[|reqs| - 1]))
  }

  /** With at most one outstanding reservation per pair, every run keeps the store tidy. */
  lemma {:induction false} DisciplinedRunsStayTidy(st: Store, reqs: seq<Request>)
    requires Tidy(st) && Disciplined(st, reqs)
    ensures Tidy(Serve(st, reqs))
  {
    if reqs != [] {
      var before := reqs[..|reqs| - 1];
      DisciplinedRunsStayTidy(st, before);
      HandleTidy(Serve(st, before), reqs[|reqs| - 1]);
    }
  }

  /** The pair has at most one entry, is bound exactly if that is committed, and the last entry has the last id. */
  ghost predicate OneEntryIndexed(st: Store, pair: Pair) {
    && (forall e, f | e in st.entries && f in st.entries && PairOf(e) == pair && PairOf(f) == pair :: e == f)
    && (pair in st.index <==> exists e :: e in st.entries && e.committed && PairOf(e) == pair)
    && (forall e | e in st.entries && e.committed && PairOf(e) == pair :: st.index[pair] == e.id)
    && (st.entries != [] ==> st.entries[|st.entries| - 1].id == st.nextId - 1)
  }

  /** The same, from an empty service, spelled out per pair. */
  lemma AtMostOneCommittedPerPair(reqs: seq<Request>, pair: Pair)
    requires Disciplined(Empty(), reqs)
    ensures OneEntryIndexed(Serve(Empty(), reqs), pair)
  {
    DisciplinedRunsStayTidy(Empty(), reqs);
    TidyPerPair(Serve(Empty(), reqs), pair);
  }

  lemma TidyPerPair(st: Store, pair: Pair)
    requires Tidy(st)
    ensures OneEntryIndexed(st, pair)
  {
    MaxIsLast(st.entries);
  }

  lemma ServeNext(st: Store, reqs: seq<Request>, req: Request)
    ensures Serve(st, reqs + [req]) == Handle(Serve(st, reqs), req)
  {
    assert (reqs + [req])[..|reqs|] == reqs;
  }

  /** The store has two entries, both of this pair, the younger one not committed. */
  ghost predicate TwoOfPair(st: Store, pair: Pair) {
    && |st.entries| == 2 && !st.entries[1].committed
    && PairOf(st.entries[0]) == pair && PairOf(st.entries[1]) == pair
  }

  /** Finalizing picks the older of two open entries of a pair, then the younger. */
  lemma OldestOfTwo(entries: seq<Entry>, pair: Pair)
    requires |entries| == 2 && PairOf(entries[0]) == pair && PairOf(entries[1]) == pair && !entries[1].committed
    ensures FindOpen(entries, pair) == Some(if entries[0].committed then 1 else 0)
  {
  }

  /** After two creates of one pair. */
  lemma TwoOpen(pair: Pair)
    ensures var st := Serve(Empty(), [] + [CreateReq(pair, 0)] + [CreateReq(pair, 1)]);
      TwoOfPair(st, pair) && !st.entries[0].committed
  {
    ServeNext(Empty(), [], CreateReq(pair, 0));
    ServeNext(Empty(), [] + [CreateReq(pair, 0)], CreateReq(pair, 1));
  }

  lemma FinalizeFirst(st: Store, pair: Pair, size: int, st': Store)
    requires TwoOfPair(st, pair) && !st.entries[0].committed && st' == Finalize(st, pair, size)
    ensures TwoOfPair(st', pair) && st'.entries[0].committed && st'.entries[0].size == size
  {
    OldestOfTwo(st.entries, pair);
  }

  lemma FinalizeSecond(st: Store, pair: Pair, size: int, st': Store)
    requires TwoOfPair(st, pair) && st.entries[0].committed && st' == Finalize(st, pair, size)
    ensures |st'.entries| == 2 && st'.entries[0] == st.entries[0]
    ensures st'.entries[1].committed && PairOf(st'.entries[1]) == pair
  {
    OldestOfTwo(st.entries, pair);
  }

  /** Without the discipline, two committed entries of one pair can coexist, and finalize picks the oldest. */
  lemma TwoCommittedEntriesCanCoexist(pair: Pair)
    ensures var st := Serve(Empty(),
      [CreateReq(pair, 0), CreateReq(pair, 1), FinalizeReq(pair, 5), FinalizeReq(pair, 6)]);
      && |st.entries| == 2 && st.entries[0].committed && st.entries[1].committed
      && PairOf(st.entries[0]) == pair && PairOf(st.entries[1]) == pair
      && st.entries[0].size == 5
  {
    var two := [] + [CreateReq(pair, 0)] + [CreateReq(pair, 1)];
    var three := two + [FinalizeReq(pair, 5)];
    TwoOpen(pair);
    ServeNext(Empty(), two, FinalizeReq(pair, 5));
    FinalizeFirst(Serve(Empty(), two), pair, 5, Serve(Empty(), three));
    ServeNext(Empty(), three, FinalizeReq(pair, 6));
    FinalizeSecond(Serve(Empty(), three), pair, 6, Serve(Empty(), three + [FinalizeReq(pair, 6)]));
    assert three + [FinalizeReq(pair, 6)]
        == [CreateReq(pair, 0), CreateReq(pair, 1), FinalizeReq(pair, 5), FinalizeReq(pair, 6)];
  }

  // ---- Ids ----

  lemma NextIdStep(st: Store, req: Request)
    requires Inv(st)
    ensures Handle(st, req).nextId == if req.ReserveReq? || req.CreateReq? then st.nextId + 1 else st.nextId
  {
    if req.ReserveReq? || req.CreateReq? {
      EvictSound(st, req.pair);
    }
  }

  /** How many of the requests hand out an id. */
  function Allocations(reqs: seq<Request>): nat {
    if reqs == [] then 0
    else
      var req := reqs[|reqs| - 1];
      Allocations(reqs[..|reqs| - 1]) + if req.ReserveReq? || req.CreateReq? then 1 else 0
  }

  /**
   Ids are never reused: across any requests and restarts every reservation takes the next
   number, so the counter has advanced by exactly the number of reservations.
   */
  lemma {:induction false} IdsNeverReused(st: Store, reqs: seq<Request>)
    requires Inv(st)
    ensures Serve(st, reqs).nextId == st.nextId + Allocations(reqs)
  {
    if reqs != [] {
      var before := reqs[..|reqs| - 1];
      IdsNeverReused(st, before);
      ServeInv(st, before);
      NextIdStep(Serve(st, before), reqs[|reqs| - 1]);
    }
  }
}
