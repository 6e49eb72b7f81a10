/** Exactly when the index stays the graph of the committed entries, over all requests. */
module CacheGraph {
  import opened Wrappers
  import opened CacheLookup
  import opened CacheChunks
  import opened CacheStore
  import opened CacheTheorems

  /**
   The index is exactly the graph of the committed entries: every binding is sound, and every
   committed entry is bound.  In particular a pair has at most one committed entry.
   */
  ghost predicate Graph(st: Store) { Inv(st) && IndexComplete(st.entries, st.index) }

  lemma OneCommittedPerPair(st: Store, e: Entry, f: Entry)
    requires Graph(st) && e in st.entries && f in st.entries && e.committed && f.committed && PairOf(e) == PairOf(f)
    ensures e == f && PairOf(e) in st.index && st.index[PairOf(e)] == e.id
  {
    UniqueIds(st.entries, e, f);
  }

  /** A committed entry of this pair other than the one with this id is present. */
  ghost predicate OtherCommitted(entries: seq<Entry>, pair: Pair, id: nat) {
    exists e :: e in entries && e.committed && PairOf(e) == pair && e.id != id
  }

  /** The entry a request is about to mark committed, if any. */
  function Marked(st: Store, req: Request): Option<nat> {
    match req
    case CommitReq(id, _) => if id in st.temps then FindId(st.entries, id) else None
    case FinalizeReq(pair, _) => FindOpen(st.entries, pair)
    case _ => None
  }

  /** The request commits an entry while another entry of its pair is committed. */
  ghost predicate MarksSecond(st: Store, req: Request) {
    var i := Marked(st, req);
    i.Some? && i.value < |st.entries| && OtherCommitted(st.entries, PairOf(st.entries[i.value]), st.entries[i.value].id)
  }

  lemma EvictGraph(st: Store, pair: Pair)
    requires Graph(st)
    ensures IndexComplete(Evict(st, pair).entries, Evict(st, pair).index)
  {
    var st1 := Evict(st, pair);
    EvictSound(st, pair);
    forall e | e in st1.entries && e.committed
      ensures PairOf(e) in st1.index && st1.index[PairOf(e)] == e.id
    {
      assert e in st.entries && PairOf(e) in st.index && st.index[PairOf(e)] == e.id;
      if pair in st.index {
        WithoutMembers(st.entries, st.index[pair], e);
      }
    }
  }

  lemma AllocateGraph(st: Store, pair: Pair, e: Entry, st': Store)
    requires Graph(st) && Inv(st') && !e.committed
    requires st'.entries == Evict(st, pair).entries + [e] && st'.index == Evict(st, pair).index
    ensures Graph(st')
  {
    EvictGraph(st, pair);
  }

  lemma MarkComplete(entries: seq<Entry>, index: map<Pair, nat>, i: nat, marked: Entry, entries': seq<Entry>)
    requires IndexComplete(entries, index) && Ascending(entries) && i < |entries| && entries' == entries[i := marked]
    requires marked.id == entries[i].id && PairOf(marked) == PairOf(entries[i])
    requires !OtherCommitted(entries, PairOf(marked), marked.id)
    ensures IndexComplete(entries', index[PairOf(marked) := marked.id])
  {
    forall e | e in entries' && e.committed
      ensures e == marked || (e in entries && PairOf(e) != PairOf(marked))
    {
      var k :| 0 <= k < |entries'| && entries'[k] == e;
      if k != i {
        assert e == entries[k] && entries[k].id != entries[i].id;
      }
    }
  }

  lemma MarkIncomplete(entries: seq<Entry>, index: map<Pair, nat>, i: nat, marked: Entry, entries': seq<Entry>)
    requires Ascending(entries) && i < |entries| && entries' == entries[i := marked]
    requires marked.id == entries[i].id && OtherCommitted(entries, PairOf(marked), marked.id)
    ensures !IndexComplete(entries', index[PairOf(marked) := marked.id])
  {
    var e :| e in entries && e.committed && PairOf(e) == PairOf(marked) && e.id != marked.id;
    var k :| 0 <= k < |entries| && entries[k] == e;
    assert entries'[k] == e;
  }

  /** Marking an entry keeps the graph exactly if no other entry of its pair is committed. */
  lemma MarkGraph(st: Store, i: nat, size: int, s3Key: Option<string>)
    requires Graph(st) && i < |st.entries|
    ensures Graph(MarkAndBind(st, i, size, s3Key)) <==>
      !OtherCommitted(st.entries, PairOf(st.entries[i]), st.entries[i].id)
  {
    MarkInv(st, i, size, s3Key);
    var marked, st' := MarkCommitted(st.entries[i], size, s3Key), MarkAndBind(st, i, size, s3Key);
    if OtherCommitted(st.entries, PairOf(marked), marked.id) {
      MarkIncomplete(st.entries, st.index, i, marked, st'.entries);
    } else {
      MarkComplete(st.entries, st.index, i, marked, st'.entries);
    }
  }

  lemma CommitGraph(st: Store, id: nat, size: int)
    requires Graph(st)
    ensures Graph(Commit(st, id, size)) <==> !MarksSecond(st, CommitReq(id, size))
  {
    if id in st.temps {
      var st1 := Ship(st, id);
      assert Graph(st1);
      var i := FindId(st1.entries, id);
      if i.Some? {
        MarkGraph(st1, i.value, size, Some(S3Key(id)));
      }
    }
  }

  lemma FinalizeGraph(st: Store, pair: Pair, size: int)
    requires Graph(st)
    ensures Graph(Finalize(st, pair, size)) <==> !MarksSecond(st, FinalizeReq(pair, size))
  {
    var i := FindOpen(st.entries, pair);
    if i.Some? {
      MarkGraph(st, i.value, size, st.entries[i.value].s3Key);
    }
  }

  lemma ReserveGraph(st: Store, pair: Pair, now: int)
    requires Graph(st)
    ensures Graph(Reserve(st, pair, now))
  {
    HandleInv(st, ReserveReq(pair, now));
    AllocateGraph(st, pair, NewEntry(st.nextId, pair, None, now), Reserve(st, pair, now));
  }

  lemma CreateGraph(st: Store, pair: Pair, now: int)
    requires Graph(st)
    ensures Graph(Create(st, pair, now))
  {
    HandleInv(st, CreateReq(pair, now));
    AllocateGraph(st, pair, NewEntry(st.nextId, pair, Some(S3Key(st.nextId)), now), Create(st, pair, now));
  }

  lemma UploadGraph(st: Store, id: nat, range: string, body: Bytes)
    requires Graph(st)
    ensures Graph(Upload(st, id, range, body))
  {
  }

  /** No two committed entries of one pair. */
  ghost predicate OnePerPair(entries: seq<Entry>) {
    forall e, f | e in entries && f in entries && e.committed && f.committed && PairOf(e) == PairOf(f) :: e.id == f.id
  }

  lemma {:induction false} RebuildGraph(entries: seq<Entry>)
    requires OnePerPair(entries)
    ensures IndexComplete(entries, Rebuild(entries))
  {
    if entries != [] {
      var n := |entries| - 1;
      assert entries == entries[..n] + [entries[n]];
      RebuildGraph(entries[..n]);
    }
  }

  lemma RestartKeepsGraph(st: Store)
    requires Graph(st)
    ensures Restart(st) == st.(temps := Restart(st).temps) && Graph(Restart(st))
  {
    forall e, f | e in st.entries && f in st.entries && e.committed && f.committed && PairOf(e) == PairOf(f)
      ensures e.id == f.id
    {
      OneCommittedPerPair(st, e, f);
    }
    RebuildGraph(st.entries);
    RebuildSound(st.entries);
    SameGraph(st.entries, st.index, Rebuild(st.entries));
  }

  /**
   A restart rebuilds the same entries, the same index and the same id counter for every
   store whose index is the graph of its committed entries, reservations outstanding or not;
   only temporary files of entries no longer open disappear.
   */
  lemma RestartIsTransparent(st: Store)
    requires Graph(st)
    ensures Restart(st) == st.(temps := Restart(st).temps)
    ensures forall id :: id in Restart(st).temps <==>
      id in st.temps && exists e :: e in st.entries && e.id == id && !e.committed
    ensures forall id | id in Restart(st).temps :: Restart(st).temps[id] == st.temps[id]
  {
    RestartKeepsGraph(st);
  }

  lemma SameGraph(entries: seq<Entry>, index: map<Pair, nat>, rebuilt: map<Pair, nat>)
    requires IndexComplete(entries, index) && IndexSound(entries, index)
    requires IndexComplete(entries, rebuilt) && IndexSound(entries, rebuilt)
    ensures index == rebuilt
  {
    forall p | p in index
      ensures p in rebuilt && rebuilt[p] == index[p]
    {
      var e :| e in entries && e.id == index[p] && e.committed && PairOf(e) == p;
    }
    forall p | p in rebuilt
      ensures p in index
    {
      var e :| e in entries && e.id == rebuilt[p] && e.committed && PairOf(e) == p;
    }
  }

  /**
   The exact condition, over every request: the index stays the graph of the committed
   entries if and only if the request does not commit a second entry of a pair.
   */
  lemma GraphIffNoSecondCommit(st: Store, req: Request)
    requires Graph(st)
    ensures Graph(Handle(st, req)) <==> !MarksSecond(st, req)
  {
    match req
    case ReserveReq(pair, now) => ReserveGraph(st, pair, now);
    case CreateReq(pair, now) => CreateGraph(st, pair, now);
    case UploadReq(id, range, body) => UploadGraph(st, id, range, body);
    case CommitReq(id, size) => CommitGraph(st, id, size);
    case FinalizeReq(pair, size) => FinalizeGraph(st, pair, size);
    case PutReq(id, body) =>
    case RestartReq => RestartKeepsGraph(st);
  }

  ghost predicate AlwaysGraph(st: Store, reqs: seq<Request>) {
    Graph(Serve(st, reqs)) && (reqs == [] || AlwaysGraph(st, reqs[..|reqs| - 1]))
  }

  ghost predicate NeverMarksSecond(st: Store, reqs: seq<Request>) {
    reqs == [] || (
      && NeverMarksSecond(st, reqs[..|reqs| - 1])
      && !MarksSecond(Serve(st, reqs[..|reqs| - 1]), reqs[|reqs| - 1]))
  }

  /** The same over every run, restarts included. */
  lemma {:induction false} RunsKeepGraphIffNoSecondCommit(st: Store, reqs: seq<Request>)
    requires Graph(st)
    ensures AlwaysGraph(st, reqs) <==> NeverMarksSecond(st, reqs)
  {
    if reqs != [] {
      var before := reqs[..|reqs| - 1];
      RunsKeepGraphIffNoSecondCommit(st, before);
      if AlwaysGraph(st, before) {
        GraphIffNoSecondCommit(Serve(st, before), reqs[|reqs| - 1]);
      }
    }
  }

  /** Reserving no pair twice at a time is a discipline that prevents it. */
  lemma {:induction false} DisciplinePreventsSecondCommit(st: Store, reqs: seq<Request>)
    requires Tidy(st) && Disciplined(st, reqs)
    ensures NeverMarksSecond(st, reqs)
  {
    if reqs != [] {
      var before, req := reqs[..|reqs| - 1], reqs[|reqs| - 1];
      DisciplinePreventsSecondCommit(st, before);
      DisciplinedRunsStayTidy(st, before);
      TidyMarksFirst(Serve(st, before), req);
    }
  }

  lemma TidyMarksFirst(st: Store, req: Request)
    requires Tidy(st)
    ensures !MarksSecond(st, req)
  {
    var i := Marked(st, req);
    if i.Some? && i.value < |st.entries| {
      assert st.entries[i.value] in st.entries;
    }
  }
}
