/** From a reservation to the download, over both APIs and amid any other requests. */
module CacheRoundTrip {
  import opened Wrappers
  import opened CacheLookup
  import opened CacheChunks
  import opened CacheStore
  import opened CacheTheorems

  // ---- While the reservation is open ----

  /**
   The only entry of this pair is the open one with this id.  Its content comes in through a
   temporary file, or, if `signed`, through a pre-signed URL.
   */
  ghost predicate Reserved(st: Store, pair: Pair, id: nat, signed: bool) {
    && Inv(st) && (id in st.temps <==> !signed) && (id in st.presigned <==> signed)
    && (exists e :: e in st.entries && e.id == id)
    && (forall e | e in st.entries && e.id == id :: PairOf(e) == pair && !e.committed)
    && (forall e | e in st.entries && PairOf(e) == pair :: e.id == id)
  }

  /** A request that neither reserves nor finalizes this pair, nor commits its file. */
  predicate LeavesOpen(req: Request, pair: Pair, id: nat, signed: bool) {
    match req
    case ReserveReq(p, _) => p != pair
    case CreateReq(p, _) => p != pair
    case FinalizeReq(p, _) => p != pair
    case CommitReq(i, _) => signed || i != id
    case UploadReq(_, _, _) => true
    case PutReq(_, _) => true
    case RestartReq => true
  }

  /** What has been uploaded for this id so far. */
  function Content(st: Store, id: nat, signed: bool): Option<Bytes> {
    var where := if signed then st.blobs else st.temps;
    if id in where then Some(where[id]) else None
  }

  /** The chunk a request writes to this id's file, if any. */
  function ChunkOf(req: Request, id: nat): seq<Chunk> {
    if req.UploadReq? && req.id == id && ParseContentRangeStart(req.range).Some?
    then [Chunk(ParseContentRangeStart(req.range).value, req.body)] else []
  }

  function ChunksFor(reqs: seq<Request>, id: nat): seq<Chunk> {
    if reqs == [] then [] else ChunksFor(reqs[..|reqs| - 1], id) + ChunkOf(reqs[|reqs| - 1], id)
  }

  /** What the last direct upload for this id sent, if there was one. */
  function LastPut(reqs: seq<Request>, id: nat): Option<Bytes> {
    if reqs == [] then None
    else
      var req := reqs[|reqs| - 1];
      if req.PutReq? && req.id == id then Some(req.body) else LastPut(reqs[..|reqs| - 1], id)
  }

  /** What a request makes of this id's content. */
  function ContentAfter(content: Option<Bytes>, req: Request, id: nat, signed: bool): Option<Bytes> {
    if signed then (if req.PutReq? && req.id == id then Some(req.body) else content)
    else
      var chunk := ChunkOf(req, id);
      if content.None? || chunk == [] then content else Some(WriteAt(content.value, chunk[0].start, chunk[0].body))
  }

  /** No entry of the pair but the one the index knows. */
  ghost predicate Free(st: Store, pair: Pair) {
    && Inv(st) && !Outstanding(st.entries, pair)
    && forall e | e in st.entries && PairOf(e) == pair :: pair in st.index && e.id == st.index[pair]
  }

  lemma AllocateReserves(st: Store, pair: Pair, e: Entry, st': Store, signed: bool)
    requires Free(st, pair) && Inv(st') && !e.committed && PairOf(e) == pair && e.id == st.nextId
    requires st'.entries == Evict(st, pair).entries + [e]
    requires (st.nextId in st'.temps <==> !signed) && (st.nextId in st'.presigned <==> signed)
    ensures Reserved(st', pair, st.nextId, signed)
  {
    EvictSound(st, pair);
    var st1 := Evict(st, pair);
    assert e in st'.entries;
    forall f | f in st1.entries
      ensures f.id < st.nextId && PairOf(f) != pair
    {
      assert f in st.entries;
      if pair in st.index {
        WithoutMembers(st.entries, st.index[pair], f);
      }
    }
  }

  lemma ReserveReserves(st: Store, pair: Pair, now: int)
    requires Free(st, pair)
    ensures Reserved(Reserve(st, pair, now), pair, st.nextId, false)
    ensures Content(Reserve(st, pair, now), st.nextId, false) == Some([])
  {
    ReserveShape(st, pair, now, Reserve(st, pair, now));
    AllocateReserves(st, pair, NewEntry(st.nextId, pair, None, now), Reserve(st, pair, now), false);
  }

  lemma CreateReserves(st: Store, pair: Pair, now: int)
    requires Free(st, pair)
    ensures Reserved(Create(st, pair, now), pair, st.nextId, true)
  {
    CreateShape(st, pair, now, Create(st, pair, now));
    AllocateReserves(st, pair, NewEntry(st.nextId, pair, Some(S3Key(st.nextId)), now), Create(st, pair, now), true);
  }

  lemma EvictOther(st: Store, other: Pair, pair: Pair, e: Entry)
    requires Inv(st) && other != pair && e in st.entries && PairOf(e) == pair
    ensures e in Evict(st, other).entries
    ensures (pair in Evict(st, other).index <==> pair in st.index)
      && (pair in st.index ==> Evict(st, other).index[pair] == st.index[pair])
  {
    if other in st.index {
      var o :| o in st.entries && o.id == st.index[other] && o.committed && PairOf(o) == other;
      if o.id == e.id {
        UniqueIds(st.entries, o, e);
      }
      WithoutMembers(st.entries, st.index[other], e);
    }
  }

  /** Allocating for another pair leaves this pair's entry in place and adds none to the pair. */
  lemma AllocateOther(st: Store, other: Pair, added: Entry, st': Store, pair: Pair, e: Entry)
    requires Inv(st) && other != pair && PairOf(added) == other
    requires st'.entries == Evict(st, other).entries + [added]
    requires e in st.entries && PairOf(e) == pair
    ensures e in st'.entries
    ensures forall f | f in st'.entries && f != added :: f in st.entries
  {
    EvictOther(st, other, pair, e);
    EvictSound(st, other);
  }

  lemma MarkOther(st: Store, i: nat, size: int, s3Key: Option<string>, e: Entry)
    requires Inv(st) && i < |st.entries| && e in st.entries && e.id != st.entries[i].id
    ensures e in MarkAndBind(st, i, size, s3Key).entries
    ensures forall f | f in MarkAndBind(st, i, size, s3Key).entries ::
      f in st.entries || (f.id == st.entries[i].id && PairOf(f) == PairOf(st.entries[i]))
  {
    var k :| 0 <= k < |st.entries| && st.entries[k] == e;
    assert MarkAndBind(st, i, size, s3Key).entries[k] == e;
  }

  lemma ReservedAfterAllocate(st: Store, other: Pair, added: Entry, st': Store, pair: Pair, id: nat, signed: bool)
    requires Reserved(st, pair, id, signed) && Inv(st') && other != pair
    requires added.id == st.nextId && PairOf(added) == other
    requires st'.entries == Evict(st, other).entries + [added]
    requires (id in st'.temps <==> !signed) && (id in st'.presigned <==> signed)
    ensures Reserved(st', pair, id, signed)
  {
    var e :| e in st.entries && e.id == id;
    AllocateOther(st, other, added, st', pair, e);
  }

  lemma ReservedAfterMark(st: Store, i: nat, size: int, s3Key: Option<string>, pair: Pair, id: nat, signed: bool)
    requires Reserved(st, pair, id, signed) && i < |st.entries| && st.entries[i].id != id
    ensures Reserved(MarkAndBind(st, i, size, s3Key), pair, id, signed)
  {
    MarkInv(st, i, size, s3Key);
    var e :| e in st.entries && e.id == id;
    MarkOther(st, i, size, s3Key, e);
    assert st.entries[i] in st.entries;
  }

  lemma ReservedAfterShip(st: Store, other: nat, pair: Pair, id: nat, signed: bool)
    requires Reserved(st, pair, id, signed) && other != id && other in st.temps
    ensures Reserved(Ship(st, other), pair, id, signed)
    ensures Content(Ship(st, other), id, signed) == Content(st, id, signed)
  {
  }

  lemma ReservedAfterCommit(st: Store, other: nat, size: int, pair: Pair, id: nat, signed: bool, st': Store)
    requires Reserved(st, pair, id, signed) && (signed || other != id) && st' == Commit(st, other, size)
    ensures Reserved(st', pair, id, signed) && Content(st', id, signed) == Content(st, id, signed)
  {
    if other in st.temps {
      var st1 := Ship(st, other);
      ReservedAfterShip(st, other, pair, id, signed);
      var i := FindId(st1.entries, other);
      if i.Some? {
        ReservedAfterMark(st1, i.value, size, Some(S3Key(other)), pair, id, signed);
      }
    }
  }

  lemma ReservedAfterRestart(st: Store, pair: Pair, id: nat, signed: bool, st': Store)
    requires Reserved(st, pair, id, signed) && st' == Restart(st)
    ensures Reserved(st', pair, id, signed) && Content(st', id, signed) == Content(st, id, signed)
  {
    HandleInv(st, RestartReq);
    var e :| e in st.entries && e.id == id;
    assert id in OpenIds(st.disk);
  }

  /** What reserving or creating changes besides the entries. */
  lemma ReserveShape(st: Store, other: Pair, now: int, st': Store)
    requires Inv(st) && st' == Reserve(st, other, now)
    ensures Inv(st') && st'.entries == Evict(st, other).entries + [NewEntry(st.nextId, other, None, now)]
    ensures st'.index == Evict(st, other).index && st'.nextId == st.nextId + 1
    ensures st'.temps == st.temps[st.nextId := []] && st'.blobs == st.blobs && st'.presigned == st.presigned
  {
    HandleInv(st, ReserveReq(other, now));
    EvictSound(st, other);
  }

  lemma CreateShape(st: Store, other: Pair, now: int, st': Store)
    requires Inv(st) && st' == Create(st, other, now)
    ensures Inv(st')
      && st'.entries == Evict(st, other).entries + [NewEntry(st.nextId, other, Some(S3Key(st.nextId)), now)]
    ensures st'.index == Evict(st, other).index && st'.nextId == st.nextId + 1
    ensures st'.temps == st.temps && st'.blobs == st.blobs && st'.presigned == st.presigned + {st.nextId}
  {
    HandleInv(st, CreateReq(other, now));
    EvictSound(st, other);
  }

  lemma ReservedAfterReserve(st: Store, other: Pair, now: int, pair: Pair, id: nat, signed: bool, st': Store)
    requires Reserved(st, pair, id, signed) && other != pair && st' == Reserve(st, other, now)
    ensures Reserved(st', pair, id, signed) && Content(st', id, signed) == Content(st, id, signed)
  {
    ReserveShape(st, other, now, st');
    assert id < st.nextId;
    ReservedAfterAllocate(st, other, NewEntry(st.nextId, other, None, now), st', pair, id, signed);
  }

  lemma ReservedAfterCreate(st: Store, other: Pair, now: int, pair: Pair, id: nat, signed: bool, st': Store)
    requires Reserved(st, pair, id, signed) && other != pair && st' == Create(st, other, now)
    ensures Reserved(st', pair, id, signed) && Content(st', id, signed) == Content(st, id, signed)
  {
    CreateShape(st, other, now, st');
    assert id < st.nextId;
    ReservedAfterAllocate(st, other, NewEntry(st.nextId, other, Some(S3Key(st.nextId)), now), st', pair, id, signed);
  }

  lemma ReservedAfterFinalize(st: Store, other: Pair, size: int, pair: Pair, id: nat, signed: bool, st': Store)
    requires Reserved(st, pair, id, signed) && other != pair && st' == Finalize(st, other, size)
    ensures Reserved(st', pair, id, signed) && Content(st', id, signed) == Content(st, id, signed)
  {
    var i := FindOpen(st.entries, other);
    if i.Some? {
      assert st.entries[i.value] in st.entries;
      ReservedAfterMark(st, i.value, size, st.entries[i.value].s3Key, pair, id, signed);
    }
  }

  /** A request that touches neither entries nor URLs nor which files there are. */
  lemma ReservedFrame(st: Store, st': Store, pair: Pair, id: nat, signed: bool)
    requires Reserved(st, pair, id, signed) && Inv(st') && st'.entries == st.entries
    requires (id in st'.temps <==> id in st.temps) && st'.presigned == st.presigned
    ensures Reserved(st', pair, id, signed)
  {
  }

  lemma UploadContent(st: Store, i: nat, range: string, body: Bytes, id: nat, signed: bool, st': Store)
    requires st' == Upload(st, i, range, body)
    ensures st' == st.(temps := st'.temps) && st'.temps.Keys == st.temps.Keys
    ensures Content(st', id, signed) == ContentAfter(Content(st, id, signed), UploadReq(i, range, body), id, signed)
  {
    assert ChunkOf(UploadReq(i, range, body), i)
      == if ParseContentRangeStart(range).Some? then [Chunk(ParseContentRangeStart(range).value, body)] else [];
  }

  lemma ReservedAfterUpload(st: Store, i: nat, range: string, body: Bytes, pair: Pair, id: nat, signed: bool,
                            st': Store)
    requires Reserved(st, pair, id, signed) && st' == Upload(st, i, range, body)
    ensures Reserved(st', pair, id, signed)
    ensures Content(st', id, signed) == ContentAfter(Content(st, id, signed), UploadReq(i, range, body), id, signed)
  {
    HandleInv(st, UploadReq(i, range, body));
    UploadContent(st, i, range, body, id, signed, st');
    assert id in st'.temps.Keys <==> id in st.temps.Keys;
    ReservedFrame(st, st', pair, id, signed);
  }

  lemma PutContent(st: Store, i: nat, body: Bytes, id: nat, signed: bool, st': Store)
    requires st' == Put(st, i, body) && (id in st.presigned <==> signed)
    ensures st' == st.(blobs := st'.blobs)
    ensures Content(st', id, signed) == ContentAfter(Content(st, id, signed), PutReq(i, body), id, signed)
  {
  }

  lemma ReservedAfterPut(st: Store, i: nat, body: Bytes, pair: Pair, id: nat, signed: bool, st': Store)
    requires Reserved(st, pair, id, signed) && st' == Put(st, i, body)
    ensures Reserved(st', pair, id, signed)
    ensures Content(st', id, signed) == ContentAfter(Content(st, id, signed), PutReq(i, body), id, signed)
  {
    HandleInv(st, PutReq(i, body));
    PutContent(st, i, body, id, signed, st');
    ReservedFrame(st, st', pair, id, signed);
  }

  /** Other traffic leaves the reservation open, and only our uploads reach its content. */
  lemma ReservedStep(st: Store, req: Request, pair: Pair, id: nat, signed: bool, st': Store)
    requires Reserved(st, pair, id, signed) && LeavesOpen(req, pair, id, signed) && st' == Handle(st, req)
    ensures Reserved(st', pair, id, signed)
    ensures Content(st', id, signed) == ContentAfter(Content(st, id, signed), req, id, signed)
  {
    match req
    case UploadReq(i, range, body) => ReservedAfterUpload(st, i, range, body, pair, id, signed, st');
    case PutReq(i, body) => ReservedAfterPut(st, i, body, pair, id, signed, st');
    case _ => ReservedAfterOther(st, req, pair, id, signed, st');
  }

  lemma ReservedAfterOther(st: Store, req: Request, pair: Pair, id: nat, signed: bool, st': Store)
    requires Reserved(st, pair, id, signed) && LeavesOpen(req, pair, id, signed) && st' == Handle(st, req)
    requires !req.UploadReq? && !req.PutReq?
    ensures Reserved(st', pair, id, signed) && Content(st', id, signed) == Content(st, id, signed)
  {
    match req
    case ReserveReq(p, now) => ReservedAfterReserve(st, p, now, pair, id, signed, st');
    case CreateReq(p, now) => ReservedAfterCreate(st, p, now, pair, id, signed, st');
    case CommitReq(i, size) => ReservedAfterCommit(st, i, size, pair, id, signed, st');
    case FinalizeReq(p, size) => ReservedAfterFinalize(st, p, size, pair, id, signed, st');
    case RestartReq => ReservedAfterRestart(st, pair, id, signed, st');
  }

  /** v1: the file is the assembly of the chunks sent to it. */
  lemma {:induction false} ReservedRun(st: Store, reqs: seq<Request>, pair: Pair, id: nat)
    requires Reserved(st, pair, id, false) && Content(st, id, false) == Some([])
    requires forall req | req in reqs :: LeavesOpen(req, pair, id, false)
    ensures Reserved(Serve(st, reqs), pair, id, false)
    ensures Content(Serve(st, reqs), id, false) == Some(Assemble(ChunksFor(reqs, id)))
  {
    if reqs != [] {
      var before, req := reqs[..|reqs| - 1], reqs[|reqs| - 1];
      ReservedRun(st, before, pair, id);
      ReservedStep(Serve(st, before), req, pair, id, false, Serve(st, reqs));
      AssembleNext(ChunksFor(before, id), ChunkOf(req, id));
    }
  }

  lemma AssembleNext(chunks: seq<Chunk>, next: seq<Chunk>)
    requires |next| <= 1
    ensures Assemble(chunks + next) ==
      if next == [] then Assemble(chunks) else WriteAt(Assemble(chunks), next[0].start, next[0].body)
  {
    if next == [] {
      assert chunks + next == chunks;
    } else {
      assert (chunks + next)[..|chunks|] == chunks;
    }
  }

  /** v2: the content is the last upload through the URL. */
  lemma {:induction false} SignedRun(st: Store, reqs: seq<Request>, pair: Pair, id: nat)
    requires Reserved(st, pair, id, true)
    requires forall req | req in reqs :: LeavesOpen(req, pair, id, true)
    ensures Reserved(Serve(st, reqs), pair, id, true)
    ensures Content(Serve(st, reqs), id, true) ==
      if LastPut(reqs, id).Some? then LastPut(reqs, id) else Content(st, id, true)
  {
    if reqs != [] {
      var before, req := reqs[..|reqs| - 1], reqs[|reqs| - 1];
      SignedRun(st, before, pair, id);
      ReservedStep(Serve(st, before), req, pair, id, true, Serve(st, reqs));
    }
  }

  // ---- Once it is committed ----

  /** The pair's only entry is committed with this id, indexed, and its archive is in S3. */
  ghost predicate Cached(st: Store, pair: Pair, id: nat, archive: Bytes, signed: bool) {
    && Inv(st) && id !in st.temps && (id in st.presigned <==> signed) && id < st.nextId
    && id in st.blobs && st.blobs[id] == archive
    && pair in st.index && st.index[pair] == id
    && (exists e :: e in st.entries && e.id == id)
    && (forall e | e in st.entries && e.id == id :: PairOf(e) == pair && e.committed)
    && (forall e | e in st.entries && PairOf(e) == pair :: e.id == id)
  }

  /** Marking the pair's open entry, its content being in S3, caches it. */
  lemma MarkCaches(st: Store, i: nat, size: int, s3Key: Option<string>, pair: Pair, id: nat, archive: Bytes,
                   signed: bool)
    requires Inv(st) && i < |st.entries| && st.entries[i].id == id && PairOf(st.entries[i]) == pair
    requires forall e | e in st.entries && PairOf(e) == pair :: e.id == id
    requires id !in st.temps && (id in st.presigned <==> signed) && id in st.blobs && st.blobs[id] == archive
    ensures Cached(MarkAndBind(st, i, size, s3Key), pair, id, archive, signed)
  {
    MarkInv(st, i, size, s3Key);
    var st', e := MarkAndBind(st, i, size, s3Key), MarkCommitted(st.entries[i], size, s3Key);
    assert st'.entries[i] == e;
    forall f | f in st'.entries
      ensures (f.id == id <==> PairOf(f) == pair) && (f.id == id ==> f.committed)
    {
      var k :| 0 <= k < |st'.entries| && st'.entries[k] == f;
      if k != i {
        assert f == st.entries[k] && f in st.entries && st.entries[k].id != st.entries[i].id;
      }
    }
  }

  lemma CommitCaches(st: Store, pair: Pair, id: nat, size: int)
    requires Reserved(st, pair, id, false)
    ensures CommitStatus(st, id).Ok? && Cached(Commit(st, id, size), pair, id, st.temps[id], false)
  {
    var i := FindId(st.entries, id).value;
    assert st.entries[i] in st.entries;
    MarkCaches(Ship(st, id), i, size, Some(S3Key(id)), pair, id, st.temps[id], false);
  }

  lemma FinalizeCaches(st: Store, pair: Pair, id: nat, size: int, archive: Bytes)
    requires Reserved(st, pair, id, true) && Content(st, id, true) == Some(archive)
    ensures FindOpen(st.entries, pair).Some? && st.entries[FindOpen(st.entries, pair).value].id == id
    ensures Cached(Finalize(st, pair, size), pair, id, archive, true)
  {
    var e :| e in st.entries && e.id == id;
    var i := FindOpen(st.entries, pair).value;
    assert st.entries[i] in st.entries;
    MarkCaches(st, i, size, st.entries[i].s3Key, pair, id, archive, true);
  }

  /** A request that does not reserve the pair again, nor uploads through its URL again. */
  predicate KeepsCached(req: Request, pair: Pair, id: nat, signed: bool) {
    && (req.ReserveReq? || req.CreateReq? ==> req.pair != pair)
    && (signed && req.PutReq? ==> req.id != id)
  }

  lemma CachedAfterAllocate(st: Store, other: Pair, added: Entry, st': Store, pair: Pair, id: nat, archive: Bytes,
                            signed: bool)
    requires Cached(st, pair, id, archive, signed) && Inv(st') && other != pair
    requires added.id == st.nextId && PairOf(added) == other
    requires st'.entries == Evict(st, other).entries + [added] && st'.index == Evict(st, other).index
    requires id !in st'.temps && (id in st'.presigned <==> signed) && st'.blobs == st.blobs
      && st'.nextId == st.nextId + 1
    ensures Cached(st', pair, id, archive, signed)
  {
    var e :| e in st.entries && e.id == id;
    AllocateOther(st, other, added, st', pair, e);
    EvictOther(st, other, pair, e);
  }

  lemma CachedAfterMark(st: Store, i: nat, size: int, s3Key: Option<string>, pair: Pair, id: nat, archive: Bytes,
                        signed: bool)
    requires Cached(st, pair, id, archive, signed) && i < |st.entries| && st.entries[i].id != id
    ensures Cached(MarkAndBind(st, i, size, s3Key), pair, id, archive, signed)
  {
    MarkInv(st, i, size, s3Key);
    var e :| e in st.entries && e.id == id;
    MarkOther(st, i, size, s3Key, e);
    assert st.entries[i] in st.entries;
  }

  lemma CachedAfterShip(st: Store, other: nat, pair: Pair, id: nat, archive: Bytes, signed: bool)
    requires Cached(st, pair, id, archive, signed) && other in st.temps
    ensures Cached(Ship(st, other), pair, id, archive, signed)
  {
  }

  lemma CachedAfterCommit(st: Store, other: nat, size: int, pair: Pair, id: nat, archive: Bytes, signed: bool,
                          st': Store)
    requires Cached(st, pair, id, archive, signed) && st' == Commit(st, other, size)
    ensures Cached(st', pair, id, archive, signed)
  {
    if other in st.temps {
      var st1 := Ship(st, other);
      CachedAfterShip(st, other, pair, id, archive, signed);
      var i := FindId(st1.entries, other);
      if i.Some? {
        CachedAfterMark(st1, i.value, size, Some(S3Key(other)), pair, id, archive, signed);
      }
    }
  }

  lemma {:induction false} RebuildBinds(entries: seq<Entry>, pair: Pair, id: nat)
    requires forall e | e in entries && e.committed && PairOf(e) == pair :: e.id == id
    requires exists e :: e in entries && e.committed && PairOf(e) == pair
    ensures pair in Rebuild(entries) && Rebuild(entries)[pair] == id
  {
    var n := |entries| - 1;
    assert entries == entries[..n] + [entries[n]];
    if !(entries[n].committed && PairOf(entries[n]) == pair) {
      var e :| e in entries && e.committed && PairOf(e) == pair;
      assert e in entries[..n];
      RebuildBinds(entries[..n], pair, id);
    } else {
      assert entries[n] in entries;
    }
  }

  lemma CachedAfterRestart(st: Store, pair: Pair, id: nat, archive: Bytes, signed: bool, st': Store)
    requires Cached(st, pair, id, archive, signed) && st' == Restart(st)
    ensures Cached(st', pair, id, archive, signed)
  {
    HandleInv(st, RestartReq);
    RebuildBinds(st.entries, pair, id);
  }

  lemma CachedAfterReserve(st: Store, other: Pair, now: int, pair: Pair, id: nat, archive: Bytes, signed: bool,
                           st': Store)
    requires Cached(st, pair, id, archive, signed) && other != pair && st' == Reserve(st, other, now)
    ensures Cached(st', pair, id, archive, signed)
  {
    ReserveShape(st, other, now, st');
    CachedAfterAllocate(st, other, NewEntry(st.nextId, other, None, now), st', pair, id, archive, signed);
  }

  lemma CachedAfterCreate(st: Store, other: Pair, now: int, pair: Pair, id: nat, archive: Bytes, signed: bool,
                          st': Store)
    requires Cached(st, pair, id, archive, signed) && other != pair && st' == Create(st, other, now)
    ensures Cached(st', pair, id, archive, signed)
  {
    CreateShape(st, other, now, st');
    CachedAfterAllocate(st, other, NewEntry(st.nextId, other, Some(S3Key(st.nextId)), now), st', pair, id, archive,
                        signed);
  }

  lemma CachedAfterFinalize(st: Store, p: Pair, size: int, pair: Pair, id: nat, archive: Bytes, signed: bool,
                            st': Store)
    requires Cached(st, pair, id, archive, signed) && st' == Finalize(st, p, size)
    ensures Cached(st', pair, id, archive, signed)
  {
    var i := FindOpen(st.entries, p);
    if i.Some? {
      assert st.entries[i.value] in st.entries;
      CachedAfterMark(st, i.value, size, st.entries[i.value].s3Key, pair, id, archive, signed);
    }
  }

  lemma CachedAfterUpload(st: Store, i: nat, range: string, body: Bytes, pair: Pair, id: nat, archive: Bytes,
                          signed: bool, st': Store)
    requires Cached(st, pair, id, archive, signed) && st' == Upload(st, i, range, body)
    ensures Cached(st', pair, id, archive, signed)
  {
  }

  lemma CachedAfterPut(st: Store, i: nat, body: Bytes, pair: Pair, id: nat, archive: Bytes, signed: bool, st': Store)
    requires Cached(st, pair, id, archive, signed) && (signed ==> i != id) && st' == Put(st, i, body)
    ensures Cached(st', pair, id, archive, signed)
  {
  }

  lemma CachedStep(st: Store, req: Request, pair: Pair, id: nat, archive: Bytes, signed: bool, st': Store)
    requires Cached(st, pair, id, archive, signed) && KeepsCached(req, pair, id, signed) && st' == Handle(st, req)
    ensures Cached(st', pair, id, archive, signed)
  {
    match req
    case ReserveReq(p, now) => CachedAfterReserve(st, p, now, pair, id, archive, signed, st');
    case CreateReq(p, now) => CachedAfterCreate(st, p, now, pair, id, archive, signed, st');
    case UploadReq(i, range, body) => CachedAfterUpload(st, i, range, body, pair, id, archive, signed, st');
    case CommitReq(i, size) => CachedAfterCommit(st, i, size, pair, id, archive, signed, st');
    case FinalizeReq(p, size) => CachedAfterFinalize(st, p, size, pair, id, archive, signed, st');
    case PutReq(i, body) => CachedAfterPut(st, i, body, pair, id, archive, signed, st');
    case RestartReq => CachedAfterRestart(st, pair, id, archive, signed, st');
  }

  lemma {:induction false} CachedRun(st: Store, reqs: seq<Request>, pair: Pair, id: nat, archive: Bytes, signed: bool)
    requires Cached(st, pair, id, archive, signed) && forall req | req in reqs :: KeepsCached(req, pair, id, signed)
    ensures Cached(Serve(st, reqs), pair, id, archive, signed)
  {
    if reqs != [] {
      var before, req := reqs[..|reqs| - 1], reqs[|reqs| - 1];
      CachedRun(st, before, pair, id, archive, signed);
      CachedStep(Serve(st, before), req, pair, id, archive, signed, Serve(st, reqs));
    }
  }

  /** Both lookups of the key answer this id, and its download is the archive. */
  ghost predicate Served(st: Store, pair: Pair, id: nat, archive: Bytes, otherKeys: seq<string>) {
    var v1, v2 := LookupV1(st.entries, [pair.0] + otherKeys, pair.1), LookupV2(st.entries, pair.0, otherKeys, pair.1);
    && GetArtifact(st, id) == Ok(archive)
    && v1.Some? && st.entries[v1.value].id == id && v2 == v1
  }

  /** The pair's only entry, committed, is the exact match. */
  lemma OnlyEntryIsFound(entries: seq<Entry>, pair: Pair, id: nat)
    requires exists e :: e in entries && e.id == id
    requires forall e | e in entries && e.id == id :: PairOf(e) == pair && e.committed
    requires forall e | e in entries && PairOf(e) == pair :: e.id == id
    ensures FirstExact(entries, pair.0, pair.1).Some? && entries[FirstExact(entries, pair.0, pair.1).value].id == id
  {
    var e :| e in entries && e.id == id;
    var i :| 0 <= i < |entries| && entries[i] == e;
    assert ExactMatch(entries[i], pair.0, pair.1);
    var r := FirstExact(entries, pair.0, pair.1);
    assert entries[r.value] in entries && PairOf(entries[r.value]) == pair;
  }

  lemma CachedIsServed(st: Store, pair: Pair, id: nat, archive: Bytes, signed: bool, otherKeys: seq<string>)
    requires Cached(st, pair, id, archive, signed)
    ensures Served(st, pair, id, archive, otherKeys)
  {
    OnlyEntryIsFound(st.entries, pair, id);
    assert ([pair.0] + otherKeys)[0] == pair.0;
  }

  // ---- End to end ----

  /**
   v1: reserve a pair with no reservation outstanding; while other requests of any kind
   (restarts included) come in between, upload chunks of an archive that together cover it;
   commit.  The commit succeeds, and after any further requests short of reserving the pair
   again, both lookups return the id and the download is the archive.
   */
  lemma SavedArchiveIsRestored(st: Store, pair: Pair, now: int, during: seq<Request>, size: int, after: seq<Request>,
                               archive: Bytes, otherKeys: seq<string>)
    requires Free(st, pair)
    requires forall req | req in during :: LeavesOpen(req, pair, st.nextId, false)
    requires AllSlices(ChunksFor(during, st.nextId), archive)
    requires forall p: nat | p < |archive| :: Touched(ChunksFor(during, st.nextId), p)
    requires forall req | req in after :: KeepsCached(req, pair, st.nextId, false)
    ensures var uploaded := Serve(Reserve(st, pair, now), during);
      && CommitStatus(uploaded, st.nextId).Ok?
      && Served(Serve(Commit(uploaded, st.nextId, size), after), pair, st.nextId, archive, otherKeys)
  {
    var id := st.nextId;
    ReserveReserves(st, pair, now);
    ReservedRun(Reserve(st, pair, now), during, pair, id);
    AssembleIsArchive(ChunksFor(during, id), archive);
    var uploaded := Serve(Reserve(st, pair, now), during);
    CommitCaches(uploaded, pair, id, size);
    CachedRun(Commit(uploaded, id, size), after, pair, id, archive, false);
    CachedIsServed(Serve(Commit(uploaded, id, size), after), pair, id, archive, false, otherKeys);
  }

  /**
   v2: create an entry for a pair with no reservation outstanding; amid any other requests
   upload the archive through the URL; finalize.  Finalizing answers the id created, and
   after any further requests that neither reserve the pair nor use the URL again, both
   lookups return it and the download is the archive.
   */
  lemma SignedArchiveIsRestored(st: Store, pair: Pair, now: int, during: seq<Request>, size: int, after: seq<Request>,
                                archive: Bytes, otherKeys: seq<string>)
    requires Free(st, pair)
    requires forall req | req in during :: LeavesOpen(req, pair, st.nextId, true)
    requires LastPut(during, st.nextId) == Some(archive)
    requires forall req | req in after :: KeepsCached(req, pair, st.nextId, true)
    ensures var uploaded := Serve(Create(st, pair, now), during);
      var i := FindOpen(uploaded.entries, pair);
      && i.Some? && uploaded.entries[i.value].id == st.nextId
      && Served(Serve(Finalize(uploaded, pair, size), after), pair, st.nextId, archive, otherKeys)
  {
    var id := st.nextId;
    CreateReserves(st, pair, now);
    SignedRun(Create(st, pair, now), during, pair, id);
    var uploaded := Serve(Create(st, pair, now), during);
    FinalizeCaches(uploaded, pair, id, size, archive);
    CachedRun(Finalize(uploaded, pair, size), after, pair, id, archive, true);
    CachedIsServed(Serve(Finalize(uploaded, pair, size), after), pair, id, archive, true, otherKeys);
  }
}
