/**
 The state of the cache service and its request handlers as functions, each handler run
 as a whole.  S3 and the temporary directory are maps from entry id to bytes; the index
 file on disk is the list of entries last saved.  I/O does not fail.
 */
module CacheStore {
  import opened Wrappers
  import opened Text
  import opened CacheLookup
  import opened CacheChunks

  type Pair = (string, string)

  function PairOf(e: Entry): Pair { (e.key, e.version) }

  function S3Key(id: nat): string { "cache/" + Decimal(id) }

  datatype Status = BadRequest | NotFound

  datatype Store = Store(
    entries: seq<Entry>,
    index: map<Pair, nat>,
    nextId: nat,
    temps: map<nat, Bytes>,
    blobs: map<nat, Bytes>,
    presigned: set<nat>,       // ids for which a pre-signed upload URL was handed out
    disk: seq<Entry>)

  function Empty(): Store { Store([], map[], 1, map[], map[], {}, []) }

  // ---- Operations on the entry list ----

  /** `retain(|e| e.id != id)`. */
  function Without(entries: seq<Entry>, id: nat): seq<Entry> {
    if entries == [] then []
    else
      var n := |entries| - 1;
      Without(entries[..n], id) + if entries[n].id == id then [] else [entries[n]]
  }

  /** The first entry with this id. */
  function FindId(entries: seq<Entry>, id: nat): (r: Option<nat>)
    ensures r.None? ==> forall i | 0 <= i < |entries| :: entries[i].id != id
    ensures r.Some? ==> r.value < |entries| && entries[r.value].id == id
  {
    if entries == [] then None
    else
      var n := |entries| - 1;
      var earlier := FindId(entries[..n], id);
      if earlier.Some? then earlier else if entries[n].id == id then Some(n) else None
  }

  /** The first uncommitted entry of this key and version. */
  function FindOpen(entries: seq<Entry>, pair: Pair): (r: Option<nat>)
    ensures r.None? ==> forall i | 0 <= i < |entries| :: PairOf(entries[i]) == pair ==> entries[i].committed
    ensures r.Some? ==> r.value < |entries| && PairOf(entries[r.value]) == pair && !entries[r.value].committed
    ensures r.Some? ==> forall i | 0 <= i < r.value :: PairOf(entries[i]) == pair ==> entries[i].committed
  {
    if entries == [] then None
    else
      var n := |entries| - 1;
      var earlier := FindOpen(entries[..n], pair);
      if earlier.Some? then earlier
      else if PairOf(entries[n]) == pair && !entries[n].committed then Some(n)
      else None
  }

  function MaxId(entries: seq<Entry>): nat {
    if entries == [] then 0
    else
      var n := |entries| - 1;
      if MaxId(entries[..n]) < entries[n].id then entries[n].id else MaxId(entries[..n])
  }

  /** The index a restart builds: later committed entries override earlier ones. */
  function Rebuild(entries: seq<Entry>): map<Pair, nat> {
    if entries == [] then map[]
    else
      var n := |entries| - 1;
      var earlier := Rebuild(entries[..n]);
      if entries[n].committed then earlier[PairOf(entries[n]) := entries[n].id] else earlier
  }

  // ---- Handlers ----

  /** Drop the committed entry of this pair, if the index knows one. */
  function Evict(st: Store, pair: Pair): Store {
    if pair in st.index then st.(index := st.index - {pair}, entries := Without(st.entries, st.index[pair])) else st
  }

  function Saved(st: Store): Store { st.(disk := st.entries) }

  function NewEntry(id: nat, pair: Pair, s3Key: Option<string>, now: int): Entry {
    Entry(id, pair.0, pair.1, false, 0, s3Key, now)
  }

  /** v1 reserve: the new id is the store's `nextId`. */
  function Reserve(st: Store, pair: Pair, now: int): Store {
    var st1 := Evict(st, pair);
    var id := st1.nextId;
    Saved(st1.(nextId := id + 1, temps := st1.temps[id := []],
               entries := st1.entries + [NewEntry(id, pair, None, now)]))
  }

  /** v2 create: no temporary file, but a pre-signed upload URL. */
  function Create(st: Store, pair: Pair, now: int): Store {
    var st1 := Evict(st, pair);
    var id := st1.nextId;
    Saved(st1.(nextId := id + 1, presigned := st1.presigned + {id},
               entries := st1.entries + [NewEntry(id, pair, Some(S3Key(id)), now)]))
  }

  function UploadStatus(st: Store, id: nat, range: string): Result<nat, Status> {
    var start := ParseContentRangeStart(range);
    if start.None? then Err(BadRequest) else if id !in st.temps then Err(NotFound) else Ok(start.value)
  }

  function Upload(st: Store, id: nat, range: string, body: Bytes): Store {
    var status := UploadStatus(st, id, range);
    if status.Err? then st else st.(temps := st.temps[id := WriteAt(st.temps[id], status.value, body)])
  }

  function MarkCommitted(e: Entry, size: int, s3Key: Option<string>): Entry {
    e.(committed := true, size := size, s3Key := s3Key)
  }

  /** Mark entry `i` committed and bind its pair to it. */
  function MarkAndBind(st: Store, i: nat, size: int, s3Key: Option<string>): Store
    requires i < |st.entries|
  {
    var e := MarkCommitted(st.entries[i], size, s3Key);
    Saved(st.(entries := st.entries[i := e], index := st.index[PairOf(e) := e.id]))
  }

  /** The temporary file goes to S3 and is removed. */
  function Ship(st: Store, id: nat): Store
    requires id in st.temps
  {
    st.(blobs := st.blobs[id := st.temps[id]], temps := st.temps - {id})
  }

  function CommitStatus(st: Store, id: nat): Result<nat, Status> {
    if id !in st.temps then Err(NotFound)
    else if FindId(st.entries, id).None? then Err(NotFound)
    else Ok(FindId(st.entries, id).value)
  }

  /** v1 commit; the upload happens even if the entry turns out to be gone. */
  function Commit(st: Store, id: nat, size: int): Store {
    if id !in st.temps then st
    else
      var st1 := Ship(st, id);
      var i := FindId(st1.entries, id);
      if i.None? then st1 else MarkAndBind(st1, i.value, size, Some(S3Key(id)))
  }

  /** v2 finalize: the oldest uncommitted entry of the pair. */
  function Finalize(st: Store, pair: Pair, size: int): Store {
    var i := FindOpen(st.entries, pair);
    if i.None? then st else MarkAndBind(st, i.value, size, st.entries[i.value].s3Key)
  }

  /** A client uploads straight to S3, which needs a pre-signed URL for that id. */
  function Put(st: Store, id: nat, body: Bytes): Store {
    if id in st.presigned then st.(blobs := st.blobs[id := body]) else st
  }

  function GetArtifact(st: Store, id: nat): Result<Bytes, Status> {
    if id in st.blobs then Ok(st.blobs[id]) else Err(NotFound)
  }

  function OpenIds(entries: seq<Entry>): set<nat> { set e | e in entries && !e.committed :: e.id }

  /** Process restart: reload the saved entries, rebuild the index and the counter, drop stale temporary files. */
  function Restart(st: Store): Store {
    Store(st.disk, Rebuild(st.disk), MaxId(st.disk) + 1,
          map id | id in st.temps && id in OpenIds(st.disk) :: st.temps[id],
          st.blobs, st.presigned, st.disk)
  }

  datatype Request =
    | ReserveReq(pair: Pair, now: int)
    | CreateReq(pair: Pair, now: int)
    | UploadReq(id: nat, range: string, body: Bytes)
    | CommitReq(id: nat, size: int)
    | FinalizeReq(pair: Pair, size: int)
    | PutReq(id: nat, body: Bytes)
    | RestartReq

  function Handle(st: Store, req: Request): Store {
    match req
    case ReserveReq(pair, now) => Reserve(st, pair, now)
    case CreateReq(pair, now) => Create(st, pair, now)
    case UploadReq(id, range, body) => Upload(st, id, range, body)
    case CommitReq(id, size) => Commit(st, id, size)
    case FinalizeReq(pair, size) => Finalize(st, pair, size)
    case PutReq(id, body) => Put(st, id, body)
    case RestartReq => Restart(st)
  }

  function Serve(st: Store, reqs: seq<Request>): Store {
    if reqs == [] then st else Handle(Serve(st, reqs[..|reqs| - 1]), reqs[|reqs| - 1])
  }

  // ---- The invariant of every run ----

  ghost predicate Ascending(entries: seq<Entry>) {
    forall i, j | 0 <= i < j < |entries| :: entries[i].id < entries[j].id
  }

  /** Every binding names a present committed entry of exactly that key and version. */
  ghost predicate IndexSound(entries: seq<Entry>, index: map<Pair, nat>) {
    forall pair | pair in index :: exists e :: e in entries && e.id == index[pair] && e.committed && PairOf(e) == pair
  }

  /** Ids ascend below `nextId`, and the last entry holds the last id handed out. */
  ghost predicate IdsExact(entries: seq<Entry>, nextId: nat) {
    && Ascending(entries)
    && nextId == MaxId(entries) + 1
    && (forall e | e in entries :: 1 <= e.id < nextId)
  }

  ghost predicate Inv(st: Store) {
    && IdsExact(st.entries, st.nextId)
    && IndexSound(st.entries, st.index)
    && st.disk == st.entries
    && (forall id | id in st.temps :: id < st.nextId)
    && (forall id | id in st.presigned :: id < st.nextId)
  }

  lemma {:induction false} WithoutMembers(entries: seq<Entry>, id: nat, e: Entry)
    ensures e in Without(entries, id) <==> e in entries && e.id != id
  {
    if entries != [] {
      var n := |entries| - 1;
      WithoutMembers(entries[..n], id, e);
      assert entries == entries[..n] + [entries[n]];
    }
  }

  lemma {:induction false} WithoutAscending(entries: seq<Entry>, id: nat)
    requires Ascending(entries)
    ensures Ascending(Without(entries, id))
  {
    if entries != [] {
      var n := |entries| - 1;
      var rest := Without(entries[..n], id);
      WithoutAscending(entries[..n], id);
      forall i | 0 <= i < |rest|
        ensures rest[i].id < entries[n].id
      {
        WithoutMembers(entries[..n], id, rest[i]);
        var k :| 0 <= k < n && entries[..n][k] == rest[i];
        assert entries[k].id < entries[n].id;
      }
    }
  }

  /** Appending an entry with the next id keeps the ids exact. */
  lemma AppendIds(entries: seq<Entry>, e: Entry)
    requires Ascending(entries) && (forall f | f in entries :: 1 <= f.id < e.id)
    requires e.id >= 1
    ensures IdsExact(entries + [e], e.id + 1)
  {
    AppendMaxId(entries, e);
    AppendAscending(entries, e);
  }

  lemma AppendMaxId(entries: seq<Entry>, e: Entry)
    requires e.id >= 1 && forall f | f in entries :: f.id < e.id
    ensures MaxId(entries + [e]) == e.id
  {
    var longer := entries + [e];
    assert longer[..|longer| - 1] == entries;
    MaxIdBound(entries, e.id);
  }

  lemma AppendAscending(entries: seq<Entry>, e: Entry)
    requires Ascending(entries) && (forall f | f in entries :: f.id < e.id)
    ensures Ascending(entries + [e])
  {
    forall i | 0 <= i < |entries|
      ensures entries[i].id < e.id
    {
      assert entries[i] in entries;
    }
  }

  lemma {:induction false} MaxIdBound(entries: seq<Entry>, bound: nat)
    requires bound > 0 && forall f | f in entries :: f.id < bound
    ensures MaxId(entries) < bound
  {
    if entries != [] {
      MaxIdBound(entries[..|entries| - 1], bound);
    }
  }

  /** In ascending entries the last one has the largest id. */
  lemma MaxIsLast(entries: seq<Entry>)
    requires Ascending(entries)
    ensures MaxId(entries) == if entries == [] then 0 else entries[|entries| - 1].id
  {
    if entries != [] {
      var n := |entries| - 1;
      forall f | f in entries[..n]
        ensures f.id < entries[n].id
      {
        var k :| 0 <= k < n && entries[..n][k] == f;
        assert entries[k].id < entries[n].id;
      }
      if n > 0 {
        MaxIdBound(entries[..n], entries[n].id);
      }
    }
  }

  /** Marking an entry changes neither ids nor pairs. */
  lemma {:induction false} MarkMaxId(entries: seq<Entry>, i: nat, e: Entry)
    requires i < |entries| && e.id == entries[i].id
    ensures MaxId(entries[i := e]) == MaxId(entries)
  {
    var n := |entries| - 1;
    if i == n {
      assert entries[i := e][..n] == entries[..n];
    } else {
      assert entries[i := e][..n] == entries[..n][i := e];
      MarkMaxId(entries[..n], i, e);
    }
  }

  lemma UniqueIds(entries: seq<Entry>, e: Entry, f: Entry)
    requires Ascending(entries) && e in entries && f in entries && e.id == f.id
    ensures e == f
  {
    var i :| 0 <= i < |entries| && entries[i] == e;
    var j :| 0 <= j < |entries| && entries[j] == f;
    assert i == j;
  }

  lemma EvictSound(st: Store, pair: Pair)
    requires Inv(st)
    ensures var st1 := Evict(st, pair);
      && Ascending(st1.entries) && IndexSound(st1.entries, st1.index) && pair !in st1.index
      && (forall e | e in st1.entries :: e in st.entries)
      && st1.nextId == st.nextId && st1.temps == st.temps && st1.blobs == st.blobs && st1.presigned == st.presigned
  {
    if pair in st.index {
      var st1, oldId := Evict(st, pair), st.index[pair];
      WithoutAscending(st.entries, oldId);
      forall e | e in st1.entries
        ensures e in st.entries
      {
        WithoutMembers(st.entries, oldId, e);
      }
      forall p | p in st1.index
        ensures exists e :: e in st1.entries && e.id == st1.index[p] && e.committed && PairOf(e) == p
      {
        var e :| e in st.entries && e.id == st.index[p] && e.committed && PairOf(e) == p;
        var o :| o in st.entries && o.id == oldId && o.committed && PairOf(o) == pair;
        if e.id == oldId {
          UniqueIds(st.entries, e, o);
        }
        WithoutMembers(st.entries, oldId, e);
      }
    }
  }

  lemma AllocateInv(st: Store, pair: Pair, e: Entry, st': Store)
    requires Inv(st) && e.id == st.nextId && PairOf(e) == pair && !e.committed
    requires st'.entries == Evict(st, pair).entries + [e] && st'.index == Evict(st, pair).index
    requires st'.nextId == st.nextId + 1 && st'.disk == st'.entries
    requires forall id | id in st'.temps :: id < st'.nextId
    requires forall id | id in st'.presigned :: id < st'.nextId
    ensures Inv(st')
  {
    EvictSound(st, pair);
    var st1 := Evict(st, pair);
    AppendIds(st1.entries, e);
    forall p | p in st'.index
      ensures exists f :: f in st'.entries && f.id == st'.index[p] && f.committed && PairOf(f) == p
    {
      var f :| f in st1.entries && f.id == st1.index[p] && f.committed && PairOf(f) == p;
      assert f in st'.entries;
    }
  }

  lemma MarkIds(entries: seq<Entry>, i: nat, e: Entry, nextId: nat)
    requires IdsExact(entries, nextId) && i < |entries| && e.id == entries[i].id
    ensures IdsExact(entries[i := e], nextId)
  {
    MarkMaxId(entries, i, e);
    forall f | f in entries[i := e]
      ensures 1 <= f.id < nextId
    {
      var k :| 0 <= k < |entries| && entries[i := e][k] == f;
      assert entries[k] in entries && f.id == entries[k].id;
    }
  }

  lemma MarkSound(entries: seq<Entry>, index: map<Pair, nat>, i: nat, e: Entry)
    requires IndexSound(entries, index) && i < |entries| && e.committed
    requires e.id == entries[i].id && PairOf(e) == PairOf(entries[i])
    ensures IndexSound(entries[i := e], index[PairOf(e) := e.id])
  {
    var marked, index' := entries[i := e], index[PairOf(e) := e.id];
    assert marked[i] == e;
    forall p | p in index'
      ensures exists f :: f in marked && f.id == index'[p] && f.committed && PairOf(f) == p
    {
      if p != PairOf(e) {
        var f :| f in entries && f.id == index[p] && f.committed && PairOf(f) == p;
        var k :| 0 <= k < |entries| && entries[k] == f;
        assert marked[k] == f;
      }
    }
  }

  lemma MarkInv(st: Store, i: nat, size: int, s3Key: Option<string>)
    requires Inv(st) && i < |st.entries|
    ensures Inv(MarkAndBind(st, i, size, s3Key))
  {
    var e := MarkCommitted(st.entries[i], size, s3Key);
    MarkIds(st.entries, i, e, st.nextId);
    MarkSound(st.entries, st.index, i, e);
  }

  lemma CommitInv(st: Store, id: nat, size: int)
    requires Inv(st)
    ensures Inv(Commit(st, id, size))
  {
    if id in st.temps {
      var st1 := Ship(st, id);
      assert Inv(st1);
      var i := FindId(st1.entries, id);
      if i.Some? {
        MarkInv(st1, i.value, size, Some(S3Key(id)));
      }
    }
  }

  lemma {:induction false} RebuildSound(entries: seq<Entry>)
    ensures IndexSound(entries, Rebuild(entries))
  {
    if entries != [] {
      var n := |entries| - 1;
      RebuildSound(entries[..n]);
      assert entries == entries[..n] + [entries[n]];
      forall p | p in Rebuild(entries)
        ensures exists e :: e in entries && e.id == Rebuild(entries)[p] && e.committed && PairOf(e) == p
      {
        if entries[n].committed && PairOf(entries[n]) == p {
          assert entries[n] in entries;
        } else {
          var e :| e in entries[..n] && e.id == Rebuild(entries[..n])[p] && e.committed && PairOf(e) == p;
          assert e in entries;
        }
      }
    }
  }

  lemma ReserveInv(st: Store, pair: Pair, now: int)
    requires Inv(st)
    ensures Inv(Reserve(st, pair, now))
  {
    AllocateInv(st, pair, NewEntry(st.nextId, pair, None, now), Reserve(st, pair, now));
  }

  lemma CreateInv(st: Store, pair: Pair, now: int)
    requires Inv(st)
    ensures Inv(Create(st, pair, now))
  {
    AllocateInv(st, pair, NewEntry(st.nextId, pair, Some(S3Key(st.nextId)), now), Create(st, pair, now));
  }

  lemma FinalizeInv(st: Store, pair: Pair, size: int)
    requires Inv(st)
    ensures Inv(Finalize(st, pair, size))
  {
    var i := FindOpen(st.entries, pair);
    if i.Some? {
      MarkInv(st, i.value, size, st.entries[i.value].s3Key);
    }
  }

  lemma RestartInv(st: Store)
    requires Inv(st)
    ensures Inv(Restart(st))
  {
    RebuildSound(st.disk);
  }

  lemma HandleInv(st: Store, req: Request)
    requires Inv(st)
    ensures Inv(Handle(st, req))
  {
    match req
    case ReserveReq(pair, now) => ReserveInv(st, pair, now);
    case CreateReq(pair, now) => CreateInv(st, pair, now);
    case UploadReq(id, range, body) =>
    case CommitReq(id, size) => CommitInv(st, id, size);
    case FinalizeReq(pair, size) => FinalizeInv(st, pair, size);
    case PutReq(id, body) =>
    case RestartReq => RestartInv(st);
  }

  /** In every run from an empty service: ids are exact and the index is sound. */
  lemma {:induction false} ServeInv(st: Store, reqs: seq<Request>)
    requires Inv(st)
    ensures Inv(Serve(st, reqs))
  {
    if reqs != [] {
      ServeInv(st, reqs[..|reqs| - 1]);
      HandleInv(Serve(st, reqs[..|reqs| - 1]), reqs[|reqs| - 1]);
    }
  }

  // ---- What the operations leave, told without them ----

  /** Evicting a pair drops its binding and the entry bound, and nothing else. */
  lemma EvictShape(st: Store, pair: Pair)
    ensures var st1 := Evict(st, pair);
      && st1 == st.(index := st.index - {pair}, entries := st1.entries)
      && forall e :: e in st1.entries <==> e in st.entries && !(pair in st.index && e.id == st.index[pair])
  {
    if pair in st.index {
      forall e
        ensures e in Without(st.entries, st.index[pair]) <==> e in st.entries && e.id != st.index[pair]
      {
        WithoutMembers(st.entries, st.index[pair], e);
      }
    } else {
      assert st.index - {pair} == st.index;
    }
  }

  /** No entry from this one on is a committed one of the pair. */
  predicate NoneCommittedFrom(entries: seq<Entry>, from: nat, pair: Pair) {
    forall k | from <= k < |entries| :: !(entries[k].committed && (entries[k].key, entries[k].version) == pair)
  }

  /** The index binds each pair to its last committed entry. */
  ghost predicate BindsLast(entries: seq<Entry>, index: map<Pair, nat>) {
    forall pair: Pair ::
      && (pair !in index ==> NoneCommittedFrom(entries, 0, pair))
      && (pair in index ==> exists i | 0 <= i < |entries| ::
            && entries[i].committed && (entries[i].key, entries[i].version) == pair
            && index[pair] == entries[i].id && NoneCommittedFrom(entries, i + 1, pair))
  }

  lemma {:induction false} RebuildBindsLast(entries: seq<Entry>)
    ensures BindsLast(entries, Rebuild(entries))
  {
    if entries != [] {
      var n := |entries| - 1;
      RebuildBindsLast(entries[..n]);
      forall pair: Pair | pair in Rebuild(entries)
        ensures exists i | 0 <= i < |entries| ::
          && entries[i].committed && (entries[i].key, entries[i].version) == pair
          && Rebuild(entries)[pair] == entries[i].id && NoneCommittedFrom(entries, i + 1, pair)
      {
        if entries[n].committed && PairOf(entries[n]) == pair {
          assert NoneCommittedFrom(entries, n + 1, pair);
        } else {
          var i :| 0 <= i < n && entries[..n][i].committed
            && (entries[..n][i].key, entries[..n][i].version) == pair
            && Rebuild(entries[..n])[pair] == entries[..n][i].id && NoneCommittedFrom(entries[..n], i + 1, pair);
          NoneFromLonger(entries, n, i + 1, pair);
        }
      }
      forall pair: Pair | pair !in Rebuild(entries)
        ensures NoneCommittedFrom(entries, 0, pair)
      {
        NoneFromLonger(entries, n, 0, pair);
      }
    }
  }

  lemma NoneFromLonger(entries: seq<Entry>, n: nat, from: nat, pair: Pair)
    requires n + 1 == |entries| && NoneCommittedFrom(entries[..n], from, pair)
    requires !(entries[n].committed && PairOf(entries[n]) == pair)
    ensures NoneCommittedFrom(entries, from, pair)
  {
    forall k | from <= k < |entries|
      ensures !(entries[k].committed && (entries[k].key, entries[k].version) == pair)
    {
      assert k < n ==> entries[k] == entries[..n][k];
    }
  }

  /** The id counter starts above every id, right after the largest. */
  lemma {:induction false} MaxIdIsLargest(entries: seq<Entry>)
    ensures forall e | e in entries :: e.id <= MaxId(entries)
    ensures MaxId(entries) == 0 || exists e :: e in entries && e.id == MaxId(entries)
  {
    if entries != [] {
      var n := |entries| - 1;
      MaxIdIsLargest(entries[..n]);
      assert entries == entries[..n] + [entries[n]] && entries[n] in entries;
      if MaxId(entries) == MaxId(entries[..n]) && MaxId(entries) > 0 {
        var e :| e in entries[..n] && e.id == MaxId(entries[..n]);
        assert e in entries;
      }
    }
  }
}
