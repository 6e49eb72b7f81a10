/** The cache service as an object: each handler updates the shared fields step by step. */
module CacheServer {
  import opened Wrappers
  import opened Text
  import opened CacheLookup
  import opened CacheChunks
  import opened CacheStore

  /** The loop that rebuilds the exact-match index from the saved entries. */
  method BuildIndex(entries: seq<Entry>) returns (index: map<Pair, nat>)
    ensures index == Rebuild(entries)
    ensures BindsLast(entries, index)
  {
    index := map[];
    for i := 0 to |entries|
      invariant index == Rebuild(entries[..i])
    {
      assert entries[..i + 1][..i] == entries[..i];
      if entries[i].committed {
        index := index[PairOf(entries[i]) := entries[i].id];
      }
    }
    assert entries[..|entries|] == entries;
    RebuildBindsLast(entries);
  }

  class CacheState {
    var entries: seq<Entry>
    var keyIndex: map<Pair, nat>
    var nextId: nat
    var temps: map<nat, Bytes>      // the temporary directory
    var blobs: map<nat, Bytes>      // the S3 bucket
    var presigned: set<nat>         // pre-signed upload URLs in the clients' hands
    var indexFile: seq<Entry>

    ghost function View(): Store
      reads this
    {
      Store(entries, keyIndex, nextId, temps, blobs, presigned, indexFile)
    }

    /** Start, or restart after `before` stopped at any point: only its files and S3 are left. */
    constructor (ghost before: Store, saved: seq<Entry>, files: map<nat, Bytes>, bucket: map<nat, Bytes>,
                 urls: set<nat>)
      requires saved == before.disk && files == before.temps && bucket == before.blobs && urls == before.presigned
      ensures View() == Restart(before)
      ensures entries == indexFile == before.disk && blobs == before.blobs && presigned == before.presigned
      ensures BindsLast(entries, keyIndex)
      ensures forall e | e in entries :: e.id < nextId
      ensures nextId == 1 || exists e :: e in entries && e.id == nextId - 1
      ensures forall id :: id in temps <==> id in before.temps && exists e :: e in entries && !e.committed && e.id == id
      ensures forall id | id in temps :: temps[id] == before.temps[id]
    {
      var index := BuildIndex(saved);
      entries, indexFile := saved, saved;
      nextId := MaxId(saved) + 1;
      keyIndex := index;
      temps, blobs, presigned := files, bucket, urls;
      new;
      CleanupStaleTemps();
      MaxIdIsLargest(saved);
    }

    /** Remove temporary files without a matching uncommitted entry. */
    method CleanupStaleTemps()
      modifies this`temps
      ensures temps == map id | id in old(temps) && id in OpenIds(entries) :: old(temps)[id]
      ensures forall id :: id in temps <==> id in old(temps) && exists e :: e in entries && !e.committed && e.id == id
    {
      var reserved := OpenIds(entries);
      var listing := temps.Keys;
      while listing != {}
        invariant listing <= temps.Keys <= old(temps).Keys
        invariant forall id | id in old(temps) :: id in temps <==> id in listing || id in reserved
        invariant forall id | id in temps :: temps[id] == old(temps)[id]
        decreases listing
      {
        var id :| id in listing;
        if id !in reserved {
          temps := temps - {id};
        }
        listing := listing - {id};
      }
    }

    method SaveIndex()
      modifies this`indexFile
      ensures View() == Saved(old(View()))
    {
      indexFile := entries;
    }

    /** Remove the committed entry of this pair, so that a new save replaces it. */
    method RemoveExisting(pair: Pair)
      modifies this`entries, this`keyIndex
      ensures View() == Evict(old(View()), pair)
    {
      if pair in keyIndex {
        var oldId := keyIndex[pair];
        keyIndex := keyIndex - {pair};
        entries := Without(entries, oldId);
      }
    }

    method ReserveCache(pair: Pair, now: int) returns (id: nat)
      modifies this
      ensures id == old(nextId) && View() == Reserve(old(View()), pair, now)
      ensures entries != [] && entries[|entries| - 1] == Entry(id, pair.0, pair.1, false, 0, None, now)
      ensures forall e :: e in entries[..|entries| - 1] <==>
        e in old(entries) && !(pair in old(keyIndex) && e.id == old(keyIndex)[pair])
      ensures keyIndex == old(keyIndex) - {pair} && nextId == old(nextId) + 1 && temps == old(temps)[id := []]
      ensures blobs == old(blobs) && presigned == old(presigned) && indexFile == entries
    {
      EvictShape(View(), pair);
      RemoveExisting(pair);
      id := nextId;
      nextId := nextId + 1;
      var entry := NewEntry(id, pair, None, now);
      temps := temps[id := []];
      entries := entries + [entry];
      SaveIndex();
    }

    method UploadChunk(id: nat, range: string, body: Bytes) returns (status: Result<nat, Status>)
      modifies this`temps
      ensures status == UploadStatus(old(View()), id, range) && View() == Upload(old(View()), id, range, body)
      ensures status == match ParseContentRangeStart(range)
        case None => Err(BadRequest)
        case Some(start) => if id in old(temps) then Ok(start) else Err(NotFound)
      ensures status.Err? ==> temps == old(temps)
      ensures status.Ok? ==>
        && id in temps && temps == old(temps)[id := temps[id]]
        && Overwritten(old(temps)[id], status.value, body, temps[id])
    {
      var start := ParseContentRangeStart(range);
      if start.None? {
        return Err(BadRequest);
      }
      if id !in temps {
        return Err(NotFound);
      }
      WriteAtOverwrites(temps[id], start.value, body);
      temps := temps[id := WriteAt(temps[id], start.value, body)];
      return Ok(start.value);
    }

    method CommitCache(id: nat, size: int) returns (status: Result<nat, Status>)
      modifies this
      ensures status == CommitStatus(old(View()), id) && View() == Commit(old(View()), id, size)
      ensures id !in old(temps) ==> status == Err(NotFound) && View() == old(View())
      ensures id in old(temps) ==> temps == old(temps) - {id} && blobs == old(blobs)[id := old(temps)[id]]
      ensures id in old(temps) && status.Err? ==>
        && status == Err(NotFound) && (forall e | e in old(entries) :: e.id != id)
        && entries == old(entries) && keyIndex == old(keyIndex) && indexFile == old(indexFile)
      ensures status.Ok? ==>
        && status.value < |old(entries)|
        && var e := old(entries)[status.value];
        && e.id == id
        && entries == old(entries)[status.value :=
             Entry(id, e.key, e.version, true, size, Some("cache/" + Decimal(id)), e.createdAt)]
        && keyIndex == old(keyIndex)[(e.key, e.version) := id] && indexFile == entries
      ensures nextId == old(nextId) && presigned == old(presigned)
    {
      if id !in temps {
        return Err(NotFound);
      }
      blobs := blobs[id := temps[id]];
      temps := temps - {id};
      var position := FindId(entries, id);
      if position.None? {
        return Err(NotFound);
      }
      var entry := MarkCommitted(entries[position.value], size, Some(S3Key(id)));
      entries := entries[position.value := entry];
      keyIndex := keyIndex[PairOf(entry) := id];
      SaveIndex();
      return Ok(position.value);
    }

    /** The archive of an entry, straight from S3. */
    method GetArtifact(id: nat) returns (archive: Result<Bytes, Status>)
      ensures archive == CacheStore.GetArtifact(View(), id)
      ensures if id in blobs then archive == Ok(blobs[id]) else archive == Err(NotFound)
    {
      if id in blobs {
        return Ok(blobs[id]);
      }
      return Err(NotFound);
    }

    /** v1 lookup: an exact match for any of the keys, then the newest prefix match. */
    method LookupCache(query: string, version: string) returns (hit: Option<nat>)
      ensures hit == LookupV1(entries, KeysOf(query), version)
      ensures hit.Some? ==> hit.value < |entries|
    {
      var keys := KeysOf(query);
      for i := 0 to |keys|
        invariant ExactAny(entries, keys, version) == ExactAny(entries, keys[i..], version)
      {
        hit := FirstExact(entries, keys[i], version);
        if hit.Some? {
          return;
        }
      }
      hit := PrefixLoop(keys, version);
    }

    /** The loop over prefixes that both lookups end with. */
    method PrefixLoop(keys: seq<string>, version: string) returns (hit: Option<nat>)
      ensures hit == PrefixAny(entries, keys, version)
    {
      for i := 0 to |keys|
        invariant PrefixAny(entries, keys, version) == PrefixAny(entries, keys[i..], version)
      {
        hit := BestPrefix(entries, keys[i], version);
        if hit.Some? {
          return;
        }
      }
      hit := None;
    }

    method TwirpCreateCacheEntry(pair: Pair, now: int) returns (id: nat)
      modifies this
      ensures id == old(nextId) && View() == Create(old(View()), pair, now)
      ensures entries != []
        && entries[|entries| - 1] == Entry(id, pair.0, pair.1, false, 0, Some("cache/" + Decimal(id)), now)
      ensures forall e :: e in entries[..|entries| - 1] <==>
        e in old(entries) && !(pair in old(keyIndex) && e.id == old(keyIndex)[pair])
      ensures keyIndex == old(keyIndex) - {pair} && nextId == old(nextId) + 1 && presigned == old(presigned) + {id}
      ensures blobs == old(blobs) && temps == old(temps) && indexFile == entries
    {
      EvictShape(View(), pair);
      RemoveExisting(pair);
      id := nextId;
      nextId := nextId + 1;
      entries := entries + [NewEntry(id, pair, Some(S3Key(id)), now)];
      SaveIndex();
      presigned := presigned + {id};
    }

    /** Commits the oldest uncommitted entry of the pair; answers its id. */
    method TwirpFinalizeCacheEntry(pair: Pair, size: int) returns (entryId: Result<nat, Status>)
      modifies this
      ensures View() == Finalize(old(View()), pair, size)
      ensures entryId ==
        var i := FindOpen(old(entries), pair); if i.Some? then Ok(old(entries)[i.value].id) else Err(NotFound)
      ensures entryId.Err? ==>
        && View() == old(View())
        && forall e | e in old(entries) && e.key == pair.0 && e.version == pair.1 :: e.committed
      ensures entryId.Ok? ==> exists i | 0 <= i < |old(entries)| ::
        var e := old(entries)[i];
        && e.id == entryId.value && (e.key, e.version) == pair && !e.committed
        && (forall k | 0 <= k < i && (old(entries)[k].key, old(entries)[k].version) == pair ::
              old(entries)[k].committed)
        && entries == old(entries)[i := Entry(e.id, e.key, e.version, true, size, e.s3Key, e.createdAt)]
      ensures entryId.Ok? ==> keyIndex == old(keyIndex)[pair := entryId.value] && indexFile == entries
      ensures nextId == old(nextId) && temps == old(temps) && blobs == old(blobs) && presigned == old(presigned)
    {
      var i := FindOpen(entries, pair);
      if i.None? {
        return Err(NotFound);
      }
      var entry := MarkCommitted(entries[i.value], size, entries[i.value].s3Key);
      entries := entries[i.value := entry];
      keyIndex := keyIndex[PairOf(entry) := entry.id];
      SaveIndex();
      return Ok(entry.id);
    }

    method TwirpGetDownloadUrl(key: string, restoreKeys: seq<string>, version: string) returns (hit: Option<nat>)
      ensures hit == LookupV2(entries, key, restoreKeys, version)
      ensures hit.Some? ==> hit.value < |entries|
    {
      hit := FirstExact(entries, key, version);
      if hit.None? {
        hit := PrefixLoop(restoreKeys, version);
      }
    }
  }
}
