/**
 The cache service under concurrency: any number of requests in flight, each split where it
 releases a lock, and a restart that may strike between any two such pieces.  Uploads and S3
 play no part here; `CacheFiles` adds them.
 */
module CacheInterleaved {
  import opened Wrappers
  import opened CacheLookup
  import opened CacheStore

  /** Where a request stands; `v2` tells a v2 create from a v1 reserve. */
  datatype Phase =
    | Evicting(pair: Pair, id: nat, v2: bool, now: int)  // index lock held, binding removed, entry not yet
    | Allocating(pair: Pair, v2: bool, now: int)         // about to take an id
    | Pushing(entry: Entry)                              // has an id, entry not yet in the list
    | Binding(pair: Pair, id: nat)                       // entry marked committed, index not yet updated
    | Saving                                             // about to save the index file
    | Done

  datatype State = State(entries: seq<Entry>, index: map<Pair, nat>, nextId: nat, disk: seq<Entry>, tasks: seq<Phase>)

  datatype Action =
    | Reserve(pair: Pair, v2: bool, now: int)  // take the index lock and remove the binding
    | Retain(t: nat)                           // remove the old entry, release both locks
    | Allocate(t: nat)
    | Push(t: nat)
    | Commit(id: nat, size: int)               // v1: mark the entry with this id
    | Finalize(pair: Pair, size: int)          // v2: mark the oldest uncommitted entry of the pair
    | Bind(t: nat)                             // take the index lock and insert
    | Save(t: nat)                             // write the entries out under their read lock
    | Crash                                    // the process stops and starts again

  function Init(): State { State([], map[], 1, [], []) }

  ghost predicate IndexLocked(s: State) { exists t | 0 <= t < |s.tasks| :: s.tasks[t].Evicting? }

  /** A commit of an entry that is committed already. */
  predicate CommitsAgain(s: State, a: Action) {
    a.Commit? && FindId(s.entries, a.id).Some? && s.entries[FindId(s.entries, a.id).value].committed
  }

  /** With `once`, each id is committed at most once. */
  ghost predicate Enabled(once: bool, s: State, a: Action) {
    && (once ==> !CommitsAgain(s, a))
    && match a
       case Reserve(_, _, _) => !IndexLocked(s)
       case Retain(t) => t < |s.tasks| && s.tasks[t].Evicting?
       case Allocate(t) => t < |s.tasks| && s.tasks[t].Allocating?
       case Push(t) => t < |s.tasks| && s.tasks[t].Pushing?
       case Commit(_, _) => true
       case Finalize(_, _) => true
       case Bind(t) => t < |s.tasks| && s.tasks[t].Binding? && !IndexLocked(s)
       case Save(t) => t < |s.tasks| && s.tasks[t].Saving?
       case Crash => true
  }

  /** Mark entry `i` and leave the binding to a later step. */
  function Mark(s: State, i: nat, size: int, s3Key: Option<string>): State
    requires i < |s.entries|
  {
    var e := MarkCommitted(s.entries[i], size, s3Key);
    s.(entries := s.entries[i := e], tasks := s.tasks + [Binding(PairOf(e), e.id)])
  }

  ghost function Apply(once: bool, s: State, a: Action): State
    requires Enabled(once, s, a)
  {
    match a
    case Reserve(pair, v2, now) =>
      if pair in s.index
      then s.(index := s.index - {pair}, tasks := s.tasks + [Evicting(pair, s.index[pair], v2, now)])
      else s.(tasks := s.tasks + [Allocating(pair, v2, now)])
    case Retain(t) =>
      var p := s.tasks[t];
      s.(entries := Without(s.entries, p.id), tasks := s.tasks[t := Allocating(p.pair, p.v2, p.now)])
    case Allocate(t) =>
      var p := s.tasks[t];
      var s3Key := if p.v2 then Some(S3Key(s.nextId)) else None;
      s.(nextId := s.nextId + 1, tasks := s.tasks[t := Pushing(NewEntry(s.nextId, p.pair, s3Key, p.now))])
    case Push(t) =>
      s.(entries := s.entries + [s.tasks[t].entry], tasks := s.tasks[t := Saving])
    case Commit(id, size) =>
      var i := FindId(s.entries, id);
      if i.None? then s else Mark(s, i.value, size, Some(S3Key(id)))
    case Finalize(pair, size) =>
      var i := FindOpen(s.entries, pair);
      if i.None? then s else Mark(s, i.value, size, s.entries[i.value].s3Key)
    case Bind(t) =>
      s.(index := s.index[s.tasks[t].pair := s.tasks[t].id], tasks := s.tasks[t := Saving])
    case Save(t) => s.(disk := s.entries, tasks := s.tasks[t := Done])
    case Crash => State(s.disk, Rebuild(s.disk), MaxId(s.disk) + 1, s.disk, [])
  }

  /** The state a schedule leads to, or `None` if some action of it could not happen. */
  ghost function Exec(once: bool, start: State, acts: seq<Action>): Option<State> {
    if acts == [] then Some(start)
    else
      var before := Exec(once, start, acts[..|acts| - 1]);
      var a := acts[|acts| - 1];
      if before.Some? && Enabled(once, before.value, a) then Some(Apply(once, before.value, a)) else None
  }

  ghost predicate Reachable(once: bool, s: State) { exists acts :: Exec(once, Init(), acts) == Some(s) }

  // ---- Ids ----

  ghost predicate DistinctIds(entries: seq<Entry>) {
    forall i, j | 0 <= i < j < |entries| :: entries[i].id != entries[j].id
  }

  ghost predicate IdsBelow(entries: seq<Entry>, nextId: nat) {
    forall i | 0 <= i < |entries| :: 1 <= entries[i].id < nextId
  }

  /** Ids in the list and in flight are pairwise distinct and below the counter; so are those in the file. */
  ghost predicate IdsInv(s: State) {
    && s.nextId >= 1
    && DistinctIds(s.entries) && IdsBelow(s.entries, s.nextId)
    && DistinctIds(s.disk) && IdsBelow(s.disk, s.nextId)
    && (forall t | 0 <= t < |s.tasks| && s.tasks[t].Pushing? :: 1 <= s.tasks[t].entry.id < s.nextId)
    && (forall i, t | 0 <= i < |s.entries| && 0 <= t < |s.tasks| && s.tasks[t].Pushing? ::
          s.entries[i].id != s.tasks[t].entry.id)
    && (forall t, u | 0 <= t < u < |s.tasks| && s.tasks[t].Pushing? && s.tasks[u].Pushing? ::
          s.tasks[t].entry.id != s.tasks[u].entry.id)
  }

  lemma {:induction false} WithoutDistinct(entries: seq<Entry>, id: nat)
    requires DistinctIds(entries)
    ensures DistinctIds(Without(entries, id))
  {
    if entries != [] {
      var n := |entries| - 1;
      var rest := Without(entries[..n], id);
      WithoutDistinct(entries[..n], id);
      forall i | 0 <= i < |rest|
        ensures rest[i].id != entries[n].id
      {
        WithoutMembers(entries[..n], id, rest[i]);
        var k :| 0 <= k < n && entries[..n][k] == rest[i];
        assert entries[k].id != entries[n].id;
      }
    }
  }

  lemma RetainIds(s: State, t: nat, s': State)
    requires IdsInv(s) && t < |s.tasks| && s.tasks[t].Evicting? && s' == Apply(false, s, Retain(t))
    ensures IdsInv(s')
  {
    WithoutDistinct(s.entries, s.tasks[t].id);
    forall i | 0 <= i < |s'.entries|
      ensures exists k | 0 <= k < |s.entries| :: s.entries[k] == s'.entries[i]
    {
      WithoutMembers(s.entries, s.tasks[t].id, s'.entries[i]);
    }
  }

  lemma MarkIds(s: State, i: nat, size: int, s3Key: Option<string>)
    requires IdsInv(s) && i < |s.entries|
    ensures IdsInv(Mark(s, i, size, s3Key))
  {
    var s' := Mark(s, i, size, s3Key);
    forall k | 0 <= k < |s.entries|
      ensures s'.entries[k].id == s.entries[k].id
    {
    }
  }

  lemma AllocateIds(s: State, t: nat, s': State)
    requires IdsInv(s) && t < |s.tasks| && s.tasks[t].Allocating? && s' == Apply(false, s, Allocate(t))
    ensures IdsInv(s')
  {
    forall u | 0 <= u < |s.tasks| && u != t
      ensures s'.tasks[u] == s.tasks[u]
    {
    }
  }

  lemma PushIds(s: State, t: nat, s': State)
    requires IdsInv(s) && t < |s.tasks| && s.tasks[t].Pushing? && s' == Apply(false, s, Push(t))
    ensures IdsInv(s')
  {
    var n := |s.entries|;
    assert forall i | 0 <= i < n :: s'.entries[i] == s.entries[i];
    assert forall u | 0 <= u < |s.tasks| && u != t :: s'.tasks[u] == s.tasks[u];
  }

  lemma BindIds(s: State, t: nat, s': State)
    requires IdsInv(s) && t < |s.tasks| && s.tasks[t].Binding? && !IndexLocked(s) && s' == Apply(false, s, Bind(t))
    ensures IdsInv(s')
  {
  }

  lemma ReserveIds(s: State, pair: Pair, v2: bool, now: int, s': State)
    requires IdsInv(s) && !IndexLocked(s) && s' == Apply(false, s, Reserve(pair, v2, now))
    ensures IdsInv(s')
  {
  }

  lemma {:induction false} MaxIdIsBound(entries: seq<Entry>)
    ensures forall i | 0 <= i < |entries| :: entries[i].id <= MaxId(entries)
  {
    if entries != [] {
      var n := |entries| - 1;
      MaxIdIsBound(entries[..n]);
      forall i | 0 <= i < |entries|
        ensures entries[i].id <= MaxId(entries)
      {
        assert i < n ==> entries[i] == entries[..n][i];
      }
    }
  }

  lemma CrashIds(s: State, s': State)
    requires IdsInv(s) && s' == Apply(false, s, Crash)
    ensures IdsInv(s')
  {
    MaxIdIsBound(s.disk);
  }

  lemma SaveIds(s: State, t: nat, s': State)
    requires IdsInv(s) && t < |s.tasks| && s.tasks[t].Saving? && s' == Apply(false, s, Save(t))
    ensures IdsInv(s')
  {
    assert forall u | 0 <= u < |s.tasks| && u != t :: s'.tasks[u] == s.tasks[u];
  }

  /** Whether or not ids are committed once, every step keeps them distinct and below the counter. */
  lemma StepIds(once: bool, s: State, a: Action)
    requires IdsInv(s) && Enabled(once, s, a)
    ensures IdsInv(Apply(once, s, a))
  {
    match a
    case Reserve(pair, v2, now) => ReserveIds(s, pair, v2, now, Apply(once, s, a));
    case Retain(t) => RetainIds(s, t, Apply(once, s, a));
    case Allocate(t) => AllocateIds(s, t, Apply(once, s, a));
    case Push(t) => PushIds(s, t, Apply(once, s, a));
    case Commit(id, size) =>
      if FindId(s.entries, id).Some? {
        MarkIds(s, FindId(s.entries, id).value, size, Some(S3Key(id)));
      }
    case Finalize(pair, size) =>
      var i := FindOpen(s.entries, pair);
      if i.Some? {
        MarkIds(s, i.value, size, s.entries[i.value].s3Key);
      }
    case Bind(t) => BindIds(s, t, Apply(once, s, a));
    case Save(t) => SaveIds(s, t, Apply(once, s, a));
    case Crash => CrashIds(s, Apply(once, s, a));
  }

  // ---- Bindings ----

  /** A committed entry of this pair with this id is in the list. */
  ghost predicate Present(entries: seq<Entry>, pair: Pair, id: nat) {
    exists e :: e in entries && e.id == id && e.committed && PairOf(e) == pair
  }

  /** The request has this id in hand: to be bound, or just unbound. */
  predicate Claims(p: Phase) { p.Binding? || p.Evicting? }

  /**
   Whatever is bound or in hand is present and committed, and nothing is both bound and in
   hand, or in hand twice.
   */
  ghost predicate ClaimsInv(s: State) {
    && (forall pair | pair in s.index :: Present(s.entries, pair, s.index[pair]))
    && (forall t | 0 <= t < |s.tasks| && Claims(s.tasks[t]) :: Present(s.entries, s.tasks[t].pair, s.tasks[t].id))
    && (forall t, pair | 0 <= t < |s.tasks| && Claims(s.tasks[t]) && pair in s.index :: s.tasks[t].id != s.index[pair])
    && (forall t, u | 0 <= t < u < |s.tasks| && Claims(s.tasks[t]) && Claims(s.tasks[u]) ::
          s.tasks[t].id != s.tasks[u].id)
  }

  lemma PresentPair(entries: seq<Entry>, pair: Pair, other: Pair, id: nat)
    requires DistinctIds(entries) && Present(entries, pair, id) && Present(entries, other, id)
    ensures pair == other
  {
    var e :| e in entries && e.id == id && e.committed && PairOf(e) == pair;
    var f :| f in entries && f.id == id && f.committed && PairOf(f) == other;
    var i :| 0 <= i < |entries| && entries[i] == e;
    var j :| 0 <= j < |entries| && entries[j] == f;
    assert i == j;
  }

  lemma ReserveClaims(s: State, pair: Pair, v2: bool, now: int, s': State)
    requires IdsInv(s) && ClaimsInv(s) && pair in s.index
    requires s' == s.(index := s.index - {pair}, tasks := s.tasks + [Evicting(pair, s.index[pair], v2, now)])
    ensures ClaimsInv(s')
  {
    forall other | other in s'.index
      ensures s'.index[other] != s.index[pair]
    {
      if s.index[other] == s.index[pair] {
        PresentPair(s.entries, pair, other, s.index[pair]);
      }
    }
  }

  lemma PresentAfterWithout(entries: seq<Entry>, gone: nat, pair: Pair, id: nat)
    requires Present(entries, pair, id) && id != gone
    ensures Present(Without(entries, gone), pair, id)
  {
    var e :| e in entries && e.id == id && e.committed && PairOf(e) == pair;
    WithoutMembers(entries, gone, e);
  }

  lemma RetainClaims(s: State, t: nat, s': State)
    requires ClaimsInv(s) && t < |s.tasks| && s.tasks[t].Evicting? && s' == Apply(false, s, Retain(t))
    ensures ClaimsInv(s')
  {
    var gone := s.tasks[t].id;
    forall pair | pair in s'.index
      ensures Present(s'.entries, pair, s'.index[pair])
    {
      PresentAfterWithout(s.entries, gone, pair, s.index[pair]);
    }
    forall u | 0 <= u < |s'.tasks| && Claims(s'.tasks[u])
      ensures Present(s'.entries, s'.tasks[u].pair, s'.tasks[u].id)
    {
      assert s'.tasks[u] == s.tasks[u];
      PresentAfterWithout(s.entries, gone, s.tasks[u].pair, s.tasks[u].id);
    }
  }

  lemma PresentAfterMark(entries: seq<Entry>, i: nat, marked: Entry, pair: Pair, id: nat)
    requires i < |entries| && !entries[i].committed && Present(entries, pair, id)
    ensures Present(entries[i := marked], pair, id)
  {
    var e :| e in entries && e.id == id && e.committed && PairOf(e) == pair;
    var k :| 0 <= k < |entries| && entries[k] == e;
    assert entries[i := marked][k] == e;
  }

  /** Nothing holds the id of an uncommitted entry. */
  lemma OpenIsUnclaimed(entries: seq<Entry>, i: nat, pair: Pair, id: nat)
    requires DistinctIds(entries) && i < |entries| && !entries[i].committed && Present(entries, pair, id)
    ensures entries[i].id != id
  {
    var e :| e in entries && e.id == id && e.committed && PairOf(e) == pair;
    var k :| 0 <= k < |entries| && entries[k] == e;
    assert k != i;
  }

  lemma MarkClaims(s: State, i: nat, size: int, s3Key: Option<string>)
    requires IdsInv(s) && ClaimsInv(s) && i < |s.entries| && !s.entries[i].committed
    ensures ClaimsInv(Mark(s, i, size, s3Key))
  {
    var s', n, marked := Mark(s, i, size, s3Key), |s.tasks|, MarkCommitted(s.entries[i], size, s3Key);
    forall pair | pair in s'.index
      ensures Present(s'.entries, pair, s'.index[pair]) && s'.index[pair] != marked.id
    {
      PresentAfterMark(s.entries, i, marked, pair, s.index[pair]);
      OpenIsUnclaimed(s.entries, i, pair, s.index[pair]);
    }
    forall t | 0 <= t < n && Claims(s.tasks[t])
      ensures Present(s'.entries, s.tasks[t].pair, s.tasks[t].id) && s.tasks[t].id != marked.id
    {
      PresentAfterMark(s.entries, i, marked, s.tasks[t].pair, s.tasks[t].id);
      OpenIsUnclaimed(s.entries, i, s.tasks[t].pair, s.tasks[t].id);
    }
    assert s'.entries[i] == marked;
  }

  lemma PushClaims(s: State, t: nat, s': State)
    requires ClaimsInv(s) && t < |s.tasks| && s.tasks[t].Pushing? && s' == Apply(false, s, Push(t))
    ensures ClaimsInv(s')
  {
    forall pair: Pair, id | Present(s.entries, pair, id)
      ensures Present(s'.entries, pair, id)
    {
      var e :| e in s.entries && e.id == id && e.committed && PairOf(e) == pair;
      assert e in s'.entries;
    }
  }

  lemma AllocateClaims(s: State, t: nat, s': State)
    requires ClaimsInv(s) && t < |s.tasks| && s.tasks[t].Allocating? && s' == Apply(false, s, Allocate(t))
    ensures ClaimsInv(s')
  {
  }

  lemma BindClaims(s: State, t: nat, s': State)
    requires ClaimsInv(s) && t < |s.tasks| && s.tasks[t].Binding? && !IndexLocked(s) && s' == Apply(false, s, Bind(t))
    ensures ClaimsInv(s')
  {
  }

  lemma SaveClaims(s: State, t: nat, s': State)
    requires ClaimsInv(s) && t < |s.tasks| && s.tasks[t].Saving? && s' == Apply(false, s, Save(t))
    ensures ClaimsInv(s')
  {
  }

  lemma CrashClaims(s: State, s': State)
    requires s' == Apply(false, s, Crash)
    ensures ClaimsInv(s')
  {
    RebuildSound(s.disk);
  }

  lemma AnyReserveClaims(s: State, pair: Pair, v2: bool, now: int, s': State)
    requires IdsInv(s) && ClaimsInv(s) && !IndexLocked(s) && s' == Apply(true, s, Reserve(pair, v2, now))
    ensures ClaimsInv(s')
  {
    if pair in s.index {
      ReserveClaims(s, pair, v2, now, s');
    }
  }

  lemma CommitClaims(s: State, id: nat, size: int, s': State)
    requires IdsInv(s) && ClaimsInv(s) && !CommitsAgain(s, Commit(id, size)) && s' == Apply(true, s, Commit(id, size))
    ensures ClaimsInv(s')
  {
    if FindId(s.entries, id).Some? {
      MarkClaims(s, FindId(s.entries, id).value, size, Some(S3Key(id)));
    }
  }

  lemma FinalizeClaims(s: State, pair: Pair, size: int, s': State)
    requires IdsInv(s) && ClaimsInv(s) && s' == Apply(true, s, Finalize(pair, size))
    ensures ClaimsInv(s')
  {
    var i := FindOpen(s.entries, pair);
    if i.Some? {
      MarkClaims(s, i.value, size, s.entries[i.value].s3Key);
    }
  }

  lemma StepClaims(s: State, a: Action, s': State)
    requires IdsInv(s) && ClaimsInv(s) && Enabled(true, s, a) && s' == Apply(true, s, a)
    ensures ClaimsInv(s')
  {
    match a
    case Reserve(pair, v2, now) => AnyReserveClaims(s, pair, v2, now, s');
    case Retain(t) => RetainClaims(s, t, s');
    case Allocate(t) => AllocateClaims(s, t, s');
    case Push(t) => PushClaims(s, t, s');
    case Commit(id, size) => CommitClaims(s, id, size, s');
    case Finalize(pair, size) => FinalizeClaims(s, pair, size, s');
    case Bind(t) => BindClaims(s, t, s');
    case Save(t) => SaveClaims(s, t, s');
    case Crash => CrashClaims(s, s');
  }

  lemma {:induction false} ExecInv(once: bool, acts: seq<Action>)
    requires Exec(once, Init(), acts).Some?
    ensures IdsInv(Exec(once, Init(), acts).value) && (once ==> ClaimsInv(Exec(once, Init(), acts).value))
  {
    if acts != [] {
      var before, a := acts[..|acts| - 1], acts[|acts| - 1];
      ExecInv(once, before);
      StepIds(once, Exec(once, Init(), before).value, a);
      if once {
        StepClaims(Exec(once, Init(), before).value, a, Exec(once, Init(), acts).value);
      }
    }
  }

  /** In every interleaving, ids are distinct and below the counter, those in flight included. */
  lemma IdsAreUnique(once: bool, s: State)
    requires Reachable(once, s)
    ensures forall i, j | 0 <= i < j < |s.entries| :: s.entries[i].id != s.entries[j].id
    ensures forall i | 0 <= i < |s.entries| :: s.entries[i].id < s.nextId
    ensures forall t | 0 <= t < |s.tasks| && s.tasks[t].Pushing? :: s.tasks[t].entry.id < s.nextId
    ensures forall i, t | 0 <= i < |s.entries| && 0 <= t < |s.tasks| && s.tasks[t].Pushing? ::
      s.entries[i].id != s.tasks[t].entry.id
    ensures forall t, u | 0 <= t < u < |s.tasks| && s.tasks[t].Pushing? && s.tasks[u].Pushing? ::
      s.tasks[t].entry.id != s.tasks[u].entry.id
  {
    var acts :| Exec(once, Init(), acts) == Some(s);
    ExecInv(once, acts);
  }

  /** Two requests in hand of ids: never the same one, and never one that is bound. */
  lemma BindingsNeverCollide(s: State, t: nat, u: nat)
    requires Reachable(true, s) && t < |s.tasks| && u < |s.tasks| && t != u
    requires s.tasks[t].Binding? && Claims(s.tasks[u])
    ensures s.tasks[t].id != s.tasks[u].id
    ensures Present(s.entries, s.tasks[t].pair, s.tasks[t].id)
  {
    var acts :| Exec(true, Init(), acts) == Some(s);
    ExecInv(true, acts);
  }

  // ---- Exactly when the index is sound ----

  ghost predicate Sound(s: State) { forall pair | pair in s.index :: Present(s.entries, pair, s.index[pair]) }

  /**
   The index is sound and will be after the bindings under way: what is bound or about to be
   is present and committed, nothing bound is being evicted, and one eviction runs at a time.
   */
  ghost predicate Live(s: State) {
    && Sound(s)
    && (forall t | 0 <= t < |s.tasks| && s.tasks[t].Binding? :: Present(s.entries, s.tasks[t].pair, s.tasks[t].id))
    && (forall t, pair | 0 <= t < |s.tasks| && s.tasks[t].Evicting? && pair in s.index ::
          s.tasks[t].id != s.index[pair])
    && (forall t, u | 0 <= t < u < |s.tasks| :: !(s.tasks[t].Evicting? && s.tasks[u].Evicting?))
  }

  /** The step evicts an entry that another request has marked and is about to bind. */
  ghost predicate EvictsPending(s: State, a: Action) {
    && a.Retain? && a.t < |s.tasks| && s.tasks[a.t].Evicting?
    && exists u :: 0 <= u < |s.tasks| && s.tasks[u].Binding? && s.tasks[u].id == s.tasks[a.t].id
  }

  lemma ReserveLive(s: State, pair: Pair, v2: bool, now: int, s': State)
    requires IdsInv(s) && Live(s) && !IndexLocked(s) && pair in s.index
    requires s' == s.(index := s.index - {pair}, tasks := s.tasks + [Evicting(pair, s.index[pair], v2, now)])
    ensures Live(s')
  {
    forall other | other in s'.index
      ensures s'.index[other] != s.index[pair]
    {
      if s.index[other] == s.index[pair] {
        PresentPair(s.entries, pair, other, s.index[pair]);
      }
    }
    assert forall t | 0 <= t < |s.tasks| :: !s.tasks[t].Evicting?;
  }

  lemma AbsentAfterWithout(entries: seq<Entry>, gone: nat, pair: Pair)
    ensures !Present(Without(entries, gone), pair, gone)
  {
    forall e | e in Without(entries, gone)
      ensures e.id != gone
    {
      WithoutMembers(entries, gone, e);
    }
  }

  lemma RetainLive(s: State, t: nat, s': State)
    requires Live(s) && t < |s.tasks| && s.tasks[t].Evicting? && s' == Apply(false, s, Retain(t))
    ensures Live(s') <==> !EvictsPending(s, Retain(t))
  {
    var gone := s.tasks[t].id;
    forall pair | pair in s'.index
      ensures Present(s'.entries, pair, s'.index[pair])
    {
      PresentAfterWithout(s.entries, gone, pair, s.index[pair]);
    }
    forall u | 0 <= u < |s.tasks| && u != t && s.tasks[u].Binding?
      ensures s'.tasks[u] == s.tasks[u]
      ensures Present(s'.entries, s.tasks[u].pair, s.tasks[u].id) <==> s.tasks[u].id != gone
    {
      if s.tasks[u].id == gone {
        AbsentAfterWithout(s.entries, gone, s.tasks[u].pair);
      } else {
        PresentAfterWithout(s.entries, gone, s.tasks[u].pair, s.tasks[u].id);
      }
    }
  }

  lemma PresentAfterAnyMark(entries: seq<Entry>, i: nat, size: int, s3Key: Option<string>, pair: Pair, id: nat)
    requires i < |entries| && Present(entries, pair, id)
    ensures Present(entries[i := MarkCommitted(entries[i], size, s3Key)], pair, id)
  {
    var marked := MarkCommitted(entries[i], size, s3Key);
    var e :| e in entries && e.id == id && e.committed && PairOf(e) == pair;
    var k :| 0 <= k < |entries| && entries[k] == e;
    assert entries[i := marked][k] == if k == i then marked else e;
  }

  lemma MarkLive(s: State, i: nat, size: int, s3Key: Option<string>)
    requires Live(s) && i < |s.entries|
    ensures Live(Mark(s, i, size, s3Key))
  {
    var s', n := Mark(s, i, size, s3Key), |s.tasks|;
    forall pair | pair in s'.index
      ensures Present(s'.entries, pair, s'.index[pair])
    {
      PresentAfterAnyMark(s.entries, i, size, s3Key, pair, s.index[pair]);
    }
    forall t | 0 <= t < n && s.tasks[t].Binding?
      ensures Present(s'.entries, s.tasks[t].pair, s.tasks[t].id)
    {
      PresentAfterAnyMark(s.entries, i, size, s3Key, s.tasks[t].pair, s.tasks[t].id);
    }
    assert s'.entries[i] == MarkCommitted(s.entries[i], size, s3Key);
  }

  lemma PushLive(s: State, t: nat, s': State)
    requires Live(s) && t < |s.tasks| && s.tasks[t].Pushing? && s' == Apply(false, s, Push(t))
    ensures Live(s')
  {
    forall pair: Pair, id | Present(s.entries, pair, id)
      ensures Present(s'.entries, pair, id)
    {
      var e :| e in s.entries && e.id == id && e.committed && PairOf(e) == pair;
      assert e in s'.entries;
    }
  }

  /** Steps that move one task and touch neither list nor index. */
  lemma QuietLive(s: State, a: Action, s': State)
    requires Live(s) && Enabled(false, s, a) && s' == Apply(false, s, a) && (a.Allocate? || a.Save?)
    ensures Live(s')
  {
    assert forall u | 0 <= u < |s.tasks| && u != a.t :: s'.tasks[u] == s.tasks[u];
  }

  lemma BindLive(s: State, t: nat, s': State)
    requires Live(s) && t < |s.tasks| && s.tasks[t].Binding? && !IndexLocked(s) && s' == Apply(false, s, Bind(t))
    ensures Live(s')
  {
    assert forall u | 0 <= u < |s.tasks| && u != t :: s'.tasks[u] == s.tasks[u];
  }

  /** The law of a step, in the model as it is: only evicting an entry about to be bound does damage. */
  lemma StepLive(s: State, a: Action)
    requires IdsInv(s) && Live(s) && Enabled(false, s, a)
    ensures Live(Apply(false, s, a)) <==> !EvictsPending(s, a)
  {
    var s' := Apply(false, s, a);
    match a
    case Reserve(pair, v2, now) =>
      if pair in s.index {
        ReserveLive(s, pair, v2, now, s');
      }
    case Retain(t) => RetainLive(s, t, s');
    case Push(t) => PushLive(s, t, s');
    case Commit(id, size) =>
      if FindId(s.entries, id).Some? {
        MarkLive(s, FindId(s.entries, id).value, size, Some(S3Key(id)));
      }
    case Finalize(pair, size) =>
      var i := FindOpen(s.entries, pair);
      if i.Some? {
        MarkLive(s, i.value, size, s.entries[i.value].s3Key);
      }
    case Bind(t) => BindLive(s, t, s');
    case Crash => RebuildSound(s.disk);
    case _ => QuietLive(s, a, s');
  }

  ghost predicate AlwaysLive(acts: seq<Action>) {
    && Exec(false, Init(), acts).Some? && Live(Exec(false, Init(), acts).value)
    && (acts == [] || AlwaysLive(acts[..|acts| - 1]))
  }

  ghost predicate NeverEvictsPending(acts: seq<Action>) {
    acts == [] || (
      var before := acts[..|acts| - 1];
      && NeverEvictsPending(before)
      && Exec(false, Init(), before).Some? && !EvictsPending(Exec(false, Init(), before).value, acts[|acts| - 1]))
  }

  /** Over a whole run: the index is sound, and stays so, as long as no entry about to be bound is evicted. */
  lemma {:induction false} LiveIffNeverEvictsPending(acts: seq<Action>)
    requires Exec(false, Init(), acts).Some?
    ensures AlwaysLive(acts) <==> NeverEvictsPending(acts)
  {
    if acts != [] {
      var before, a := acts[..|acts| - 1], acts[|acts| - 1];
      LiveIffNeverEvictsPending(before);
      ExecInv(false, before);
      if AlwaysLive(before) {
        StepLive(Exec(false, Init(), before).value, a);
      }
    }
  }

  /** Some request, allowed to bind right after the step, makes the index unsound. */
  ghost predicate DanglesNext(s: State) {
    exists u :: Enabled(false, s, Bind(u)) && !Sound(Apply(false, s, Bind(u)))
  }

  lemma EvictedDangles(s: State, t: nat, u: nat, s': State)
    requires Live(s) && t < |s.tasks| && s.tasks[t].Evicting? && u < |s.tasks| && s.tasks[u].Binding?
    requires s.tasks[u].id == s.tasks[t].id && s' == Apply(false, s, Retain(t))
    ensures Enabled(false, s', Bind(u)) && !Sound(Apply(false, s', Bind(u)))
  {
    forall k | 0 <= k < |s'.tasks|
      ensures !s'.tasks[k].Evicting?
    {
      assert k != t ==> !s.tasks[k].Evicting? && s'.tasks[k] == s.tasks[k];
    }
    AbsentAfterWithout(s.entries, s.tasks[t].id, s.tasks[u].pair);
    assert s.tasks[u].pair in Apply(false, s', Bind(u)).index;
  }

  /**
   The condition is exact: from a live state, a step opens the way to a binding that points
   nowhere if and only if it evicts an entry that another request is about to bind.
   */
  lemma DanglesIffEvictsPending(s: State, a: Action)
    requires IdsInv(s) && Live(s) && Enabled(false, s, a)
    ensures DanglesNext(Apply(false, s, a)) <==> EvictsPending(s, a)
  {
    var s' := Apply(false, s, a);
    StepLive(s, a);
    StepIds(false, s, a);
    if EvictsPending(s, a) {
      var u :| 0 <= u < |s.tasks| && s.tasks[u].Binding? && s.tasks[u].id == s.tasks[a.t].id;
      EvictedDangles(s, a.t, u, s');
    } else {
      forall u | Enabled(false, s', Bind(u))
        ensures Sound(Apply(false, s', Bind(u)))
      {
        BindLive(s', u, Apply(false, s', Bind(u)));
      }
    }
  }

  lemma ExecAppend(once: bool, start: State, acts: seq<Action>, s: State, a: Action, s': State)
    requires Exec(once, start, acts) == Some(s) && Enabled(once, s, a) && Apply(once, s, a) == s'
    ensures Exec(once, start, acts + [a]) == Some(s')
  {
    assert (acts + [a])[..|acts|] == acts;
  }

  lemma OnceNeverEvictsPending(s: State, a: Action)
    requires ClaimsInv(s)
    ensures !EvictsPending(s, a)
  {
  }

  /** A schedule in which no committed entry is committed again runs the same without that rule. */
  lemma {:induction false} OnceIsUnrestricted(acts: seq<Action>)
    requires Exec(true, Init(), acts).Some?
    ensures Exec(false, Init(), acts) == Exec(true, Init(), acts) && NeverEvictsPending(acts)
  {
    if acts != [] {
      var before, a := acts[..|acts| - 1], acts[|acts| - 1];
      OnceIsUnrestricted(before);
      ExecInv(true, before);
      OnceNeverEvictsPending(Exec(true, Init(), before).value, a);
    }
  }

  // ---- Restarts in the middle of a request ----

  lemma {:induction false} MaxIdAttained(entries: seq<Entry>)
    requires entries != []
    ensures exists e :: e in entries && e.id == MaxId(entries)
  {
    var n := |entries| - 1;
    if MaxId(entries[..n]) < entries[n].id || n == 0 {
      assert entries[n] in entries;
    } else {
      MaxIdAttained(entries[..n]);
    }
  }

  /**
   A restart never raises the id counter, and keeps it exactly if the entry with the last id
   handed out is in the saved file, or no id has been handed out yet.
   */
  lemma CrashKeepsCounterIffLastIdSaved(s: State)
    requires IdsInv(s)
    ensures Apply(false, s, Crash).nextId <= s.nextId
    ensures Apply(false, s, Crash).nextId == s.nextId <==>
      s.nextId == 1 || exists e :: e in s.disk && e.id == s.nextId - 1
  {
    MaxIdIsBound(s.disk);
    if s.disk != [] {
      MaxIdAttained(s.disk);
      var e :| e in s.disk && e.id == MaxId(s.disk);
      var i :| 0 <= i < |s.disk| && s.disk[i] == e;
      assert e.id < s.nextId;
    }
  }

  /** A reservation takes the first id of a service that has handed out none. */
  lemma FirstIdRun(pair: Pair) returns (acts: seq<Action>)
    ensures acts == [] + [Reserve(pair, false, 0)] + [Allocate(0)]
    ensures Exec(true, Init(), acts) == Some(State([], map[], 2, [], [Pushing(NewEntry(1, pair, None, 0))]))
  {
    var s1 := State([], map[], 1, [], [Allocating(pair, false, 0)]);
    ExecAppend(true, Init(), [], Init(), Reserve(pair, false, 0), s1);
    ExecAppend(true, Init(), [] + [Reserve(pair, false, 0)], s1, Allocate(0),
               State([], map[], 2, [], [Pushing(NewEntry(1, pair, None, 0))]));
    acts := [] + [Reserve(pair, false, 0)] + [Allocate(0)];
  }

  /** If a restart leads back to that, what could follow then follows now. */
  lemma {:induction false} AfterCrash(s: State, acts: seq<Action>)
    requires Apply(true, s, Crash) == Init()
    ensures Exec(true, s, [Crash] + acts) == Exec(true, Init(), acts)
  {
    if acts == [] {
      ExecAppend(true, s, [], s, Crash, Init());
      assert [] + [Crash] == [Crash] + acts;
    } else {
      AfterCrash(s, acts[..|acts| - 1]);
      assert ([Crash] + acts)[..|acts|] == [Crash] + acts[..|acts| - 1];
    }
  }

  /** Otherwise the id is handed out a second time: a restart strikes before the new entry is saved. */
  lemma ReusedIdRun(pair: Pair) returns (acts: seq<Action>, s: State, s': State)
    ensures Exec(true, Init(), acts) == Some(s) && |s.entries| == 1 && s.entries[0].id == 1
    ensures Exec(true, s, [Crash, Reserve(pair, false, 0), Allocate(0)]) == Some(s')
    ensures s'.tasks == [Pushing(s.entries[0])]
  {
    var e := NewEntry(1, pair, None, 0);
    s, s' := State([e], map[], 2, [], [Saving]), State([], map[], 2, [], [Pushing(e)]);
    var first := FirstIdRun(pair);
    ExecAppend(true, Init(), first, s', Push(0), s);
    acts := first + [Push(0)];
    AfterCrash(s, first);
    assert [Crash] + first == [Crash, Reserve(pair, false, 0), Allocate(0)];
  }
}
