/**
 A rule for clients of the concurrent cache service: under it no pair ever has a second entry,
 and the index, once the requests in flight are through, is the graph of the committed
 entries.  Without either half of the rule that is not so.
 */
module CacheClients {
  import opened Wrappers
  import opened CacheLookup
  import opened CacheStore
  import opened CacheInterleaved
  import opened CachePairs

  /** The request is on its way to a new entry. */
  predicate Starting(p: Phase) { p.Evicting? || p.Allocating? || p.Pushing? }

  /** The request still has something to do for its pair. */
  predicate Busy(p: Phase) { Starting(p) || p.Binding? }

  function PhasePair(p: Phase): Pair
    requires Busy(p)
  {
    if p.Pushing? then PairOf(p.entry) else p.pair
  }

  /** The pair has a request on its way to a new entry, or an entry not committed yet. */
  ghost predicate ReservedNow(s: State, pair: Pair) {
    || (exists t :: 0 <= t < |s.tasks| && Starting(s.tasks[t]) && PhasePair(s.tasks[t]) == pair)
    || (exists e :: e in s.entries && PairOf(e) == pair && !e.committed)
  }

  /** An entry of the pair is marked committed and not yet bound. */
  ghost predicate BindingNow(s: State, pair: Pair) {
    exists t :: 0 <= t < |s.tasks| && s.tasks[t].Binding? && s.tasks[t].pair == pair
  }

  /** The step reserves a pair too early: while it is reserved or, for clients that `wait`, about to be bound. */
  ghost predicate ReservesEarly(wait: bool, s: State, a: Action) {
    a.Reserve? && (ReservedNow(s, a.pair) || (wait && BindingNow(s, a.pair)))
  }

  /** No step of the run reserves too early and, with `once`, none commits a committed entry again. */
  ghost predicate Orderly(once: bool, wait: bool, acts: seq<Action>) {
    && Exec(once, Init(), acts).Some?
    && (acts != [] ==>
          var before := acts[..|acts| - 1];
          && Orderly(once, wait, before)
          && Exec(once, Init(), before).Some?
          && !ReservesEarly(wait, Exec(once, Init(), before).value, acts[|acts| - 1]))
  }

  /** A pair has at most one busy request, and while it has one it is not bound. */
  ghost predicate OneRequestEach(s: State) {
    && (forall t, u | 0 <= t < u < |s.tasks| && Busy(s.tasks[t]) && Busy(s.tasks[u]) ::
          PhasePair(s.tasks[t]) != PhasePair(s.tasks[u]))
    && (forall t | 0 <= t < |s.tasks| && Busy(s.tasks[t]) :: PhasePair(s.tasks[t]) !in s.index)
  }

  /** Past the eviction the pair has no entry, and the one to come is not committed. */
  ghost predicate Vacated(s: State) {
    && (forall t | 0 <= t < |s.tasks| && (s.tasks[t].Allocating? || s.tasks[t].Pushing?) ::
          !HasPair(s.entries, PhasePair(s.tasks[t])))
    && (forall t | 0 <= t < |s.tasks| && s.tasks[t].Pushing? :: !s.tasks[t].entry.committed)
  }

  /** What is about to be evicted or bound is present and committed. */
  ghost predicate ClaimsPresent(s: State) {
    forall t | 0 <= t < |s.tasks| && Claims(s.tasks[t]) :: Present(s.entries, s.tasks[t].pair, s.tasks[t].id)
  }

  ghost predicate Claimed(s: State, pair: Pair) {
    exists t :: 0 <= t < |s.tasks| && Claims(s.tasks[t]) && s.tasks[t].pair == pair
  }

  /** Every committed entry is bound, about to be bound or being evicted. */
  ghost predicate Accounted(s: State) {
    forall i | 0 <= i < |s.entries| && s.entries[i].committed ::
      PairOf(s.entries[i]) in s.index || Claimed(s, PairOf(s.entries[i]))
  }

  ghost predicate OrderlyInv(s: State) {
    && IdsInv(s) && PairsDistinct(s) && Sound(s)
    && OneRequestEach(s) && Vacated(s) && ClaimsPresent(s) && Accounted(s)
  }

  lemma PresentAt(entries: seq<Entry>, pair: Pair, id: nat) returns (i: nat)
    requires Present(entries, pair, id)
    ensures i < |entries| && entries[i].id == id && entries[i].committed && PairOf(entries[i]) == pair
  {
    var e :| e in entries && e.id == id && e.committed && PairOf(e) == pair;
    i :| 0 <= i < |entries| && entries[i] == e;
  }

  /** The committed entry of a pair is its only entry. */
  lemma PresentIsOnly(entries: seq<Entry>, pair: Pair, id: nat, i: nat)
    requires DistinctPairs(entries) && Present(entries, pair, id) && i < |entries|
    ensures PairOf(entries[i]) == pair <==> entries[i].id == id && entries[i].committed && PairOf(entries[i]) == pair
  {
    var k := PresentAt(entries, pair, id);
    assert PairOf(entries[i]) == pair ==> i == k;
  }

  /** An entry not committed yet: its pair is neither bound nor busy. */
  lemma OpenIsIdle(s: State, i: nat)
    requires PairsDistinct(s) && Sound(s) && Vacated(s) && ClaimsPresent(s)
    requires i < |s.entries| && !s.entries[i].committed
    ensures PairOf(s.entries[i]) !in s.index
    ensures forall t | 0 <= t < |s.tasks| && Busy(s.tasks[t]) :: PhasePair(s.tasks[t]) != PairOf(s.entries[i])
  {
    var pair := PairOf(s.entries[i]);
    if pair in s.index {
      PresentIsOnly(s.entries, pair, s.index[pair], i);
    }
    forall t | 0 <= t < |s.tasks| && Busy(s.tasks[t])
      ensures PhasePair(s.tasks[t]) != pair
    {
      if Claims(s.tasks[t]) {
        PresentIsOnly(s.entries, s.tasks[t].pair, s.tasks[t].id, i);
      }
    }
  }

  // ---- Each step keeps it ----

  /** A pair that is neither reserved nor about to be bound has no busy request. */
  lemma NotEarlyIsIdle(s: State, pair: Pair)
    requires !ReservedNow(s, pair) && !BindingNow(s, pair)
    ensures forall t | 0 <= t < |s.tasks| && Busy(s.tasks[t]) :: PhasePair(s.tasks[t]) != pair
    ensures !Claimed(s, pair)
  {
  }

  /** More tasks at the end claim no less. */
  lemma StillClaimed(s: State, s': State, pair: Pair)
    requires |s.tasks| <= |s'.tasks| && s'.tasks[..|s.tasks|] == s.tasks
    ensures Claimed(s, pair) ==> Claimed(s', pair)
  {
    if t :| 0 <= t < |s.tasks| && Claims(s.tasks[t]) && s.tasks[t].pair == pair {
      assert s'.tasks[t] == s'.tasks[..|s.tasks|][t];
    }
  }

  /** A request for a pair that has no busy one joins. */
  lemma JoinOneRequest(s: State, p: Phase, s': State)
    requires OneRequestEach(s) && Busy(p) && s'.tasks == s.tasks + [p]
    requires forall t | 0 <= t < |s.tasks| && Busy(s.tasks[t]) :: PhasePair(s.tasks[t]) != PhasePair(p)
    requires PhasePair(p) !in s'.index && s'.index.Keys <= s.index.Keys
    ensures OneRequestEach(s')
  {
    assert forall t | 0 <= t < |s.tasks| :: s'.tasks[t] == s.tasks[t];
    assert forall pair | pair in s'.index :: pair in s.index.Keys;
  }

  lemma JoinVacated(s: State, p: Phase, s': State)
    requires Vacated(s) && s'.tasks == s.tasks + [p] && !p.Pushing?
    requires |s'.entries| == |s.entries|
      && forall i | 0 <= i < |s.entries| :: PairOf(s'.entries[i]) == PairOf(s.entries[i])
    requires p.Allocating? ==> !HasPair(s.entries, p.pair)
    ensures Vacated(s')
  {
    forall t | 0 <= t < |s'.tasks| && (s'.tasks[t].Allocating? || s'.tasks[t].Pushing?)
      ensures !HasPair(s'.entries, PhasePair(s'.tasks[t]))
    {
      if t < |s.tasks| {
        assert s'.tasks[t] == s.tasks[t];
      }
    }
  }

  lemma JoinClaims(s: State, p: Phase, s': State)
    requires ClaimsPresent(s) && s'.tasks == s.tasks + [p] && s'.entries == s.entries
    requires Claims(p) ==> Present(s.entries, p.pair, p.id)
    ensures ClaimsPresent(s')
  {
    assert forall t | 0 <= t < |s.tasks| :: s'.tasks[t] == s.tasks[t];
  }

  lemma ReserveBoundOrderly(s: State, pair: Pair, v2: bool, now: int, s': State)
    requires OrderlyInv(s) && IdsInv(s') && pair in s.index && !ReservedNow(s, pair) && !BindingNow(s, pair)
    requires s' == s.(index := s.index - {pair}, tasks := s.tasks + [Evicting(pair, s.index[pair], v2, now)])
    ensures OrderlyInv(s')
  {
    var p := Evicting(pair, s.index[pair], v2, now);
    NotEarlyIsIdle(s, pair);
    JoinOneRequest(s, p, s');
    JoinVacated(s, p, s');
    JoinClaims(s, p, s');
    EvictingAccounted(s, pair, v2, now, s');
  }

  lemma EvictingAccounted(s: State, pair: Pair, v2: bool, now: int, s': State)
    requires Accounted(s) && pair in s.index
    requires s' == s.(index := s.index - {pair}, tasks := s.tasks + [Evicting(pair, s.index[pair], v2, now)])
    ensures Accounted(s')
  {
    forall i | 0 <= i < |s.entries| && s.entries[i].committed
      ensures PairOf(s.entries[i]) in s'.index || Claimed(s', PairOf(s.entries[i]))
    {
      StillClaimed(s, s', PairOf(s.entries[i]));
      assert Claims(s'.tasks[|s.tasks|]);
    }
  }

  lemma ReserveFreshOrderly(s: State, pair: Pair, v2: bool, now: int, s': State)
    requires OrderlyInv(s) && IdsInv(s') && pair !in s.index && !ReservedNow(s, pair) && !BindingNow(s, pair)
    requires s' == s.(tasks := s.tasks + [Allocating(pair, v2, now)])
    ensures OrderlyInv(s')
  {
    var p := Allocating(pair, v2, now);
    NotEarlyIsIdle(s, pair);
    NotEarlyIsVacant(s, pair);
    JoinOneRequest(s, p, s');
    JoinVacated(s, p, s');
    JoinClaims(s, p, s');
    forall i | 0 <= i < |s.entries| && s.entries[i].committed
      ensures PairOf(s.entries[i]) in s'.index || Claimed(s', PairOf(s.entries[i]))
    {
      StillClaimed(s, s', PairOf(s.entries[i]));
    }
  }

  /** Nor has it an entry, if it is not bound either. */
  lemma NotEarlyIsVacant(s: State, pair: Pair)
    requires Accounted(s) && pair !in s.index && !ReservedNow(s, pair) && !Claimed(s, pair)
    ensures !HasPair(s.entries, pair)
  {
    forall i | 0 <= i < |s.entries|
      ensures PairOf(s.entries[i]) != pair
    {
      assert s.entries[i] in s.entries;
    }
  }

  /** Eviction leaves the pair without an entry, and every other pair as it was. */
  lemma EvictedPair(entries: seq<Entry>, pair: Pair, id: nat)
    requires DistinctPairs(entries) && DistinctIds(entries) && Present(entries, pair, id)
    ensures !HasPair(Without(entries, id), pair)
    ensures forall e :: e in Without(entries, id) <==> e in entries && PairOf(e) != pair
  {
    var k := PresentAt(entries, pair, id);
    forall e
      ensures e in Without(entries, id) <==> e in entries && PairOf(e) != pair
    {
      WithoutMembers(entries, id, e);
      if e in entries {
        var i :| 0 <= i < |entries| && entries[i] == e;
        assert i == k <==> e.id == id;
        assert i == k <==> PairOf(e) == pair;
      }
    }
    forall i | 0 <= i < |Without(entries, id)|
      ensures PairOf(Without(entries, id)[i]) != pair
    {
      assert Without(entries, id)[i] in Without(entries, id);
    }
  }

  lemma PresentElsewhere(entries: seq<Entry>, rest: seq<Entry>, gone: Pair, pair: Pair, id: nat)
    requires forall e :: e in rest <==> e in entries && PairOf(e) != gone
    requires Present(entries, pair, id) && pair != gone
    ensures Present(rest, pair, id)
  {
    var e :| e in entries && e.id == id && e.committed && PairOf(e) == pair;
    assert e in rest;
  }

  lemma RetainOrderly(s: State, t: nat, s': State)
    requires OrderlyInv(s) && IdsInv(s') && PairsDistinct(s')
    requires t < |s.tasks| && s.tasks[t].Evicting? && s' == Apply(false, s, Retain(t))
    ensures OrderlyInv(s')
  {
    var pair, n := s.tasks[t].pair, |s.tasks|;
    EvictedPair(s.entries, pair, s.tasks[t].id);
    assert forall u | 0 <= u < n && u != t :: s'.tasks[u] == s.tasks[u];
    RetainPresent(s, t, s');
    RetainVacated(s, t, s');
    RetainAccounted(s, t, s');
  }

  lemma RetainPresent(s: State, t: nat, s': State)
    requires Sound(s) && ClaimsPresent(s) && OneRequestEach(s)
    requires t < |s.tasks| && s.tasks[t].Evicting? && s' == Apply(false, s, Retain(t))
    requires forall e :: e in s'.entries <==> e in s.entries && PairOf(e) != s.tasks[t].pair
    ensures Sound(s') && ClaimsPresent(s') && OneRequestEach(s')
  {
    var pair := s.tasks[t].pair;
    assert forall u | 0 <= u < |s.tasks| && u != t :: s'.tasks[u] == s.tasks[u];
    assert PhasePair(s'.tasks[t]) == PhasePair(s.tasks[t]) == pair;
    forall other | other in s'.index
      ensures Present(s'.entries, other, s'.index[other])
    {
      PresentElsewhere(s.entries, s'.entries, pair, other, s.index[other]);
    }
    forall u | 0 <= u < |s'.tasks| && Claims(s'.tasks[u])
      ensures Present(s'.entries, s'.tasks[u].pair, s'.tasks[u].id)
    {
      assert PhasePair(s.tasks[u]) == s'.tasks[u].pair;
      PresentElsewhere(s.entries, s'.entries, pair, s.tasks[u].pair, s.tasks[u].id);
    }
  }

  lemma RetainVacated(s: State, t: nat, s': State)
    requires Vacated(s) && t < |s.tasks| && s.tasks[t].Evicting? && s' == Apply(false, s, Retain(t))
    requires !HasPair(s'.entries, s.tasks[t].pair) && forall e | e in s'.entries :: e in s.entries
    ensures Vacated(s')
  {
    forall u | 0 <= u < |s'.tasks| && (s'.tasks[u].Allocating? || s'.tasks[u].Pushing?)
      ensures !HasPair(s'.entries, PhasePair(s'.tasks[u]))
    {
      if u != t {
        assert s'.tasks[u] == s.tasks[u];
        FewerPairs(s.entries, s'.entries, PhasePair(s.tasks[u]));
      }
    }
  }

  lemma FewerPairs(entries: seq<Entry>, rest: seq<Entry>, pair: Pair)
    requires !HasPair(entries, pair) && forall e | e in rest :: e in entries
    ensures !HasPair(rest, pair)
  {
    forall i | 0 <= i < |rest|
      ensures PairOf(rest[i]) != pair
    {
      assert rest[i] in entries;
    }
  }

  lemma RetainAccounted(s: State, t: nat, s': State)
    requires Accounted(s) && t < |s.tasks| && s.tasks[t].Evicting? && s' == Apply(false, s, Retain(t))
    requires forall e :: e in s'.entries <==> e in s.entries && PairOf(e) != s.tasks[t].pair
    ensures Accounted(s')
  {
    forall i | 0 <= i < |s'.entries| && s'.entries[i].committed
      ensures PairOf(s'.entries[i]) in s'.index || Claimed(s', PairOf(s'.entries[i]))
    {
      var e := s'.entries[i];
      assert e in s'.entries;
      var k :| 0 <= k < |s.entries| && s.entries[k] == e;
      if PairOf(e) !in s.index {
        var u :| 0 <= u < |s.tasks| && Claims(s.tasks[u]) && s.tasks[u].pair == PairOf(e);
        assert s'.tasks[u] == s.tasks[u];
      }
    }
  }

  /** Two tasks change places in the life of one request: the pair stays, nothing else moves. */
  lemma AllocateOrderly(s: State, t: nat, s': State)
    requires OrderlyInv(s) && IdsInv(s')
    requires t < |s.tasks| && s.tasks[t].Allocating? && s' == Apply(false, s, Allocate(t))
    ensures OrderlyInv(s')
  {
    assert forall u | 0 <= u < |s.tasks| && u != t :: s'.tasks[u] == s.tasks[u];
    assert PhasePair(s'.tasks[t]) == PhasePair(s.tasks[t]);
    ClaimsKept(s, s', t);
  }

  /** A step of a task that claims nothing leaves what is claimed. */
  lemma ClaimsKept(s: State, s': State, t: nat)
    requires t < |s.tasks| == |s'.tasks| && !Claims(s.tasks[t])
    requires forall u | 0 <= u < |s.tasks| && u != t :: s'.tasks[u] == s.tasks[u]
    ensures forall pair | Claimed(s, pair) :: Claimed(s', pair)
  {
    forall pair | Claimed(s, pair)
      ensures Claimed(s', pair)
    {
      var u :| 0 <= u < |s.tasks| && Claims(s.tasks[u]) && s.tasks[u].pair == pair;
      assert s'.tasks[u] == s.tasks[u];
    }
  }

  /** A step of one task that leaves the index alone. */
  lemma QuietOneRequest(s: State, t: nat, s': State)
    requires OneRequestEach(s) && t < |s.tasks| == |s'.tasks| && s'.index == s.index
    requires s'.tasks == s.tasks[t := s'.tasks[t]] && !Busy(s'.tasks[t])
    ensures OneRequestEach(s')
  {
    assert forall u | 0 <= u < |s.tasks| && u != t :: s'.tasks[u] == s.tasks[u];
  }

  /** With the invariant a push is never of a second entry. */
  lemma OrderlyPushesNoTwin(s: State, a: Action)
    requires Vacated(s)
    ensures !PushesTwin(s, a)
  {
  }

  lemma PushOrderly(s: State, t: nat, s': State)
    requires OrderlyInv(s) && IdsInv(s') && PairsDistinct(s')
    requires t < |s.tasks| && s.tasks[t].Pushing? && s' == Apply(false, s, Push(t))
    ensures OrderlyInv(s')
  {
    ClaimsKept(s, s', t);
    PushPresent(s, t, s');
    QuietOneRequest(s, t, s');
    PushAccounted(s, t, s');
  }

  lemma PushAccounted(s: State, t: nat, s': State)
    requires Accounted(s) && (forall pair | Claimed(s, pair) :: Claimed(s', pair))
    requires t < |s.tasks| && s.tasks[t].Pushing? && !s.tasks[t].entry.committed && s' == Apply(false, s, Push(t))
    ensures Accounted(s')
  {
    assert forall i | 0 <= i < |s.entries| :: s'.entries[i] == s.entries[i];
  }

  lemma PushPresent(s: State, t: nat, s': State)
    requires Sound(s) && ClaimsPresent(s) && Vacated(s) && OneRequestEach(s)
    requires t < |s.tasks| && s.tasks[t].Pushing? && s' == Apply(false, s, Push(t))
    ensures Sound(s') && ClaimsPresent(s') && Vacated(s')
  {
    forall pair: Pair, id | Present(s.entries, pair, id)
      ensures Present(s'.entries, pair, id)
    {
      var e :| e in s.entries && e.id == id && e.committed && PairOf(e) == pair;
      assert e in s'.entries;
    }
    forall u | 0 <= u < |s'.tasks| && (s'.tasks[u].Allocating? || s'.tasks[u].Pushing?)
      ensures !HasPair(s'.entries, PhasePair(s'.tasks[u]))
    {
      assert s'.tasks[u] == s.tasks[u];
    }
  }

  /** Entry `i`, not committed so far, is marked. */
  lemma MarkOrderly(s: State, i: nat, size: int, s3Key: Option<string>, s': State)
    requires OrderlyInv(s) && IdsInv(s') && PairsDistinct(s')
    requires i < |s.entries| && !s.entries[i].committed && s' == Mark(s, i, size, s3Key)
    ensures OrderlyInv(s')
  {
    OpenIsIdle(s, i);
    MarkPresent(s, i, size, s3Key, s');
    MarkAccounted(s, i, size, s3Key, s');
    JoinOneRequest(s, s'.tasks[|s.tasks|], s');
    JoinVacated(s, s'.tasks[|s.tasks|], s');
  }

  lemma MarkPresent(s: State, i: nat, size: int, s3Key: Option<string>, s': State)
    requires Sound(s) && ClaimsPresent(s) && i < |s.entries| && s' == Mark(s, i, size, s3Key)
    ensures Sound(s') && ClaimsPresent(s')
  {
    forall pair: Pair, id | Present(s.entries, pair, id)
      ensures Present(s'.entries, pair, id)
    {
      PresentAfterAnyMark(s.entries, i, size, s3Key, pair, id);
    }
    assert s'.entries[i] in s'.entries;
  }

  lemma MarkAccounted(s: State, i: nat, size: int, s3Key: Option<string>, s': State)
    requires Accounted(s) && i < |s.entries| && s' == Mark(s, i, size, s3Key)
    ensures Accounted(s')
  {
    forall k | 0 <= k < |s'.entries| && s'.entries[k].committed
      ensures PairOf(s'.entries[k]) in s'.index || Claimed(s', PairOf(s'.entries[k]))
    {
      if k == i {
        assert Claims(s'.tasks[|s.tasks|]);
      } else {
        StillClaimed(s, s', PairOf(s.entries[k]));
      }
    }
  }

  /** A task that is no longer busy leaves what the others wait for. */
  lemma EndKeeps(s: State, t: nat, p: Phase, s': State)
    requires Vacated(s) && ClaimsPresent(s) && t < |s.tasks| && !Busy(p)
    requires s'.entries == s.entries && s'.tasks == s.tasks[t := p]
    ensures Vacated(s') && ClaimsPresent(s')
  {
    assert forall u | 0 <= u < |s.tasks| && u != t :: s'.tasks[u] == s.tasks[u];
  }

  lemma BindAccounted(s: State, t: nat, s': State)
    requires Accounted(s) && t < |s.tasks| && s.tasks[t].Binding?
    requires s'.index == s.index[s.tasks[t].pair := s.tasks[t].id] && s'.entries == s.entries
    requires s'.tasks == s.tasks[t := Saving]
    ensures Accounted(s')
  {
    forall i | 0 <= i < |s.entries| && s.entries[i].committed
      ensures PairOf(s.entries[i]) in s'.index || Claimed(s', PairOf(s.entries[i]))
    {
      var pair := PairOf(s.entries[i]);
      if pair !in s'.index {
        var u :| 0 <= u < |s.tasks| && Claims(s.tasks[u]) && s.tasks[u].pair == pair;
        assert s'.tasks[u] == s.tasks[u];
      }
    }
  }

  lemma BindOneRequest(s: State, t: nat, s': State)
    requires OneRequestEach(s) && t < |s.tasks| && s.tasks[t].Binding?
    requires s'.index == s.index[s.tasks[t].pair := s.tasks[t].id] && s'.tasks == s.tasks[t := Saving]
    ensures OneRequestEach(s')
  {
    assert PhasePair(s.tasks[t]) == s.tasks[t].pair;
    forall u | 0 <= u < |s'.tasks| && Busy(s'.tasks[u])
      ensures PhasePair(s'.tasks[u]) !in s'.index
    {
      assert u != t && s'.tasks[u] == s.tasks[u];
    }
  }

  lemma BindOrderly(s: State, t: nat, s': State)
    requires OrderlyInv(s) && IdsInv(s') && t < |s.tasks| && s.tasks[t].Binding? && !IndexLocked(s)
    requires s' == Apply(false, s, Bind(t))
    ensures OrderlyInv(s')
  {
    BindOneRequest(s, t, s');
    BindAccounted(s, t, s');
    assert Present(s.entries, s.tasks[t].pair, s.tasks[t].id);
    EndKeeps(s, t, Saving, s');
  }

  lemma SaveOrderly(s: State, t: nat, s': State)
    requires OrderlyInv(s) && IdsInv(s') && PairsDistinct(s')
    requires t < |s.tasks| && s.tasks[t].Saving? && s' == Apply(false, s, Save(t))
    ensures OrderlyInv(s')
  {
    QuietOneRequest(s, t, s');
    EndKeeps(s, t, Done, s');
    ClaimsKept(s, s', t);
  }

  lemma {:induction false} RebuildAccounts(entries: seq<Entry>, i: nat)
    requires i < |entries| && entries[i].committed
    ensures PairOf(entries[i]) in Rebuild(entries)
  {
    var n := |entries| - 1;
    if i < n {
      RebuildAccounts(entries[..n], i);
    }
  }

  lemma CrashOrderly(s: State, s': State)
    requires OrderlyInv(s) && IdsInv(s') && s' == Apply(false, s, Crash)
    ensures OrderlyInv(s')
  {
    RebuildSound(s.disk);
    forall i | 0 <= i < |s'.entries| && s'.entries[i].committed
      ensures PairOf(s'.entries[i]) in s'.index
    {
      RebuildAccounts(s.disk, i);
    }
  }

  lemma CommitOrderly(s: State, id: nat, size: int, s': State)
    requires OrderlyInv(s) && IdsInv(s') && PairsDistinct(s') && !CommitsAgain(s, Commit(id, size))
    requires s' == Apply(false, s, Commit(id, size))
    ensures OrderlyInv(s')
  {
    var i := FindId(s.entries, id);
    if i.Some? {
      MarkOrderly(s, i.value, size, Some(S3Key(id)), s');
    }
  }

  lemma FinalizeOrderly(s: State, pair: Pair, size: int, s': State)
    requires OrderlyInv(s) && IdsInv(s') && PairsDistinct(s') && s' == Apply(false, s, Finalize(pair, size))
    ensures OrderlyInv(s')
  {
    var i := FindOpen(s.entries, pair);
    if i.Some? {
      MarkOrderly(s, i.value, size, s.entries[i.value].s3Key, s');
    }
  }

  lemma ReserveOrderly(s: State, pair: Pair, v2: bool, now: int, s': State)
    requires OrderlyInv(s) && IdsInv(s') && !IndexLocked(s) && !ReservedNow(s, pair) && !BindingNow(s, pair)
    requires s' == Apply(false, s, Reserve(pair, v2, now))
    ensures OrderlyInv(s')
  {
    if pair in s.index {
      ReserveBoundOrderly(s, pair, v2, now, s');
    } else {
      ReserveFreshOrderly(s, pair, v2, now, s');
    }
  }

  lemma StepOrderly(s: State, a: Action, s': State)
    requires OrderlyInv(s) && Enabled(true, s, a) && !ReservesEarly(true, s, a) && s' == Apply(true, s, a)
    ensures OrderlyInv(s') && !PushesTwin(s, a)
  {
    StepIds(true, s, a);
    OrderlyPushesNoTwin(s, a);
    PairsDistinctIffNoTwin(s, a);
    match a
    case Reserve(pair, v2, now) => ReserveOrderly(s, pair, v2, now, s');
    case Retain(t) => RetainOrderly(s, t, s');
    case Allocate(t) => AllocateOrderly(s, t, s');
    case Push(t) => PushOrderly(s, t, s');
    case Commit(id, size) => CommitOrderly(s, id, size, s');
    case Finalize(pair, size) => FinalizeOrderly(s, pair, size, s');
    case Bind(t) => BindOrderly(s, t, s');
    case Save(t) => SaveOrderly(s, t, s');
    case Crash => CrashOrderly(s, s');
  }

  // ---- What holds of every orderly run ----

  lemma {:induction false} OrderlyRuns(acts: seq<Action>)
    requires Orderly(true, true, acts)
    ensures OrderlyInv(Exec(true, Init(), acts).value)
  {
    if acts != [] {
      var before, a := acts[..|acts| - 1], acts[|acts| - 1];
      OrderlyRuns(before);
      StepOrderly(Exec(true, Init(), before).value, a, Exec(true, Init(), acts).value);
    }
  }

  /** Clients that wait never give a pair a second entry. */
  lemma {:induction false} OrderlyNeverPushesTwin(acts: seq<Action>)
    requires Orderly(true, true, acts)
    ensures NeverPushesTwin(acts) && AlwaysDistinct(acts)
  {
    OnceIsUnrestricted(acts);
    if acts != [] {
      var before, a := acts[..|acts| - 1], acts[|acts| - 1];
      OrderlyNeverPushesTwin(before);
      OnceIsUnrestricted(before);
      OrderlyRuns(before);
      OrderlyPushesNoTwin(Exec(true, Init(), before).value, a);
    }
    AlwaysDistinctIffNoTwin(acts);
  }

  /** A committed entry is in exactly one of three places: bound, about to be bound, or being evicted. */
  ghost predicate InOnePlace(s: State, e: Entry) {
    && (PairOf(e) in s.index ==> s.index[PairOf(e)] == e.id && !Claimed(s, PairOf(e)))
    && (PairOf(e) !in s.index ==>
          exists t :: 0 <= t < |s.tasks| && Claims(s.tasks[t]) && s.tasks[t].pair == PairOf(e) && s.tasks[t].id == e.id)
    && (forall t, u | 0 <= t < u < |s.tasks| && Claims(s.tasks[t]) && Claims(s.tasks[u])
          :: !(s.tasks[t].pair == s.tasks[u].pair == PairOf(e)))
  }

  lemma OrderlyInOnePlace(s: State, e: Entry)
    requires DistinctPairs(s.entries) && Sound(s) && OneRequestEach(s) && ClaimsPresent(s) && Accounted(s)
    requires e in s.entries && e.committed
    ensures InOnePlace(s, e)
  {
    var pair := PairOf(e);
    var i :| 0 <= i < |s.entries| && s.entries[i] == e;
    assert forall t | 0 <= t < |s.tasks| && Claims(s.tasks[t]) :: PhasePair(s.tasks[t]) == s.tasks[t].pair;
    if pair in s.index {
      PresentIsOnly(s.entries, pair, s.index[pair], i);
    } else {
      var t :| 0 <= t < |s.tasks| && Claims(s.tasks[t]) && s.tasks[t].pair == pair;
      PresentIsOnly(s.entries, pair, s.tasks[t].id, i);
    }
  }

  /** At every moment of an orderly run. */
  lemma CommittedInOnePlace(acts: seq<Action>, e: Entry)
    requires Orderly(true, true, acts) && e in Exec(true, Init(), acts).value.entries && e.committed
    ensures InOnePlace(Exec(true, Init(), acts).value, e)
  {
    OrderlyRuns(acts);
    OrderlyInOnePlace(Exec(true, Init(), acts).value, e);
  }

  /** No request has anything left to do for its pair. */
  ghost predicate Settled(s: State) { forall t | 0 <= t < |s.tasks| :: !Busy(s.tasks[t]) }

  /** The index binds a pair to an id exactly if a committed entry of the pair with that id is present. */
  ghost predicate IndexIsGraph(s: State) {
    forall pair, id: nat :: pair in s.index && s.index[pair] == id <==> Present(s.entries, pair, id)
  }

  lemma OrderlySettles(s: State)
    requires OrderlyInv(s) && Settled(s)
    ensures IndexIsGraph(s)
  {
    forall pair, id: nat | Present(s.entries, pair, id)
      ensures pair in s.index && s.index[pair] == id
    {
      var i := PresentAt(s.entries, pair, id);
      assert pair in s.index;
      PresentIsOnly(s.entries, pair, s.index[pair], i);
    }
  }

  // ---- Neither half of the rule can go ----

  lemma OrderlyAppend(once: bool, wait: bool, acts: seq<Action>, s: State, a: Action, s': State)
    requires Orderly(once, wait, acts) && Exec(once, Init(), acts) == Some(s)
    requires Enabled(once, s, a) && !ReservesEarly(wait, s, a) && Apply(once, s, a) == s'
    ensures Orderly(once, wait, acts + [a]) && Exec(once, Init(), acts + [a]) == Some(s')
  {
    var longer := acts + [a];
    assert longer[..|longer| - 1] == acts && longer[|longer| - 1] == a;
    ExecAppend(once, Init(), acts, s, a, s');
  }

  /** The entry that `id` becomes, in a run of v1 reservations of one pair, before and after its commit. */
  function Opened(pair: Pair, id: nat, now: int): Entry { NewEntry(id, pair, None, now) }

  function Closed(pair: Pair, id: nat, now: int): Entry { MarkCommitted(Opened(pair, id, now), 0, Some(S3Key(id))) }

  /** Id 1 is reserved and its entry pushed. */
  lemma OpenedRun(once: bool, wait: bool, pair: Pair) returns (acts: seq<Action>)
    ensures Orderly(once, wait, acts)
    ensures Exec(once, Init(), acts) == Some(State([Opened(pair, 1, 0)], map[], 2, [], [Saving]))
  {
    var e := Opened(pair, 1, 0);
    var s1 := State([], map[], 1, [], [Allocating(pair, false, 0)]);
    var s2 := State([], map[], 2, [], [Pushing(e)]);
    OrderlyAppend(once, wait, [], Init(), Reserve(pair, false, 0), s1);
    OrderlyAppend(once, wait, [] + [Reserve(pair, false, 0)], s1, Allocate(0), s2);
    acts := [] + [Reserve(pair, false, 0)] + [Allocate(0)];
    OrderlyAppend(once, wait, acts, s2, Push(0), State([e], map[], 2, [], [Saving]));
    acts := acts + [Push(0)];
  }

  /** Then it is committed; the commit has released the entry lock and not yet taken the index lock. */
  lemma MarkedRun(pair: Pair) returns (acts: seq<Action>)
    ensures Orderly(true, false, acts)
    ensures Exec(true, Init(), acts) == Some(State([Closed(pair, 1, 0)], map[], 2, [], [Saving, Binding(pair, 1)]))
  {
    var e, c := Opened(pair, 1, 0), Closed(pair, 1, 0);
    assert FindId([e], 1) == Some(0) by {
      assert [e][..0] == [];
    }
    assert [e][0 := c] == [c];
    acts := OpenedRun(true, false, pair);
    OrderlyAppend(true, false, acts, State([e], map[], 2, [], [Saving]), Commit(1, 0),
                  State([c], map[], 2, [], [Saving, Binding(pair, 1)]));
    acts := acts + [Commit(1, 0)];
  }

  /** Meanwhile the pair is reserved again: it is not bound, so nothing is evicted. */
  lemma ReservedAgainRun(pair: Pair) returns (acts: seq<Action>)
    ensures Orderly(true, false, acts)
    ensures Exec(true, Init(), acts) ==
      Some(State([Closed(pair, 1, 0), Opened(pair, 2, 1)], map[], 3, [], [Saving, Binding(pair, 1), Saving]))
  {
    var c, e := Closed(pair, 1, 0), Opened(pair, 2, 1);
    var s4 := State([c], map[], 2, [], [Saving, Binding(pair, 1)]);
    var s5 := State([c], map[], 2, [], [Saving, Binding(pair, 1), Allocating(pair, false, 1)]);
    var s6 := State([c], map[], 3, [], [Saving, Binding(pair, 1), Pushing(e)]);
    acts := MarkedRun(pair);
    OrderlyAppend(true, false, acts, s4, Reserve(pair, false, 1), s5);
    acts := acts + [Reserve(pair, false, 1)];
    OrderlyAppend(true, false, acts, s5, Allocate(2), s6);
    acts := acts + [Allocate(2)];
    OrderlyAppend(true, false, acts, s6, Push(2), State([c, e], map[], 3, [], [Saving, Binding(pair, 1), Saving]));
    acts := acts + [Push(2)];
  }

  /** The late binding, then the second commit with its own. */
  lemma BothCommittedRun(pair: Pair) returns (acts: seq<Action>)
    ensures Orderly(true, false, acts)
    ensures Exec(true, Init(), acts) ==
      Some(State([Closed(pair, 1, 0), Closed(pair, 2, 1)], map[pair := 2], 3, [], [Saving, Saving, Saving, Saving]))
  {
    var c, e, d := Closed(pair, 1, 0), Opened(pair, 2, 1), Closed(pair, 2, 1);
    var s7 := State([c, e], map[], 3, [], [Saving, Binding(pair, 1), Saving]);
    var s8 := State([c, e], map[pair := 1], 3, [], [Saving, Saving, Saving]);
    var s9 := State([c, d], map[pair := 1], 3, [], [Saving, Saving, Saving, Binding(pair, 2)]);
    acts := ReservedAgainRun(pair);
    OrderlyAppend(true, false, acts, s7, Bind(1), s8);
    acts := acts + [Bind(1)];
    assert FindId([c, e], 2) == Some(1) by {
      assert [c, e][..1] == [c] && [c][..0] == [];
    }
    assert [c, e][1 := d] == [c, d];
    OrderlyAppend(true, false, acts, s8, Commit(2, 0), s9);
    acts := acts + [Commit(2, 0)];
    OrderlyAppend(true, false, acts, s9, Bind(3),
                  State([c, d], map[pair := 2], 3, [], [Saving, Saving, Saving, Saving]));
    acts := acts + [Bind(3)];
  }

  /**
   A client that does not wait for the binding: when the pair is reserved again, no entry of
   it is open and no request is on its way to one, but the committed entry is not bound yet
   and so is not evicted.  All requests complete, two committed entries of the pair stay, the
   index names the new one and the v1 lookup answers the old one.
   */
  lemma LateBindingRun(pair: Pair) returns (acts: seq<Action>, s: State)
    ensures Orderly(true, false, acts) && Exec(true, Init(), acts) == Some(s)
    ensures s.tasks == [Done, Done, Done, Done]
    ensures s.entries == [Closed(pair, 1, 0), Closed(pair, 2, 1)] && s.index == map[pair := 2]
    ensures LookupV1(s.entries, [pair.0], pair.1) == Some(0)
  {
    var both, bound := [Closed(pair, 1, 0), Closed(pair, 2, 1)], map[pair := 2];
    var s0 := State(both, bound, 3, [], [Saving, Saving, Saving, Saving]);
    var s1 := State(both, bound, 3, both, [Done, Saving, Saving, Saving]);
    var s2 := State(both, bound, 3, both, [Done, Done, Saving, Saving]);
    var s3 := State(both, bound, 3, both, [Done, Done, Done, Saving]);
    s := State(both, bound, 3, both, [Done, Done, Done, Done]);
    acts := BothCommittedRun(pair);
    OrderlyAppend(true, false, acts, s0, Save(0), s1);
    acts := acts + [Save(0)];
    OrderlyAppend(true, false, acts, s1, Save(1), s2);
    acts := acts + [Save(1)];
    OrderlyAppend(true, false, acts, s2, Save(2), s3);
    acts := acts + [Save(2)];
    OrderlyAppend(true, false, acts, s3, Save(3), s);
    acts := acts + [Save(3)];
    OlderIsFound(pair);
  }

  lemma OlderIsFound(pair: Pair)
    ensures LookupV1([Closed(pair, 1, 0), Closed(pair, 2, 1)], [pair.0], pair.1) == Some(0)
  {
    var both := [Closed(pair, 1, 0), Closed(pair, 2, 1)];
    assert ExactMatch(both[0], pair.0, pair.1);
    assert FirstExact(both, pair.0, pair.1) == Some(0);
    assert [pair.0][..0] == [];
  }

  /** A v1 reservation finalized through v2, whose temporary file is still there, and bound. */
  lemma FinalizedRun(wait: bool, pair: Pair) returns (acts: seq<Action>)
    ensures Orderly(false, wait, acts)
    ensures Exec(false, Init(), acts) ==
      Some(State([MarkCommitted(Opened(pair, 1, 0), 0, None)], map[pair := 1], 2, [], [Saving, Saving]))
  {
    var e, f := Opened(pair, 1, 0), MarkCommitted(Opened(pair, 1, 0), 0, None);
    assert FindOpen([e], pair) == Some(0) by {
      assert [e][..0] == [];
    }
    assert [e][0 := f] == [f];
    var s3, s4 := State([e], map[], 2, [], [Saving]), State([f], map[], 2, [], [Saving, Binding(pair, 1)]);
    acts := OpenedRun(false, wait, pair);
    OrderlyAppend(false, wait, acts, s3, Finalize(pair, 0), s4);
    acts := acts + [Finalize(pair, 0)];
    OrderlyAppend(false, wait, acts, s4, Bind(1), State([f], map[pair := 1], 2, [], [Saving, Saving]));
    acts := acts + [Bind(1)];
  }

  /** The pair is reserved again; while its entry is being evicted, a v1 commit marks that once more. */
  lemma CommittedAgainRun(wait: bool, pair: Pair) returns (acts: seq<Action>)
    ensures Orderly(false, wait, acts)
    ensures Exec(false, Init(), acts) ==
      Some(State([Closed(pair, 1, 0)], map[], 2, [], [Saving, Saving, Evicting(pair, 1, false, 0), Binding(pair, 1)]))
  {
    var f, c := MarkCommitted(Opened(pair, 1, 0), 0, None), Closed(pair, 1, 0);
    var s5 := State([f], map[pair := 1], 2, [], [Saving, Saving]);
    var s6 := State([f], map[], 2, [], [Saving, Saving, Evicting(pair, 1, false, 0)]);
    acts := FinalizedRun(wait, pair);
    assert map[pair := 1] - {pair} == map[];
    OrderlyAppend(false, wait, acts, s5, Reserve(pair, false, 0), s6);
    acts := acts + [Reserve(pair, false, 0)];
    assert FindId([f], 1) == Some(0) by {
      assert [f][..0] == [];
    }
    assert [f][0 := c] == [c];
    OrderlyAppend(false, wait, acts, s6, Commit(1, 0),
                  State([c], map[], 2, [], [Saving, Saving, Evicting(pair, 1, false, 0), Binding(pair, 1)]));
    acts := acts + [Commit(1, 0)];
  }

  /** The entry is gone, and the binding under way then points nowhere. */
  lemma BoundNowhereRun(wait: bool, pair: Pair) returns (acts: seq<Action>)
    ensures Orderly(false, wait, acts)
    ensures Exec(false, Init(), acts) ==
      Some(State([], map[pair := 1], 2, [], [Saving, Saving, Allocating(pair, false, 0), Saving]))
  {
    var c := Closed(pair, 1, 0);
    var s7 := State([c], map[], 2, [], [Saving, Saving, Evicting(pair, 1, false, 0), Binding(pair, 1)]);
    var s8 := State([], map[], 2, [], [Saving, Saving, Allocating(pair, false, 0), Binding(pair, 1)]);
    acts := CommittedAgainRun(wait, pair);
    assert Without([c], 1) == [] by {
      assert [c][..0] == [];
    }
    OrderlyAppend(false, wait, acts, s7, Retain(2), s8);
    acts := acts + [Retain(2)];
    OrderlyAppend(false, wait, acts, s8, Bind(3),
                  State([], map[pair := 1], 2, [], [Saving, Saving, Allocating(pair, false, 0), Saving]));
    acts := acts + [Bind(3)];
  }

  /**
   A client that commits a committed entry again, while it waits for every binding: the late
   binding points nowhere, and stays when the requests are through.
   */
  lemma DanglingRun(wait: bool, pair: Pair) returns (acts: seq<Action>, s: State)
    ensures Orderly(false, wait, acts) && Exec(false, Init(), acts) == Some(s)
    ensures s.index == map[pair := 1] && !Present(s.entries, pair, 1)
    ensures s.tasks == [Saving, Saving, Saving, Saving]
  {
    var e := Opened(pair, 2, 0);
    var s9 := State([], map[pair := 1], 2, [], [Saving, Saving, Allocating(pair, false, 0), Saving]);
    var s10 := State([], map[pair := 1], 3, [], [Saving, Saving, Pushing(e), Saving]);
    s := State([e], map[pair := 1], 3, [], [Saving, Saving, Saving, Saving]);
    acts := BoundNowhereRun(wait, pair);
    OrderlyAppend(false, wait, acts, s9, Allocate(2), s10);
    acts := acts + [Allocate(2)];
    OrderlyAppend(false, wait, acts, s10, Push(2), s);
    acts := acts + [Push(2)];
  }

  /**
   As a rule for clients: if no committed entry is ever committed again, every binding points
   to a present committed entry of exactly its key and version in all interleavings; without
   the rule that is not so.
   */
  lemma SoundIffCommittedOnce(once: bool)
    ensures (forall s | Reachable(once, s) :: Sound(s)) <==> once
  {
    if once {
      forall s | Reachable(once, s)
        ensures Sound(s)
      {
        var acts :| Exec(once, Init(), acts) == Some(s);
        OnceIsUnrestricted(acts);
        LiveIffNeverEvictsPending(acts);
      }
    } else {
      var pair := ("", "");
      var acts, s := DanglingRun(false, pair);
      assert Reachable(once, s) && pair in s.index;
    }
  }

  /**
   Both halves of the rule are needed: among runs that reserve no pair twice at a time, every
   one leaves the index, once no request is busy, the graph of the committed entries, if and
   only if clients commit no committed entry again and wait for the binding before they
   reserve the pair again.
   */
  lemma GraphIffClientsOrderly(once: bool, wait: bool)
    ensures (forall acts | Orderly(once, wait, acts) && Settled(Exec(once, Init(), acts).value) ::
               IndexIsGraph(Exec(once, Init(), acts).value)) <==> once && wait
  {
    var pair := ("", "");
    if once && wait {
      forall acts | Orderly(once, wait, acts) && Settled(Exec(once, Init(), acts).value)
        ensures IndexIsGraph(Exec(once, Init(), acts).value)
      {
        OrderlyRuns(acts);
        OrderlySettles(Exec(once, Init(), acts).value);
      }
    } else if once {
      var acts, s := LateBindingRun(pair);
      assert s.entries[0] in s.entries && Present(s.entries, pair, 1) && s.index[pair] == 2;
      assert Settled(s) && !IndexIsGraph(s);
    } else {
      var acts, s := DanglingRun(wait, pair);
      assert pair in s.index && s.index[pair] == 1;
      assert Settled(s) && !IndexIsGraph(s);
    }
  }
}
