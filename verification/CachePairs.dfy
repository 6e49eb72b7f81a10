/** One entry per key and version under concurrency: exactly which step gives a pair a second entry. */
module CachePairs {
  import opened Wrappers
  import opened CacheLookup
  import opened CacheStore
  import opened CacheInterleaved

  /** No two entries of the list have the same key and version. */
  ghost predicate DistinctPairs(entries: seq<Entry>) {
    forall i, j | 0 <= i < j < |entries| :: PairOf(entries[i]) != PairOf(entries[j])
  }

  ghost predicate HasPair(entries: seq<Entry>, pair: Pair) {
    exists i :: 0 <= i < |entries| && PairOf(entries[i]) == pair
  }

  // ---- The law of a step ----

  /** The step adds an entry of a pair that has one already. */
  ghost predicate PushesTwin(s: State, a: Action) {
    a.Push? && a.t < |s.tasks| && s.tasks[a.t].Pushing? && HasPair(s.entries, PairOf(s.tasks[a.t].entry))
  }

  ghost predicate PairsDistinct(s: State) { DistinctPairs(s.entries) && DistinctPairs(s.disk) }

  lemma PushPairs(entries: seq<Entry>, e: Entry)
    requires DistinctPairs(entries)
    ensures DistinctPairs(entries + [e]) <==> !HasPair(entries, PairOf(e))
  {
    var longer, n := entries + [e], |entries|;
    assert longer[n] == e && forall i | 0 <= i < n :: longer[i] == entries[i];
    if HasPair(entries, PairOf(e)) {
      var i :| 0 <= i < n && PairOf(entries[i]) == PairOf(e);
      assert PairOf(longer[i]) == PairOf(longer[n]);
    }
  }

  lemma MarkPairs(entries: seq<Entry>, i: nat, size: int, s3Key: Option<string>)
    requires DistinctPairs(entries) && i < |entries|
    ensures DistinctPairs(entries[i := MarkCommitted(entries[i], size, s3Key)])
  {
    var marked := entries[i := MarkCommitted(entries[i], size, s3Key)];
    assert forall k | 0 <= k < |entries| :: PairOf(marked[k]) == PairOf(entries[k]);
  }

  lemma {:induction false} WithoutPairs(entries: seq<Entry>, id: nat)
    requires DistinctPairs(entries)
    ensures DistinctPairs(Without(entries, id))
  {
    if entries != [] {
      var n := |entries| - 1;
      var rest := Without(entries[..n], id);
      WithoutPairs(entries[..n], id);
      forall i | 0 <= i < |rest|
        ensures PairOf(rest[i]) != PairOf(entries[n])
      {
        WithoutMembers(entries[..n], id, rest[i]);
        var k :| 0 <= k < n && entries[..n][k] == rest[i];
        assert PairOf(entries[k]) != PairOf(entries[n]);
      }
    }
  }

  /**
   Restarts and second commits included, a step keeps the pairs of the entries distinct
   exactly if it does not push an entry of a pair that has one.
   */
  lemma PairsDistinctIffNoTwin(s: State, a: Action)
    requires PairsDistinct(s) && Enabled(false, s, a)
    ensures PairsDistinct(Apply(false, s, a)) <==> !PushesTwin(s, a)
  {
    match a
    case Retain(t) => WithoutPairs(s.entries, s.tasks[t].id);
    case Push(t) => PushPairs(s.entries, s.tasks[t].entry);
    case Commit(id, size) =>
      var i := FindId(s.entries, id);
      if i.Some? {
        MarkPairs(s.entries, i.value, size, Some(S3Key(id)));
      }
    case Finalize(pair, size) =>
      var i := FindOpen(s.entries, pair);
      if i.Some? {
        MarkPairs(s.entries, i.value, size, s.entries[i.value].s3Key);
      }
    case _ =>
  }

  ghost predicate AlwaysDistinct(acts: seq<Action>) {
    && Exec(false, Init(), acts).Some? && PairsDistinct(Exec(false, Init(), acts).value)
    && (acts == [] || AlwaysDistinct(acts[..|acts| - 1]))
  }

  ghost predicate NeverPushesTwin(acts: seq<Action>) {
    acts == [] || (
      var before := acts[..|acts| - 1];
      && NeverPushesTwin(before)
      && Exec(false, Init(), before).Some? && !PushesTwin(Exec(false, Init(), before).value, acts[|acts| - 1]))
  }

  /** The same over a whole run. */
  lemma {:induction false} AlwaysDistinctIffNoTwin(acts: seq<Action>)
    requires Exec(false, Init(), acts).Some?
    ensures AlwaysDistinct(acts) <==> NeverPushesTwin(acts)
  {
    if acts != [] {
      var before, a := acts[..|acts| - 1], acts[|acts| - 1];
      AlwaysDistinctIffNoTwin(before);
      if AlwaysDistinct(before) {
        PairsDistinctIffNoTwin(Exec(false, Init(), before).value, a);
      }
    }
  }
}
