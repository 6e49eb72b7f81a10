/** Cache entries and the two lookup APIs. */
module CacheLookup {
  import opened Wrappers
  import opened Text

  datatype Entry = Entry(
    id: nat,
    key: string,
    version: string,
    committed: bool,
    size: int,
    s3Key: Option<string>,
    createdAt: int)

  /** Committed, of the version, and with exactly this key. */
  predicate ExactMatch(e: Entry, key: string, version: string) {
    e.committed && e.key == key && e.version == version
  }

  /** Committed, of the version, and with this key as a prefix. */
  predicate PrefixMatch(e: Entry, key: string, version: string) {
    e.committed && key <= e.key && e.version == version
  }

  /** `find`: the first exact match. */
  function FirstExact(entries: seq<Entry>, key: string, version: string): (r: Option<nat>)
    ensures r.None? ==> forall i | 0 <= i < |entries| :: !ExactMatch(entries[i], key, version)
    ensures r.Some? ==> r.value < |entries| && ExactMatch(entries[r.value], key, version)
    ensures r.Some? ==> forall i | 0 <= i < r.value :: !ExactMatch(entries[i], key, version)
  {
    if entries == [] then None
    else
      var n := |entries| - 1;
      var earlier := FirstExact(entries[..n], key, version);
      if earlier.Some? then earlier
      else if ExactMatch(entries[n], key, version) then Some(n)
      else None
  }

  /** `max_by_key(created_at)` over the prefix matches: among equally new ones the last. */
  function BestPrefix(entries: seq<Entry>, key: string, version: string): (r: Option<nat>)
    ensures r.None? ==> forall i | 0 <= i < |entries| :: !PrefixMatch(entries[i], key, version)
    ensures r.Some? ==> r.value < |entries| && PrefixMatch(entries[r.value], key, version)
    ensures r.Some? ==> forall i | 0 <= i < |entries| && PrefixMatch(entries[i], key, version) ::
      entries[i].createdAt < entries[r.value].createdAt
        || (entries[i].createdAt == entries[r.value].createdAt && i <= r.value)
  {
    if entries == [] then None
    else
      var n := |entries| - 1;
      var earlier := BestPrefix(entries[..n], key, version);
      if PrefixMatch(entries[n], key, version)
        && (earlier.None? || entries[earlier.value].createdAt <= entries[n].createdAt)
      then Some(n) else earlier
  }

  /** The exact match of the earliest key that has one. */
  function ExactAny(entries: seq<Entry>, keys: seq<string>, version: string): (r: Option<nat>)
    ensures r.Some? ==> r.value < |entries| && entries[r.value].committed && entries[r.value].version == version
  {
    if keys == [] then None
    else if FirstExact(entries, keys[0], version).Some? then FirstExact(entries, keys[0], version)
    else ExactAny(entries, keys[1..], version)
  }

  /** The best prefix match of the earliest key that has one. */
  function PrefixAny(entries: seq<Entry>, keys: seq<string>, version: string): (r: Option<nat>)
    ensures r.Some? ==> r.value < |entries| && entries[r.value].committed && entries[r.value].version == version
  {
    if keys == [] then None
    else if BestPrefix(entries, keys[0], version).Some? then BestPrefix(entries, keys[0], version)
    else PrefixAny(entries, keys[1..], version)
  }

  /** v1: exact matches for all keys first, then prefix matches. */
  function LookupV1(entries: seq<Entry>, keys: seq<string>, version: string): Option<nat> {
    var exact := ExactAny(entries, keys, version);
    if exact.Some? then exact else PrefixAny(entries, keys, version)
  }

  /** v2: exact match for the key only, then prefix matches for the restore keys. */
  function LookupV2(entries: seq<Entry>, key: string, restoreKeys: seq<string>, version: string): Option<nat> {
    var exact := FirstExact(entries, key, version);
    if exact.Some? then exact else PrefixAny(entries, restoreKeys, version)
  }

  // ---- The declarative answer ----

  ghost predicate NoExact(entries: seq<Entry>, key: string, version: string) {
    forall i | 0 <= i < |entries| ::
      !(entries[i].committed && entries[i].key == key && entries[i].version == version)
  }

  ghost predicate NoPrefix(entries: seq<Entry>, key: string, version: string) {
    forall i | 0 <= i < |entries| ::
      !(entries[i].committed && key <= entries[i].key && entries[i].version == version)
  }

  /** Entry `i` is the first exact match of key `j`, and no earlier key has an exact match. */
  ghost predicate ExactHit(entries: seq<Entry>, keys: seq<string>, version: string, i: nat, j: nat) {
    && i < |entries| && j < |keys|
    && entries[i].committed && entries[i].key == keys[j] && entries[i].version == version
    && NoExact(entries[..i], keys[j], version)
    && (forall j' | 0 <= j' < j :: NoExact(entries, keys[j'], version))
  }

  /** Entry `i` is a newest prefix match of key `j`, the last such, and no earlier key has a prefix match. */
  ghost predicate PrefixHit(entries: seq<Entry>, keys: seq<string>, version: string, i: nat, j: nat) {
    && i < |entries| && j < |keys|
    && entries[i].committed && keys[j] <= entries[i].key && entries[i].version == version
    && (forall i' | 0 <= i' < |entries| && entries[i'].committed && keys[j] <= entries[i'].key
          && entries[i'].version == version ::
          entries[i'].createdAt < entries[i].createdAt || (entries[i'].createdAt == entries[i].createdAt && i' <= i))
    && (forall j' | 0 <= j' < j :: NoPrefix(entries, keys[j'], version))
  }

  /** What an answer to a v1 lookup must be, without saying how it is found. */
  ghost predicate Answers(entries: seq<Entry>, keys: seq<string>, version: string, r: Option<nat>) {
    match r
    case None => forall j | 0 <= j < |keys| :: NoPrefix(entries, keys[j], version)
    case Some(i) =>
      || (exists j: nat :: ExactHit(entries, keys, version, i, j))
      || ((forall j | 0 <= j < |keys| :: NoExact(entries, keys[j], version))
          && exists j: nat :: PrefixHit(entries, keys, version, i, j))
  }

  lemma {:induction false} ExactAnyHits(entries: seq<Entry>, keys: seq<string>, version: string)
    ensures ExactAny(entries, keys, version).None? ==> forall j | 0 <= j < |keys| :: NoExact(entries, keys[j], version)
    ensures ExactAny(entries, keys, version).Some? ==>
      exists j: nat :: ExactHit(entries, keys, version, ExactAny(entries, keys, version).value, j)
  {
    if keys != [] {
      var r := ExactAny(entries, keys, version);
      if FirstExact(entries, keys[0], version).Some? {
        assert ExactHit(entries, keys, version, r.value, 0);
      } else {
        ExactAnyHits(entries, keys[1..], version);
        if r.Some? {
          var j: nat :| ExactHit(entries, keys[1..], version, r.value, j);
          forall j' | 0 <= j' < j + 1
            ensures NoExact(entries, keys[j'], version)
          {
            if j' > 0 {
              assert keys[j'] == keys[1..][j' - 1];
            }
          }
          assert ExactHit(entries, keys, version, r.value, j + 1);
        } else {
          forall j | 0 <= j < |keys|
            ensures NoExact(entries, keys[j], version)
          {
            if j > 0 {
              assert keys[j] == keys[1..][j - 1];
            }
          }
        }
      }
    }
  }

  lemma {:induction false} PrefixAnyHits(entries: seq<Entry>, keys: seq<string>, version: string)
    ensures PrefixAny(entries, keys, version).None? ==>
      forall j | 0 <= j < |keys| :: NoPrefix(entries, keys[j], version)
    ensures PrefixAny(entries, keys, version).Some? ==>
      exists j: nat :: PrefixHit(entries, keys, version, PrefixAny(entries, keys, version).value, j)
  {
    if keys != [] {
      var r := PrefixAny(entries, keys, version);
      if BestPrefix(entries, keys[0], version).Some? {
        assert PrefixHit(entries, keys, version, r.value, 0);
      } else {
        PrefixAnyHits(entries, keys[1..], version);
        if r.Some? {
          var j: nat :| PrefixHit(entries, keys[1..], version, r.value, j);
          forall j' | 0 <= j' < j + 1
            ensures NoPrefix(entries, keys[j'], version)
          {
            if j' > 0 {
              assert keys[j'] == keys[1..][j' - 1];
            }
          }
          assert PrefixHit(entries, keys, version, r.value, j + 1);
        } else {
          forall j | 0 <= j < |keys|
            ensures NoPrefix(entries, keys[j], version)
          {
            if j > 0 {
              assert keys[j] == keys[1..][j - 1];
            }
          }
        }
      }
    }
  }

  lemma ExactIsPrefix(entries: seq<Entry>, key: string, version: string)
    requires NoPrefix(entries, key, version)
    ensures NoExact(entries, key, version)
  {
    forall i | 0 <= i < |entries|
      ensures !ExactMatch(entries[i], key, version)
    {
      assert !PrefixMatch(entries[i], key, version);
    }
  }

  lemma ExactHitUnique(entries: seq<Entry>, keys: seq<string>, version: string, i: nat, j: nat, i2: nat, j2: nat)
    requires ExactHit(entries, keys, version, i, j) && ExactHit(entries, keys, version, i2, j2)
    ensures i == i2
  {
    assert j == j2;
  }

  lemma PrefixHitUnique(entries: seq<Entry>, keys: seq<string>, version: string, i: nat, j: nat, i2: nat, j2: nat)
    requires PrefixHit(entries, keys, version, i, j) && PrefixHit(entries, keys, version, i2, j2)
    ensures i == i2
  {
    assert j == j2;
  }

  lemma LookupAnswers(entries: seq<Entry>, keys: seq<string>, version: string)
    ensures Answers(entries, keys, version, LookupV1(entries, keys, version))
  {
    ExactAnyHits(entries, keys, version);
    PrefixAnyHits(entries, keys, version);
  }

  lemma AnswerUnique(entries: seq<Entry>, keys: seq<string>, version: string, r: Option<nat>, r2: Option<nat>)
    requires Answers(entries, keys, version, r) && Answers(entries, keys, version, r2)
    ensures r == r2
  {
    if r.None? || r2.None? {
      forall j | 0 <= j < |keys|
        ensures NoPrefix(entries, keys[j], version) && NoExact(entries, keys[j], version)
      {
        ExactIsPrefix(entries, keys[j], version);
      }
    } else if j: nat :| ExactHit(entries, keys, version, r.value, j) {
      assert !NoExact(entries, keys[j], version);
      var j2: nat :| ExactHit(entries, keys, version, r2.value, j2);
      ExactHitUnique(entries, keys, version, r.value, j, r2.value, j2);
    } else {
      var j: nat :| PrefixHit(entries, keys, version, r.value, j);
      forall j2: nat
        ensures !ExactHit(entries, keys, version, r2.value, j2)
      {
        assert j2 < |keys| ==> NoExact(entries, keys[j2], version);
      }
      var j2: nat :| PrefixHit(entries, keys, version, r2.value, j2);
      PrefixHitUnique(entries, keys, version, r.value, j, r2.value, j2);
    }
  }

  /** The v1 lookup is its declarative specification, in both directions. */
  lemma LookupIsItsSpecification(entries: seq<Entry>, keys: seq<string>, version: string, r: Option<nat>)
    ensures r == LookupV1(entries, keys, version) <==> Answers(entries, keys, version, r)
  {
    LookupAnswers(entries, keys, version);
    if Answers(entries, keys, version, r) {
      AnswerUnique(entries, keys, version, r, LookupV1(entries, keys, version));
    }
  }

  /** What an answer to a v2 lookup must be: the key counts only exactly, the restore keys only as prefixes. */
  ghost predicate Answers2(entries: seq<Entry>, key: string, restoreKeys: seq<string>, version: string,
                           r: Option<nat>) {
    match r
    case None =>
      && NoExact(entries, key, version)
      && forall j | 0 <= j < |restoreKeys| :: NoPrefix(entries, restoreKeys[j], version)
    case Some(i) =>
      || ExactHit(entries, [key], version, i, 0)
      || (NoExact(entries, key, version) && exists j: nat :: PrefixHit(entries, restoreKeys, version, i, j))
  }

  lemma Lookup2Answers(entries: seq<Entry>, key: string, restoreKeys: seq<string>, version: string)
    ensures Answers2(entries, key, restoreKeys, version, LookupV2(entries, key, restoreKeys, version))
  {
    PrefixAnyHits(entries, restoreKeys, version);
    var exact := FirstExact(entries, key, version);
    if exact.Some? {
      assert ExactHit(entries, [key], version, exact.value, 0);
    }
  }

  lemma Answer2Unique(entries: seq<Entry>, key: string, restoreKeys: seq<string>, version: string,
                      r: Option<nat>, r2: Option<nat>)
    requires Answers2(entries, key, restoreKeys, version, r) && Answers2(entries, key, restoreKeys, version, r2)
    ensures r == r2
  {
    if NoExact(entries, key, version) {
      forall i: nat
        ensures !ExactHit(entries, [key], version, i, 0)
      {
      }
      if r.Some? && r2.Some? {
        var j: nat :| PrefixHit(entries, restoreKeys, version, r.value, j);
        var j2: nat :| PrefixHit(entries, restoreKeys, version, r2.value, j2);
        PrefixHitUnique(entries, restoreKeys, version, r.value, j, r2.value, j2);
      } else {
        forall i: nat, j: nat | PrefixHit(entries, restoreKeys, version, i, j)
          ensures !NoPrefix(entries, restoreKeys[j], version)
        {
        }
      }
    } else {
      ExactHitUnique(entries, [key], version, r.value, 0, r2.value, 0);
    }
  }

  /** The v2 lookup is its declarative specification, in both directions. */
  lemma Lookup2IsItsSpecification(entries: seq<Entry>, key: string, restoreKeys: seq<string>, version: string,
                                  r: Option<nat>)
    ensures r == LookupV2(entries, key, restoreKeys, version) <==> Answers2(entries, key, restoreKeys, version, r)
  {
    Lookup2Answers(entries, key, restoreKeys, version);
    if Answers2(entries, key, restoreKeys, version, r) {
      Answer2Unique(entries, key, restoreKeys, version, r, LookupV2(entries, key, restoreKeys, version));
    }
  }

  // ---- The two APIs compared ----

  lemma {:induction false} ExactAnyHasPrefix(entries: seq<Entry>, keys: seq<string>, version: string)
    requires ExactAny(entries, keys, version).Some?
    ensures PrefixAny(entries, keys, version).Some?
  {
    ExactAnyHits(entries, keys, version);
    PrefixAnyHits(entries, keys, version);
    var i := ExactAny(entries, keys, version).value;
    var j: nat :| ExactHit(entries, keys, version, i, j);
    assert PrefixMatch(entries[i], keys[j], version);
  }

  /**
   Asked for the same key and restore keys, the v1 answer is exactly: the v2 answer if the
   key matches exactly; else an exact match of a restore key; else a prefix match of the
   key itself; else the v2 answer.
   */
  lemma V1InTermsOfV2(entries: seq<Entry>, key: string, restoreKeys: seq<string>, version: string)
    ensures LookupV1(entries, [key] + restoreKeys, version) ==
      if FirstExact(entries, key, version).Some? then LookupV2(entries, key, restoreKeys, version)
      else if ExactAny(entries, restoreKeys, version).Some? then ExactAny(entries, restoreKeys, version)
      else if BestPrefix(entries, key, version).Some? then BestPrefix(entries, key, version)
      else LookupV2(entries, key, restoreKeys, version)
  {
    assert ([key] + restoreKeys)[1..] == restoreKeys;
  }

  /**
   A v2 hit is a v1 hit, on the same entry if the key matches exactly or if no restore key
   matches exactly and the key is no prefix; and v1 hits where v2 misses exactly when the
   key is a proper prefix of some entry while no restore key is.
   */
  lemma LookupsAgree(entries: seq<Entry>, key: string, restoreKeys: seq<string>, version: string)
    ensures var v1, v2 := LookupV1(entries, [key] + restoreKeys, version), LookupV2(entries, key, restoreKeys, version);
      && (v2.Some? ==> v1.Some?)
      && (FirstExact(entries, key, version).Some? ==> v1 == v2)
      && (ExactAny(entries, restoreKeys, version).None? && BestPrefix(entries, key, version).None? ==> v1 == v2)
      && (v1.Some? && v2.None? <==>
            FirstExact(entries, key, version).None? && PrefixAny(entries, restoreKeys, version).None?
            && BestPrefix(entries, key, version).Some?)
  {
    V1InTermsOfV2(entries, key, restoreKeys, version);
    if ExactAny(entries, restoreKeys, version).Some? {
      ExactAnyHasPrefix(entries, restoreKeys, version);
    }
  }

  // ---- The v1 query string ----

  function TrimAll(pieces: seq<string>): (r: seq<string>)
    ensures |r| == |pieces| && forall i | 0 <= i < |r| :: r[i] == Trim(pieces[i])
  {
    if pieces == [] then [] else [Trim(pieces[0])] + TrimAll(pieces[1..])
  }

  /** `keys.split(',').map(trim)`. */
  function KeysOf(query: string): seq<string> { TrimAll(Split(query, ',')) }

  function Join(keys: seq<string>): string
    requires keys != []
  {
    if |keys| == 1 then keys[0] else keys[0] + "," + Join(keys[1..])
  }

  /** A comma-joined list of comma-free keys is read back as that list, each key trimmed. */
  lemma {:induction false} KeysOfJoin(keys: seq<string>)
    requires keys != [] && forall i | 0 <= i < |keys| :: ',' !in keys[i]
    ensures |KeysOf(Join(keys))| == |keys| && forall i | 0 <= i < |keys| :: KeysOf(Join(keys))[i] == Trim(keys[i])
    ensures (forall i | 0 <= i < |keys| :: IsTrimmed(keys[i])) ==> KeysOf(Join(keys)) == keys
  {
    SplitOfJoin(keys);
    forall i | 0 <= i < |keys|
      ensures IsTrimmed(keys[i]) ==> Trim(keys[i]) == keys[i]
    {
      TrimFixed(keys[i]);
    }
  }

  lemma {:induction false} SplitOfJoin(keys: seq<string>)
    requires keys != [] && forall i | 0 <= i < |keys| :: ',' !in keys[i]
    ensures Split(Join(keys), ',') == keys
  {
    var query := Join(keys);
    if |keys| == 1 {
      IndexOfIs(query, ',', |query|);
      assert Split(query, ',') == [keys[0]] == keys;
    } else {
      var rest := "," + Join(keys[1..]);
      assert query == keys[0] + rest;
      IndexOfAfter(keys[0], rest, ',');
      assert query[..|keys[0]|] == keys[0];
      assert query[|keys[0]| + 1..] == Join(keys[1..]);
      SplitOfJoin(keys[1..]);
      assert keys == [keys[0]] + keys[1..];
    }
  }
}
