/**
 Counting over a list of concurrent tasks.

 A scheduler state holds its tasks in a sequence that only grows: a task's id is its
 position.  `Count` and `Gather` sum a per-task contribution, and the lemmas say how
 the sum moves when one task takes a step.
 */
module Tally {

  function Min(a: nat, b: nat): nat { if a < b then a else b }

  function Count<T>(xs: seq<T>, p: T -> bool): nat {
    if xs == [] then 0
    else Count(xs[..|xs| - 1], p) + if p(xs[|xs| - 1]) then 1 else 0
  }

  function Gather<T, K>(xs: seq<T>, f: T -> multiset<K>): multiset<K> {
    if xs == [] then multiset{}
    else Gather(xs[..|xs| - 1], f) + f(xs[|xs| - 1])
  }

  lemma {:induction false} CountUpdate<T>(xs: seq<T>, i: nat, x: T, p: T -> bool)
    requires i < |xs|
    ensures Count(xs[i := x], p) + (if p(xs[i]) then 1 else 0) == Count(xs, p) + (if p(x) then 1 else 0)
  {
    var n := |xs| - 1;
    if i == n {
      assert xs[i := x][..n] == xs[..n];
    } else {
      assert xs[i := x][..n] == xs[..n][i := x];
      CountUpdate(xs[..n], i, x, p);
    }
  }

  lemma CountAppend<T>(xs: seq<T>, x: T, p: T -> bool)
    ensures Count(xs + [x], p) == Count(xs, p) + if p(x) then 1 else 0
  {
    assert (xs + [x])[..|xs|] == xs;
  }

  /** A task that is counted makes the count positive. */
  lemma {:induction false} CountAt<T>(xs: seq<T>, i: nat, p: T -> bool)
    requires i < |xs| && p(xs[i])
    ensures Count(xs, p) > 0
  {
    if i < |xs| - 1 {
      CountAt(xs[..|xs| - 1], i, p);
    }
  }

  /** The positions the predicate holds at. */
  ghost function Where<T>(xs: seq<T>, p: T -> bool): set<int> { set i | 0 <= i < |xs| && p(xs[i]) }

  /** The count is the number of positions the predicate holds at. */
  lemma {:induction false} CountIsNumber<T>(xs: seq<T>, p: T -> bool)
    ensures Count(xs, p) == |Where(xs, p)|
  {
    if xs != [] {
      var n := |xs| - 1;
      CountIsNumber(xs[..n], p);
      assert Where(xs, p) == Where(xs[..n], p) + if p(xs[n]) then {n} else {};
      assert n !in Where(xs[..n], p);
    }
  }

  /** Implication between predicates orders the counts, strictly if some task separates them. */
  lemma {:induction false} CountStronger<T>(xs: seq<T>, p: T -> bool, q: T -> bool)
    requires forall i | 0 <= i < |xs| :: p(xs[i]) ==> q(xs[i])
    ensures Count(xs, p) <= Count(xs, q)
    ensures (exists i | 0 <= i < |xs| :: q(xs[i]) && !p(xs[i])) ==> Count(xs, p) < Count(xs, q)
  {
    if xs != [] {
      var n := |xs| - 1;
      assert forall i | 0 <= i < n :: xs[..n][i] == xs[i];
      CountStronger(xs[..n], p, q);
      if i :| 0 <= i < |xs| && q(xs[i]) && !p(xs[i]) {
        if i < n {
          assert q(xs[..n][i]) && !p(xs[..n][i]);
        }
      }
    }
  }

  lemma {:induction false} CountNone<T>(xs: seq<T>, p: T -> bool)
    requires forall i | 0 <= i < |xs| :: !p(xs[i])
    ensures Count(xs, p) == 0
  {
    if xs != [] {
      CountNone(xs[..|xs| - 1], p);
    }
  }

  lemma {:induction false} GatherUpdate<T, K>(xs: seq<T>, i: nat, x: T, f: T -> multiset<K>)
    requires i < |xs|
    ensures Gather(xs[i := x], f) + f(xs[i]) == Gather(xs, f) + f(x)
  {
    var n := |xs| - 1;
    if i == n {
      assert xs[i := x][..n] == xs[..n];
    } else {
      assert xs[i := x][..n] == xs[..n][i := x];
      GatherUpdate(xs[..n], i, x, f);
      var rest, rest' := Gather(xs[..n], f), Gather(xs[..n][i := x], f);
      assert rest' + f(xs[i]) == rest + f(x);
      assert Gather(xs[i := x], f) + f(xs[i]) == rest' + f(xs[i]) + f(xs[n]);
    }
  }

  lemma GatherAppend<T, K>(xs: seq<T>, x: T, f: T -> multiset<K>)
    ensures Gather(xs + [x], f) == Gather(xs, f) + f(x)
  {
    assert (xs + [x])[..|xs|] == xs;
  }

  lemma {:induction false} GatherHead<T, K>(xs: seq<T>, f: T -> multiset<K>)
    requires xs != []
    ensures Gather(xs, f) == f(xs[0]) + Gather(xs[1..], f)
  {
    var n := |xs| - 1;
    if n > 0 {
      GatherHead(xs[..n], f);
      assert xs[..n][1..] == xs[1..][..n - 1];
    }
  }

  lemma {:induction false} GatherConcat<T, K>(xs: seq<T>, ys: seq<T>, f: T -> multiset<K>)
    ensures Gather(xs + ys, f) == Gather(xs, f) + Gather(ys, f)
  {
    if ys == [] {
      assert xs + ys == xs;
    } else {
      var n := |ys| - 1;
      var zs, y := xs + ys[..n], ys[n];
      assert xs + ys == zs + [y];
      GatherAppend(zs, y, f);
      GatherConcat(xs, ys[..n], f);
      assert Gather(xs + ys, f) == (Gather(xs, f) + Gather(ys[..n], f)) + f(y);
    }
  }

  lemma {:induction false} GatherAt<T, K>(xs: seq<T>, i: nat, f: T -> multiset<K>)
    requires i < |xs|
    ensures f(xs[i]) <= Gather(xs, f)
  {
    if i < |xs| - 1 {
      GatherAt(xs[..|xs| - 1], i, f);
    }
  }

  /** Two different tasks contribute separately. */
  lemma {:induction false} GatherPair<T, K>(xs: seq<T>, i: nat, j: nat, f: T -> multiset<K>)
    requires i < j < |xs|
    ensures f(xs[i]) + f(xs[j]) <= Gather(xs, f)
  {
    var n := |xs| - 1;
    if j == n {
      GatherAt(xs[..n], i, f);
    } else {
      GatherPair(xs[..n], i, j, f);
    }
  }

  lemma {:induction false} GatherNone<T, K>(xs: seq<T>, f: T -> multiset<K>)
    requires forall i | 0 <= i < |xs| :: f(xs[i]) == multiset{}
    ensures Gather(xs, f) == multiset{}
  {
    if xs != [] {
      GatherNone(xs[..|xs| - 1], f);
    }
  }

  /** When every contribution is at most one token, the number of tokens is the number of holders. */
  lemma {:induction false} GatherSize<T, K>(xs: seq<T>, f: T -> multiset<K>, p: T -> bool)
    requires forall i | 0 <= i < |xs| :: |f(xs[i])| == if p(xs[i]) then 1 else 0
    ensures |Gather(xs, f)| == Count(xs, p)
  {
    if xs != [] {
      GatherSize(xs[..|xs| - 1], f, p);
    }
  }

  lemma {:induction false} GatherMember<T, K>(xs: seq<T>, k: K, f: T -> multiset<K>) returns (i: nat)
    requires k in Gather(xs, f)
    ensures i < |xs| && k in f(xs[i])
  {
    if k in f(xs[|xs| - 1]) {
      i := |xs| - 1;
    } else {
      i := GatherMember(xs[..|xs| - 1], k, f);
    }
  }

  /** If a task gives the pool exactly what it loses, pool and tasks together are unchanged. */
  lemma Cancel<K>(pool: multiset<K>, pool': multiset<K>, held: multiset<K>, held': multiset<K>, x: multiset<K>,
                  x': multiset<K>)
    requires pool' + x' == pool + x
    requires held' + x == held + x'
    ensures pool' + held' == pool + held
  {
    assert (pool' + held') + (x + x') == (pool' + x') + (held' + x) == (pool + x) + (held + x') ==
      (pool + held) + (x + x');
    assert (pool' + held') == ((pool' + held') + (x + x')) - (x + x');
  }

  /** If a task gives up one share, and the pool gains what was not lost on the way, nothing changes in total. */
  lemma Deliver<K>(pool: multiset<K>, pool': multiset<K>, held: multiset<K>, held': multiset<K>,
                   x: multiset<K>, x': multiset<K>, sent: multiset<K>)
    requires pool' == pool + sent && x' + sent == x
    requires held' + x == held + x'
    ensures pool' + held' == pool + held
  {
    assert pool' + x' == pool + x;
    Cancel(pool, pool', held, held', x, x');
  }

  /** A set tracked as what tasks hold plus what is in hand follows a task that trades one share for another. */
  lemma Trade<K>(seen: multiset<K>, seen': multiset<K>, held: multiset<K>, held': multiset<K>, hand: multiset<K>,
                 x: multiset<K>, x': multiset<K>)
    requires seen == held + hand && seen' + x == seen + x'
    requires held' + x == held + x'
    ensures seen' == held' + hand
  {
    assert seen' + x == (held + hand) + x' == (held + x') + hand == (held' + hand) + x;
    assert seen' == (seen' + x) - x;
  }

  /** One task changes; what it gives up is what the shared places gain. */
  lemma DeliverFrom<T, K>(xs: seq<T>, t: nat, x: T, f: T -> multiset<K>, shared: multiset<K>, shared': multiset<K>,
                          sent: multiset<K>)
    requires t < |xs| && shared' == shared + sent && f(x) + sent == f(xs[t])
    ensures shared' + Gather(xs[t := x], f) == shared + Gather(xs, f)
  {
    GatherUpdate(xs, t, x, f);
    Deliver(shared, shared', Gather(xs, f), Gather(xs[t := x], f), f(xs[t]), f(x), sent);
  }

  /** A token sent into one of two queues among the shared places. */
  lemma SendInto<T, K>(pool: multiset<K>, first: seq<T>, token: multiset<K>, second: seq<T>, x: T, f: T -> multiset<K>)
    ensures pool + Gather(first + [x], f) + token + Gather(second, f) ==
      pool + Gather(first, f) + token + Gather(second, f) + f(x)
    ensures pool + Gather(first, f) + token + Gather(second + [x], f) ==
      pool + Gather(first, f) + token + Gather(second, f) + f(x)
  {
    GatherAppend(first, x, f);
    GatherAppend(second, x, f);
    Regroup(pool, Gather(first, f), token, Gather(second, f), f(x));
  }

  lemma Regroup<K>(pool: multiset<K>, first: multiset<K>, token: multiset<K>, second: multiset<K>, x: multiset<K>)
    ensures pool + (first + x) + token + second == pool + first + token + second + x
    ensures pool + first + token + (second + x) == pool + first + token + second + x
  {
  }

  lemma PopToken<K>(xs: seq<K>)
    requires xs != []
    ensures multiset(xs) == multiset(xs[..|xs| - 1]) + multiset{xs[|xs| - 1]}
  {
    assert xs == xs[..|xs| - 1] + [xs[|xs| - 1]];
  }

  /** Moving a token from the first place to the last one. */
  lemma Carry<K>(a: multiset<K>, token: multiset<K>, b: multiset<K>, c: multiset<K>, d: multiset<K>, e: multiset<K>)
    ensures (a + token) + b + c + d + e == a + b + c + d + (e + token)
  {
  }

  /** Moving a token from the third place to the first one. */
  lemma Return<K>(a: multiset<K>, b: multiset<K>, token: multiset<K>, d: multiset<K>)
    ensures (a + token) + b + multiset{} + d == a + b + token + d
  {
  }

  /** The slot indices `0..n` in order, as the slot pool is first filled. */
  function Range(n: nat): (r: seq<nat>)
    ensures |r| == n && forall i | 0 <= i < n :: r[i] == i
  {
    seq(n, i requires 0 <= i => i)
  }

  lemma RangePop(n: nat)
    requires n > 0
    ensures Range(n)[..n - 1] == Range(n - 1)
  {
  }

  lemma RangeTake(n: nat, k: nat)
    requires k <= n
    ensures Range(n)[..k] == Range(k)
  {
  }

  /** Every slot index below `n`, each exactly once. */
  function AllSlots(n: nat): multiset<nat> {
    if n == 0 then multiset{} else AllSlots(n - 1) + multiset{n - 1}
  }

  lemma {:induction false} AllSlotsOnce(n: nat, x: nat)
    ensures AllSlots(n)[x] == if x < n then 1 else 0
    ensures |AllSlots(n)| == n
  {
    if n > 0 {
      AllSlotsOnce(n - 1, x);
    }
  }

  lemma {:induction false} RangeIsAllSlots(n: nat)
    ensures multiset(Range(n)) == AllSlots(n)
  {
    if n > 0 {
      RangeIsAllSlots(n - 1);
      assert Range(n) == Range(n - 1) + [n - 1];
    }
  }

  /** With every slot accounted for once, a held slot is held once and is not free. */
  lemma HeldOnce(n: nat, free: multiset<nat>, held: multiset<nat>, x: nat)
    requires free + held == AllSlots(n) && x in held
    ensures x < n && held[x] == 1 && x !in free
  {
    AllSlotsOnce(n, x);
    assert free[x] + held[x] == AllSlots(n)[x];
  }
}
