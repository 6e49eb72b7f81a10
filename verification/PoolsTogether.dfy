/** All the named pools of a machine side by side: the greedy split and any run of each of its pools. */
module PoolsTogether {
  import opened Wrappers
  import opened NamedPool
  import opened PoolManager
  import T = NamedPoolTheorems
  import opened VmIdentity

  /** Each share, the last one included, has distinct slots below the limit. */
  lemma ShareWithin(max: nat, pools: seq<PoolSpec>, i: nat)
    requires i < |pools|
    ensures T.Distinct(Share(max, pools, i)) && forall x | x in Share(max, pools, i) :: x < max
  {
    var share := Share(max, pools, i);
    forall x | x in share
      ensures x < max
    {
      var k :| 0 <= k < |share| && share[k] == x;
      assert x == Left(max, pools, i) - 1 - k;
    }
  }

  /** So every manager the split registers runs on distinct slots below the limit, at least one. */
  lemma ManagerWithin(max: nat, pools: seq<PoolSpec>, name: string)
    requires name in Managers(max, pools, |pools|)
    ensures var slots := Managers(max, pools, |pools|)[name];
      slots != [] && T.Distinct(slots) && forall x | x in slots :: x < max
  {
    ManagersExact(max, pools, |pools|, name);
    var k :| 0 <= k < |pools| && pools[k].name == name && Managers(max, pools, |pools|)[name] == Share(max, pools, k)
      && forall l | k < l < |pools| && pools[l].name == name :: Share(max, pools, l) == [];
    ShareWithin(max, pools, k);
    NonEmptyManager(max, pools, |pools|, name);
  }

  lemma {:induction false} NonEmptyManager(max: nat, pools: seq<PoolSpec>, i: nat, name: string)
    requires i <= |pools| && name in Managers(max, pools, i)
    ensures Managers(max, pools, i)[name] != []
  {
    if i > 0 && !(Share(max, pools, i - 1) != [] && pools[i - 1].name == name) {
      NonEmptyManager(max, pools, i - 1, name);
    }
  }

  /** A configuration for the pool of this name, with the slots the split gave it. */
  ghost predicate RunsShare(c: Config, max: nat, pools: seq<PoolSpec>, name: string) {
    ValidConfig(c) && name in Managers(max, pools, |pools|) && c.slots == Managers(max, pools, |pools|)[name]
  }

  /** The i-th VM of this run is in service. */
  ghost predicate Serving(c: Config, acts: seq<Action>, i: nat) {
    && ValidConfig(c) && Exec(c, acts).Some?
    && i < |Exec(c, acts).value.vms| && InService(Exec(c, acts).value.vms[i])
  }

  function SlotAt(c: Config, acts: seq<Action>, i: nat): nat
    requires ValidConfig(c) && Exec(c, acts).Some? && i < |Exec(c, acts).value.vms|
  {
    Exec(c, acts).value.vms[i].slot
  }

  /**
   Whatever the configured pools and however each of them runs: two VMs in service on one
   machine, of different pools or of the same one, never share a slot, and use slots below
   the limit only.
   */
  lemma ServingSlotsDiffer(max: nat, pools: seq<PoolSpec>,
                           a: string, c: Config, acts: seq<Action>, i: nat,
                           b: string, d: Config, acts': seq<Action>, j: nat)
    requires RunsShare(c, max, pools, a) && Serving(c, acts, i)
    requires RunsShare(d, max, pools, b) && Serving(d, acts', j)
    requires a == b ==> c == d && acts == acts' && i != j
    ensures SlotAt(c, acts, i) != SlotAt(d, acts', j)
    ensures SlotAt(c, acts, i) < max && SlotAt(d, acts', j) < max
  {
    ManagerWithin(max, pools, a);
    ManagerWithin(max, pools, b);
    T.InServiceSlotIsOurs(c, acts, i);
    T.InServiceSlotIsOurs(d, acts', j);
    if a != b {
      forall x
        ensures !(x in c.slots && x in d.slots)
      {
        ManagersDisjoint(max, pools, a, b, x);
      }
      T.PoolsNeverShareSlots(c, acts, i, d, acts', j);
    } else if i < j {
      T.InServiceSlots(c, acts, i, j);
    } else {
      T.InServiceSlots(c, acts, j, i);
    }
  }

  /** Nor do they share any host resource derived from the slot. */
  lemma ServingVmsAreDisjoint(max: nat, pools: seq<PoolSpec>,
                              a: string, c: Config, acts: seq<Action>, i: nat,
                              b: string, d: Config, acts': seq<Action>, j: nat,
                              cidBase: nat, cacheDir: Option<string>)
    requires max <= U32_LIMIT
    requires RunsShare(c, max, pools, a) && Serving(c, acts, i)
    requires RunsShare(d, max, pools, b) && Serving(d, acts', j)
    requires a == b ==> c == d && acts == acts' && i != j
    ensures Disjoint(NewVm(SlotAt(c, acts, i), cidBase, cacheDir), NewVm(SlotAt(d, acts', j), cidBase, cacheDir))
  {
    ManagerWithin(max, pools, a);
    ManagerWithin(max, pools, b);
    if a != b {
      forall x
        ensures !(x in c.slots && x in d.slots)
      {
        ManagersDisjoint(max, pools, a, b, x);
      }
      var x, y := PoolVmsAreDisjoint(c, acts, i, d, acts', j, cidBase, cacheDir);
    } else if i < j {
      var x, y := SamePoolVmsAreDisjoint(c, acts, i, j, cidBase, cacheDir);
    } else {
      var y, x := SamePoolVmsAreDisjoint(c, acts, j, i, cidBase, cacheDir);
    }
  }
}
