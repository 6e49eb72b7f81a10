/** The host resources a VM derives from its slot. */
module VmIdentity {
  import opened Wrappers
  import opened Text
  import Jit
  import NamedPool
  import NamedPoolTheorems

  datatype Identity = Identity(
    tapName: string,
    hostIp: string,
    guestIp: string,
    guestMac: string,
    vsockCid: nat,
    cacheImage: Option<string>)

  const U32_LIMIT: nat := 0x1_0000_0000

  /** `cid_base + slot as u32`: the cast truncates and the addition wraps. */
  function VsockCid(cidBase: nat, slot: nat): nat { (cidBase + slot % U32_LIMIT) % U32_LIMIT }

  function TapName(slot: nat): string { "tap-fc" + Decimal(slot) }

  function HostIp(slot: nat): string { "172.16." + Decimal(slot) + ".1" }

  function GuestIp(slot: nat): string { "172.16." + Decimal(slot) + ".2" }

  function GuestMac(slot: nat): string { "06:00:AC:10:" + Hex2(slot) + ":02" }

  function CacheImage(dir: string, slot: nat): string { CachePrefix(dir) + Decimal(slot) + ".ext4" }

  function NewVm(slot: nat, cidBase: nat, cacheDir: Option<string>): Identity {
    Identity(TapName(slot), HostIp(slot), GuestIp(slot), GuestMac(slot), VsockCid(cidBase, slot),
             if cacheDir.Some? then Some(CacheImage(cacheDir.value, slot)) else None)
  }

  /** Joining a file name to a directory adds a slash unless there is one, or no directory. */
  function CachePrefix(dir: string): string {
    (if dir == "" || dir[|dir| - 1] == '/' then dir else dir + "/") + "slot-"
  }

  /**
   What a slot's VM is called: the two ends of its link are the first two addresses of the
   slot's own subnet, the hardware address spells the guest's address in hexadecimal, and the
   context identifier is the slot's number above the base.
   */
  lemma IdentitySpelled(slot: nat, cidBase: nat, dir: string)
    ensures var vm := NewVm(slot, cidBase, Some(dir));
      && vm.tapName == "tap-fc" + Decimal(slot)
      && vm.hostIp == "172.16." + Decimal(slot) + "." + Decimal(1)
      && vm.guestIp == "172.16." + Decimal(slot) + "." + Decimal(2)
      && vm.guestMac == "06:00:" + Hex2(172) + ":" + Hex2(16) + ":" + Hex2(slot) + ":" + Hex2(2)
      && (cidBase + slot < U32_LIMIT ==> vm.vsockCid == cidBase + slot)
      && vm.cacheImage.Some?
      && (dir != "" && dir[|dir| - 1] != '/' ==>
            vm.cacheImage.value == dir + "/" + ("slot-" + Decimal(slot) + ".ext4"))
      && (dir == "" || dir[|dir| - 1] == '/' ==> vm.cacheImage.value == dir + ("slot-" + Decimal(slot) + ".ext4"))
    ensures NewVm(slot, cidBase, None).cacheImage == None
  {
    DecimalDigits(0, 1);
    DecimalDigits(0, 2);
    Hex2Digits(10, 12);
    Hex2Digits(1, 0);
    Hex2Digits(0, 2);
    assert Hex2(172) == "AC" && Hex2(16) == "10" && Hex2(2) == "02";
    LinkEnds(slot);
    MacSpelled(slot);
    ImageSpelled(dir, slot);
  }

  lemma LinkEnds(slot: nat)
    requires Decimal(1) == "1" && Decimal(2) == "2"
    ensures HostIp(slot) == "172.16." + Decimal(slot) + "." + Decimal(1)
    ensures GuestIp(slot) == "172.16." + Decimal(slot) + "." + Decimal(2)
  {
  }

  lemma MacSpelled(slot: nat)
    requires Hex2(172) == "AC" && Hex2(16) == "10" && Hex2(2) == "02"
    ensures GuestMac(slot) == "06:00:" + Hex2(172) + ":" + Hex2(16) + ":" + Hex2(slot) + ":" + Hex2(2)
  {
  }

  lemma ImageSpelled(dir: string, slot: nat)
    ensures dir != "" && dir[|dir| - 1] != '/' ==>
      CacheImage(dir, slot) == dir + "/" + ("slot-" + Decimal(slot) + ".ext4")
    ensures dir == "" || dir[|dir| - 1] == '/' ==> CacheImage(dir, slot) == dir + ("slot-" + Decimal(slot) + ".ext4")
  {
  }

  /** Text printed between a fixed prefix and a fixed suffix can be recovered. */
  lemma Unwrap(prefix: string, suffix: string, a: string, b: string)
    requires prefix + a + suffix == prefix + b + suffix
    ensures a == b
  {
    var s := prefix + a + suffix;
    assert |a| == |b|;
    assert a == s[|prefix|..|prefix| + |a|] == b;
  }

  lemma NumeralsDiffer(prefix: string, suffix: string, a: nat, b: nat)
    requires a != b
    ensures prefix + Decimal(a) + suffix != prefix + Decimal(b) + suffix
    ensures prefix + Hex2(a) + suffix != prefix + Hex2(b) + suffix
  {
    if prefix + Decimal(a) + suffix == prefix + Decimal(b) + suffix {
      Unwrap(prefix, suffix, Decimal(a), Decimal(b));
      DecimalInjective(a, b);
    }
    if prefix + Hex2(a) + suffix == prefix + Hex2(b) + suffix {
      Unwrap(prefix, suffix, Hex2(a), Hex2(b));
      Hex2Injective(a, b);
    }
  }

  /** Two identities have no resource in common. */
  predicate Disjoint(x: Identity, y: Identity) {
    && x.tapName != y.tapName
    && x.hostIp != y.hostIp && x.guestIp != y.guestIp && x.hostIp != y.guestIp && x.guestIp != y.hostIp
    && x.guestMac != y.guestMac
    && x.vsockCid != y.vsockCid
    && (x.cacheImage.None? || x.cacheImage != y.cacheImage)
  }

  /** The context identifiers of two slots collide exactly if the slots agree modulo 2^32. */
  lemma CidsCollideExactly(cidBase: nat, a: nat, b: nat)
    ensures VsockCid(cidBase, a) == VsockCid(cidBase, b) <==> a % U32_LIMIT == b % U32_LIMIT
  {
  }

  lemma TapsDiffer(a: nat, b: nat)
    requires a != b
    ensures TapName(a) != TapName(b)
  {
    if TapName(a) == TapName(b) {
      assert Decimal(a) == TapName(a)[6..] == TapName(b)[6..] == Decimal(b);
      DecimalInjective(a, b);
    }
  }

  lemma IpsDiffer(a: nat, b: nat)
    requires a != b
    ensures HostIp(a) != HostIp(b) && GuestIp(a) != GuestIp(b)
  {
    NumeralsDiffer("172.16.", ".1", a, b);
    NumeralsDiffer("172.16.", ".2", a, b);
  }

  lemma HostNeverGuest(a: nat, b: nat)
    ensures HostIp(a) != GuestIp(b)
  {
    var x, y := HostIp(a), GuestIp(b);
    assert x[|x| - 1] == '1' && y[|y| - 1] == '2';
  }

  lemma MacsDiffer(a: nat, b: nat)
    requires a != b
    ensures GuestMac(a) != GuestMac(b)
  {
    NumeralsDiffer("06:00:AC:10:", ":02", a, b);
  }

  lemma CacheImagesDiffer(dir: string, a: nat, b: nat)
    requires a != b
    ensures CacheImage(dir, a) != CacheImage(dir, b)
  {
    NumeralsDiffer(CachePrefix(dir), ".ext4", a, b);
  }

  /**
   Different slots get disjoint resources, in text for any slots; the context identifiers
   too, exactly as long as the slots differ modulo 2^32.
   */
  lemma DistinctSlotsDisjoint(a: nat, b: nat, cidBase: nat, cacheDir: Option<string>)
    requires a != b
    ensures Disjoint(NewVm(a, cidBase, cacheDir), NewVm(b, cidBase, cacheDir)) <==> a % U32_LIMIT != b % U32_LIMIT
    ensures a < U32_LIMIT && b < U32_LIMIT ==> Disjoint(NewVm(a, cidBase, cacheDir), NewVm(b, cidBase, cacheDir))
  {
    hide VsockCid, TapName, HostIp, GuestIp, GuestMac, CacheImage, Disjoint;
    CidsCollideExactly(cidBase, a, b);
    SmallSlots(a, b);
    TextsDiffer(NewVm(a, cidBase, cacheDir), NewVm(b, cidBase, cacheDir), a, b, cidBase, cacheDir);
  }

  lemma SmallSlots(a: nat, b: nat)
    requires a != b
    ensures a < U32_LIMIT && b < U32_LIMIT ==> a % U32_LIMIT != b % U32_LIMIT
  {
  }

  /** Everything but the context identifier differs. */
  lemma TextsDiffer(x: Identity, y: Identity, a: nat, b: nat, cidBase: nat, cacheDir: Option<string>)
    requires a != b && x == NewVm(a, cidBase, cacheDir) && y == NewVm(b, cidBase, cacheDir)
    ensures Disjoint(x, y) <==> x.vsockCid != y.vsockCid
  {
    TapsDiffer(a, b);
    IpsDiffer(a, b);
    HostNeverGuest(a, b);
    HostNeverGuest(b, a);
    MacsDiffer(a, b);
    if cacheDir.Some? {
      CacheImagesDiffer(cacheDir.value, a, b);
    }
  }

  /** JIT mode, every schedule: VMs that run at the same time share no host resource. */
  lemma JitVmsAreDisjoint(max: nat, acts: seq<Jit.Action>, i: nat, j: nat, cidBase: nat, cacheDir: Option<string>)
    returns (a: nat, b: nat)
    requires max <= U32_LIMIT && Jit.Exec(max, acts).Some?
    requires i < j < |Jit.Exec(max, acts).value.tasks|
    requires Jit.HoldsSlot(Jit.Exec(max, acts).value.tasks[i]) && Jit.HoldsSlot(Jit.Exec(max, acts).value.tasks[j])
    ensures a == Jit.Exec(max, acts).value.tasks[i].phase.slot && b == Jit.Exec(max, acts).value.tasks[j].phase.slot
    ensures Disjoint(NewVm(a, cidBase, cacheDir), NewVm(b, cidBase, cacheDir))
  {
    a, b := Jit.Exec(max, acts).value.tasks[i].phase.slot, Jit.Exec(max, acts).value.tasks[j].phase.slot;
    assert a != b && a < max && b < max by {
      Jit.SlotsExclusive(max, acts, i, j);
      Jit.HeldSlotIsNotFree(max, acts, i);
      Jit.HeldSlotIsNotFree(max, acts, j);
    }
    DistinctSlotsDisjoint(a, b, cidBase, cacheDir);
  }

  /** Named pools, every pair of runs: VMs in service in two pools share no host resource. */
  lemma PoolVmsAreDisjoint(c: NamedPool.Config, acts: seq<NamedPool.Action>, i: nat,
                           d: NamedPool.Config, acts': seq<NamedPool.Action>, j: nat,
                           cidBase: nat, cacheDir: Option<string>) returns (a: nat, b: nat)
    requires NamedPool.ValidConfig(c) && NamedPool.Exec(c, acts).Some?
    requires NamedPool.ValidConfig(d) && NamedPool.Exec(d, acts').Some?
    requires forall x :: !(x in c.slots && x in d.slots)
    requires forall x | x in c.slots || x in d.slots :: x < U32_LIMIT
    requires i < |NamedPool.Exec(c, acts).value.vms| && NamedPool.InService(NamedPool.Exec(c, acts).value.vms[i])
    requires j < |NamedPool.Exec(d, acts').value.vms| && NamedPool.InService(NamedPool.Exec(d, acts').value.vms[j])
    ensures a == NamedPool.Exec(c, acts).value.vms[i].slot && b == NamedPool.Exec(d, acts').value.vms[j].slot
    ensures Disjoint(NewVm(a, cidBase, cacheDir), NewVm(b, cidBase, cacheDir))
  {
    a, b := NamedPool.Exec(c, acts).value.vms[i].slot, NamedPool.Exec(d, acts').value.vms[j].slot;
    assert a != b && a < U32_LIMIT && b < U32_LIMIT by {
      NamedPoolTheorems.PoolsNeverShareSlots(c, acts, i, d, acts', j);
      NamedPoolTheorems.InServiceSlotIsOurs(c, acts, i);
      NamedPoolTheorems.InServiceSlotIsOurs(d, acts', j);
    }
    DistinctSlotsDisjoint(a, b, cidBase, cacheDir);
  }

  /** The same for two VMs of one pool. */
  lemma SamePoolVmsAreDisjoint(c: NamedPool.Config, acts: seq<NamedPool.Action>, i: nat, j: nat,
                               cidBase: nat, cacheDir: Option<string>) returns (a: nat, b: nat)
    requires NamedPool.ValidConfig(c) && NamedPool.Exec(c, acts).Some? && NamedPoolTheorems.Distinct(c.slots)
    requires forall x | x in c.slots :: x < U32_LIMIT
    requires i < j < |NamedPool.Exec(c, acts).value.vms|
    requires NamedPool.InService(NamedPool.Exec(c, acts).value.vms[i])
    requires NamedPool.InService(NamedPool.Exec(c, acts).value.vms[j])
    ensures a == NamedPool.Exec(c, acts).value.vms[i].slot && b == NamedPool.Exec(c, acts).value.vms[j].slot
    ensures Disjoint(NewVm(a, cidBase, cacheDir), NewVm(b, cidBase, cacheDir))
  {
    a, b := NamedPool.Exec(c, acts).value.vms[i].slot, NamedPool.Exec(c, acts).value.vms[j].slot;
    assert a != b && a < U32_LIMIT && b < U32_LIMIT by {
      NamedPoolTheorems.InServiceSlots(c, acts, i, j);
      NamedPoolTheorems.InServiceSlotIsOurs(c, acts, i);
      NamedPoolTheorems.InServiceSlotIsOurs(c, acts, j);
    }
    DistinctSlotsDisjoint(a, b, cidBase, cacheDir);
  }
}
