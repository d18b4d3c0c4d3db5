/** What a successful plan guarantees, and when a plan may be refused for want of room. */
module VmAllocationSoundness {
  import opened Wrappers
  import opened FirstFit
  import opened VmAllocationModel

  // ---------------------------------------------------------------- the promises

  /** The rows answer the request machine by machine and interface by interface, manual values verbatim. */
  ghost predicate DescribesNics(vm: VmRequest, nets: Networks, rows: seq<NicRow>)
    requires Indexed(vm, nets)
  {
    && |rows| == |vm.nics|
    && forall j :: 0 <= j < |rows| ==>
         var nic := Nic(vm, j);
         var net := nets[nic.network];
         && rows[j].index == j && rows[j].key == nic.key && SameNetwork(rows[j], net) && rows[j].gateway == net.gateway
         && (nic.ip.Some? ==> nic.ip == Some(rows[j].ip))
  }

  ghost predicate Describes(r: Request, nets: Networks, rows: seq<VmRow>)
    requires forall v :: 0 <= v < |r.vms| ==> Indexed(r.vms[v], nets)
  {
    && |rows| == |r.vms|
    && forall v :: 0 <= v < |rows| ==>
         && rows[v].node == r.vms[v].node && (r.vms[v].vmid.Some? ==> r.vms[v].vmid == Some(rows[v].vmid))
         && DescribesNics(r.vms[v], nets, rows[v].nics)
  }

  /** No identifier and no bridge address is given out twice. */
  ghost predicate Exclusive(rows: seq<VmRow>) {
    && (forall u, v :: 0 <= u < v < |rows| ==> rows[u].vmid != rows[v].vmid)
    && (forall u, v :: 0 <= u < v < |rows| ==> NicPairs(rows[u].nics) !! NicPairs(rows[v].nics))
    && forall v :: 0 <= v < |rows| ==> DistinctPairs(rows[v].nics)
  }

  ghost predicate DistinctPairs(nics: seq<NicRow>) {
    forall i, j :: 0 <= i < j < |nics| ==> (nics[i].bridge, nics[i].ip) != (nics[j].bridge, nics[j].ip)
  }

  /** Nothing given out is protected, unusable in its subnet, or held by anybody else. */
  ghost predicate Admissible(rows: seq<VmRow>, taken: Taken, ranges: Ranges) {
    && Ids(rows) !! taken.ids && Ips(rows) !! taken.ips
    && (forall v :: 0 <= v < |rows| ==> !InRanges(rows[v].vmid, ranges))
    && forall v, j :: 0 <= v < |rows| && 0 <= j < |rows[v].nics| ==> Usable(rows[v].nics[j].ip, rows[v].nics[j].subnet)
  }

  // ---------------------------------------------------------------- first phase

  predicate Ready(vm: VmRequest, nets: Networks) {
    forall i | 0 <= i < |vm.nics| :: vm.nics[i].network in nets
  }

  function Want(vm: VmRequest, retained: Retained, nets: Networks, i: nat): Option<Ip>
    requires i < |vm.nics| && Ready(vm, nets)
  {
    WantedIp(vm.nics[i], retained, nets[vm.nics[i].network])
  }

  function Bridge(vm: VmRequest, nets: Networks, i: nat): string
    requires i < |vm.nics| && Ready(vm, nets)
  {
    nets[vm.nics[i].network].bridge
  }

  function WantedPairs(vm: VmRequest, retained: Retained, nets: Networks, k: nat): Claims
    requires k <= |vm.nics| && Ready(vm, nets)
  {
    set i | 0 <= i < k && Want(vm, retained, nets, i).Some? :: (Bridge(vm, nets, i), Want(vm, retained, nets, i).value)
  }

  /** What the first phase adds to the claims is exactly the wanted pairs, none of them held before. */
  lemma {:induction false} FixNicsClaims(vm: VmRequest, retained: Retained, nets: Networks, taken: Claims, claimed: Claims, k: nat)
    requires k <= |vm.nics| && Ready(vm, nets)
    requires FixNics(vm, retained, nets, taken, claimed, k).Ok?
    ensures FixNics(vm, retained, nets, taken, claimed, k).value.claimed == claimed + WantedPairs(vm, retained, nets, k)
    ensures WantedPairs(vm, retained, nets, k) !! taken + claimed
  {
    if k == 0 {
      assert WantedPairs(vm, retained, nets, 0) == {};
    } else {
      FixNicsClaims(vm, retained, nets, taken, claimed, k - 1);
      WantedGrows(vm, retained, nets, k);
    }
  }

  lemma WantedGrows(vm: VmRequest, retained: Retained, nets: Networks, k: nat)
    requires 0 < k <= |vm.nics| && Ready(vm, nets)
    ensures WantedPairs(vm, retained, nets, k) == WantedPairs(vm, retained, nets, k - 1)
      + (if Want(vm, retained, nets, k - 1).Some? then {(Bridge(vm, nets, k - 1), Want(vm, retained, nets, k - 1).value)} else {})
  {}

  /** The fixed addresses are the wanted ones, each usable in its subnet. */
  lemma {:induction false} FixNicsValues(vm: VmRequest, retained: Retained, nets: Networks, taken: Claims, claimed: Claims, k: nat)
    requires k <= |vm.nics| && Ready(vm, nets)
    requires forall i, j :: 0 <= i < j < |vm.nics| ==> vm.nics[i].index != vm.nics[j].index
    requires FixNics(vm, retained, nets, taken, claimed, k).Ok?
    ensures forall x :: x in FixNics(vm, retained, nets, taken, claimed, k).value.ips ==> exists i :: 0 <= i < k && vm.nics[i].index == x
    ensures forall i :: 0 <= i < k ==>
              PinnedAs(vm, retained, nets, FixNics(vm, retained, nets, taken, claimed, k).value.ips, i)
  {
    if k > 0 {
      FixNicsValues(vm, retained, nets, taken, claimed, k - 1);
      var before := FixNics(vm, retained, nets, taken, claimed, k - 1).value.ips;
      var after := FixNics(vm, retained, nets, taken, claimed, k).value.ips;
      assert forall x :: x in after ==> x in before || x == vm.nics[k - 1].index;
      forall i | 0 <= i < k ensures PinnedAs(vm, retained, nets, after, i) {
        if i < k - 1 { assert PinnedAs(vm, retained, nets, before, i); }
      }
    }
  }

  ghost predicate PinnedAs(vm: VmRequest, retained: Retained, nets: Networks, ips: map<nat, Ip>, i: nat)
    requires i < |vm.nics| && Ready(vm, nets)
  {
    var w := Want(vm, retained, nets, i);
    && (w.Some? <==> vm.nics[i].index in ips)
    && (w.Some? ==> ips[vm.nics[i].index] == w.value && Usable(w.value, nets[vm.nics[i].network].subnet))
  }

  lemma {:induction false} FixNicsDistinct(vm: VmRequest, retained: Retained, nets: Networks, taken: Claims, claimed: Claims, k: nat)
    requires k <= |vm.nics| && Ready(vm, nets)
    requires FixNics(vm, retained, nets, taken, claimed, k).Ok?
    ensures forall i, j :: 0 <= i < j < k && Want(vm, retained, nets, i).Some? && Want(vm, retained, nets, j).Some? ==>
              Bridge(vm, nets, i) != Bridge(vm, nets, j) || Want(vm, retained, nets, i) != Want(vm, retained, nets, j)
  {
    if k > 0 {
      FixNicsDistinct(vm, retained, nets, taken, claimed, k - 1);
      FixNicsClaims(vm, retained, nets, taken, claimed, k - 1);
      var j := k - 1;
      forall i | 0 <= i < j && Want(vm, retained, nets, i).Some? && Want(vm, retained, nets, j).Some?
        ensures Bridge(vm, nets, i) != Bridge(vm, nets, j) || Want(vm, retained, nets, i) != Want(vm, retained, nets, j)
      {
        assert (Bridge(vm, nets, i), Want(vm, retained, nets, i).value) in WantedPairs(vm, retained, nets, j);
      }
    }
  }

  /** Every fixed address is usable, and manual ones are fixed verbatim. */
  ghost predicate WishesOk(vm: VmRequest, nets: Networks, wants: map<nat, Ip>)
    requires Indexed(vm, nets)
  {
    forall j :: 0 <= j < |vm.nics| ==>
      && (j in wants ==> Usable(wants[j], nets[Nic(vm, j).network].subnet))
      && (Nic(vm, j).ip.Some? ==> j in wants && wants[j] == Nic(vm, j).ip.value)
  }

  lemma PositionOf(nics: seq<NicRequest>, i: nat)
    requires ContiguousNics(nics) && i < |nics|
    ensures Position(nics, nics[i].index) == i
  {
    var p := Position(nics, nics[i].index);
    assert p < |nics| && nics[p].index == nics[i].index;
  }

  /** Interface by interface, the fixed addresses are the wanted ones. */
  ghost predicate PinsWanted(vm: VmRequest, retained: Retained, nets: Networks, ips: map<nat, Ip>)
    requires Indexed(vm, nets)
  {
    forall j :: 0 <= j < |vm.nics| ==> IpSlots(vm, nets, ips)[j].want == WantedIp(Nic(vm, j), retained, nets[Nic(vm, j).network])
  }

  lemma FixNicsPins(vm: VmRequest, retained: Retained, nets: Networks, taken: Claims, claimed: Claims)
    requires Ready(vm, nets) && ContiguousNics(vm.nics) && Indexed(vm, nets)
    requires FixNics(vm, retained, nets, taken, claimed, |vm.nics|).Ok?
    ensures PinsWanted(vm, retained, nets, FixNics(vm, retained, nets, taken, claimed, |vm.nics|).value.ips)
    ensures WishesOk(vm, nets, FixNics(vm, retained, nets, taken, claimed, |vm.nics|).value.ips)
  {
    FixNicsValues(vm, retained, nets, taken, claimed, |vm.nics|);
    var ips := FixNics(vm, retained, nets, taken, claimed, |vm.nics|).value.ips;
    forall j | 0 <= j < |vm.nics|
      ensures IpSlots(vm, nets, ips)[j].want == WantedIp(Nic(vm, j), retained, nets[Nic(vm, j).network])
      ensures j in ips ==> Usable(ips[j], nets[Nic(vm, j).network].subnet)
      ensures Nic(vm, j).ip.Some? ==> j in ips && ips[j] == Nic(vm, j).ip.value
    {
      assert PinnedAs(vm, retained, nets, ips, Position(vm.nics, j));
    }
  }

  /** The slot of an interface, by its place in the request. */
  lemma SlotOf(vm: VmRequest, retained: Retained, nets: Networks, ips: map<nat, Ip>, j: nat)
    requires Ready(vm, nets) && Indexed(vm, nets) && PinsWanted(vm, retained, nets, ips) && j < |vm.nics|
    ensures var s := IpSlots(vm, nets, ips)[j];
            s.want == Want(vm, retained, nets, Position(vm.nics, j)) && s.pool == Bridge(vm, nets, Position(vm.nics, j))
  {}

  lemma WantedAsWishes(vm: VmRequest, retained: Retained, nets: Networks, ips: map<nat, Ip>)
    requires Ready(vm, nets) && ContiguousNics(vm.nics) && Indexed(vm, nets) && PinsWanted(vm, retained, nets, ips)
    ensures Wishes(IpSlots(vm, nets, ips)) == WantedPairs(vm, retained, nets, |vm.nics|)
  {
    var slots := IpSlots(vm, nets, ips);
    WishesAreWanted(vm, retained, nets, ips, slots);
    WantedAreWishes(vm, retained, nets, ips, slots);
  }

  lemma WishesAreWanted(vm: VmRequest, retained: Retained, nets: Networks, ips: map<nat, Ip>, slots: seq<Slot>)
    requires Ready(vm, nets) && Indexed(vm, nets) && PinsWanted(vm, retained, nets, ips) && slots == IpSlots(vm, nets, ips)
    ensures Wishes(slots) <= WantedPairs(vm, retained, nets, |vm.nics|)
  {
    forall c | c in Wishes(slots) ensures c in WantedPairs(vm, retained, nets, |vm.nics|) {
      var j :| 0 <= j < |slots| && slots[j].want.Some? && c == (slots[j].pool, slots[j].want.value);
      SlotOf(vm, retained, nets, ips, j);
    }
  }

  lemma WantedAreWishes(vm: VmRequest, retained: Retained, nets: Networks, ips: map<nat, Ip>, slots: seq<Slot>)
    requires Ready(vm, nets) && ContiguousNics(vm.nics) && Indexed(vm, nets) && PinsWanted(vm, retained, nets, ips)
    requires slots == IpSlots(vm, nets, ips)
    ensures WantedPairs(vm, retained, nets, |vm.nics|) <= Wishes(slots)
  {
    forall c | c in WantedPairs(vm, retained, nets, |vm.nics|) ensures c in Wishes(slots) {
      var i :| 0 <= i < |vm.nics| && Want(vm, retained, nets, i).Some? && c == (Bridge(vm, nets, i), Want(vm, retained, nets, i).value);
      PositionOf(vm.nics, i);
      WantedIsWish(vm, retained, nets, ips, i);
    }
  }

  lemma WantedIsWish(vm: VmRequest, retained: Retained, nets: Networks, ips: map<nat, Ip>, i: nat)
    requires Ready(vm, nets) && Indexed(vm, nets) && PinsWanted(vm, retained, nets, ips) && i < |vm.nics|
    requires vm.nics[i].index < |vm.nics| && Position(vm.nics, vm.nics[i].index) == i && Want(vm, retained, nets, i).Some?
    ensures (Bridge(vm, nets, i), Want(vm, retained, nets, i).value) in Wishes(IpSlots(vm, nets, ips))
  {
    SlotOf(vm, retained, nets, ips, vm.nics[i].index);
    var s := IpSlots(vm, nets, ips)[vm.nics[i].index];
    assert (s.pool, s.want.value) == (Bridge(vm, nets, i), Want(vm, retained, nets, i).value);
  }

  lemma WishesDistinct(vm: VmRequest, retained: Retained, nets: Networks, taken: Claims, claimed: Claims, ips: map<nat, Ip>)
    requires Ready(vm, nets) && Indexed(vm, nets) && PinsWanted(vm, retained, nets, ips)
    requires FixNics(vm, retained, nets, taken, claimed, |vm.nics|).Ok?
    ensures DistinctWishes(IpSlots(vm, nets, ips))
  {
    FixNicsDistinct(vm, retained, nets, taken, claimed, |vm.nics|);
    var slots := IpSlots(vm, nets, ips);
    forall a, b | 0 <= a < b < |vm.nics| && slots[a].want.Some? && slots[b].want.Some?
      ensures slots[a].pool != slots[b].pool || slots[a].want != slots[b].want
    {
      SlotOf(vm, retained, nets, ips, a);
      SlotOf(vm, retained, nets, ips, b);
    }
  }

  ghost predicate AllValid(vms: seq<VmRequest>, nets: Networks) {
    && Networked(vms, nets)
    && forall v :: 0 <= v < |vms| ==> Ready(vms[v], nets) && ContiguousNics(vms[v].nics) && Indexed(vms[v], nets)
  }

  /** The value a machine's identifier is pinned to, and the interfaces it retains. */
  function PinnedId(vm: VmRequest, current: seq<VmRow>): Option<nat> {
    var prior := Previous(current, vm.node);
    if vm.vmid.Some? then vm.vmid else if prior.Some? then Some(prior.value.vmid) else None
  }

  function Kept(vm: VmRequest, nets: Networks, current: seq<VmRow>): Retained
    requires Ready(vm, nets) && vm.nics != []
  {
    var retained := RetainedNics(vm, OldNics(Previous(current, vm.node)), nets);
    if retained.Ok? then retained.value else map[]
  }

  /** Machine by machine: the identifier and the addresses are the pinned ones, and may be used. */
  ghost predicate FixedVm(vm: VmRequest, nets: Networks, current: seq<VmRow>, taken: Taken, ranges: Ranges,
                          id: Option<nat>, ips: map<nat, Ip>)
    requires Indexed(vm, nets) && Ready(vm, nets) && vm.nics != []
  {
    && id == PinnedId(vm, current) && (id.Some? ==> !InRanges(id.value, ranges) && ("", id.value) !in taken.ids)
    && PinsWanted(vm, Kept(vm, nets, current), nets, ips) && WishesOk(vm, nets, ips)
    && DistinctWishes(IpSlots(vm, nets, ips)) && Wishes(IpSlots(vm, nets, ips)) !! taken.ips
  }

  /** One machine's interfaces after the first phase. */
  lemma FixVmPins(vm: VmRequest, nets: Networks, current: seq<VmRow>, taken: Claims, claimed: Claims)
    requires Ready(vm, nets) && vm.nics != [] && ContiguousNics(vm.nics) && Indexed(vm, nets)
    requires FixNics(vm, Kept(vm, nets, current), nets, taken, claimed, |vm.nics|).Ok?
    ensures var f := FixNics(vm, Kept(vm, nets, current), nets, taken, claimed, |vm.nics|).value;
            && PinsWanted(vm, Kept(vm, nets, current), nets, f.ips) && WishesOk(vm, nets, f.ips)
            && DistinctWishes(IpSlots(vm, nets, f.ips)) && Wishes(IpSlots(vm, nets, f.ips)) !! taken + claimed
            && f.claimed == claimed + Wishes(IpSlots(vm, nets, f.ips))
  {
    var kept := Kept(vm, nets, current);
    var f := FixNics(vm, kept, nets, taken, claimed, |vm.nics|).value;
    FixNicsPins(vm, kept, nets, taken, claimed);
    FixNicsClaims(vm, kept, nets, taken, claimed, |vm.nics|);
    WantedAsWishes(vm, kept, nets, f.ips);
    WishesDistinct(vm, kept, nets, taken, claimed, f.ips);
  }

  /** What the first phase adds for machine k - 1. */
  lemma FixVmsStep(vms: seq<VmRequest>, current: seq<VmRow>, nets: Networks, taken: Taken, ranges: Ranges, k: nat)
      returns (before: Fixed, f: Fixed, nics: FixedNics)
    requires 0 < k <= |vms| && AllValid(vms, nets) && FixVms(vms, current, nets, taken, ranges, k).Ok?
    ensures FixVms(vms, current, nets, taken, ranges, k) == Ok(f)
    ensures FixVms(vms, current, nets, taken, ranges, k - 1) == Ok(before)
    ensures FixNics(vms[k - 1], Kept(vms[k - 1], nets, current), nets, taken.ips, before.claimedIps, |vms[k - 1].nics|) == Ok(nics)
    ensures FixId(vms[k - 1], Previous(current, vms[k - 1].node), taken.ids, before.claimedIds, ranges)
      == Ok(PinnedId(vms[k - 1], current))
    ensures f.ids == before.ids + [PinnedId(vms[k - 1], current)] && f.ips == before.ips + [nics.ips]
    ensures f.claimedIps == nics.claimed
    ensures f.claimedIds == before.claimedIds
      + (if f.ids[k - 1].Some? then {("", f.ids[k - 1].value)} else {})
  {
    f := FixVms(vms, current, nets, taken, ranges, k).value;
    before := FixVms(vms, current, nets, taken, ranges, k - 1).value;
    nics := FixNics(vms[k - 1], Kept(vms[k - 1], nets, current), nets, taken.ips, before.claimedIps, |vms[k - 1].nics|).value;
  }

  lemma {:induction false} FixVmsEach(vms: seq<VmRequest>, current: seq<VmRow>, nets: Networks, taken: Taken, ranges: Ranges,
                                      k: nat, v: nat)
    requires v < k <= |vms| && AllValid(vms, nets) && FixVms(vms, current, nets, taken, ranges, k).Ok?
    ensures var f := FixVms(vms, current, nets, taken, ranges, k).value;
            FixedVm(vms[v], nets, current, taken, ranges, f.ids[v], f.ips[v])
  {
    var before, f, nics := FixVmsStep(vms, current, nets, taken, ranges, k);
    if v < k - 1 {
      FixVmsEach(vms, current, nets, taken, ranges, k - 1, v);
      assert f.ids[v] == before.ids[v] && f.ips[v] == before.ips[v];
    } else {
      FixVmPins(vms[v], nets, current, taken.ips, before.claimedIps);
    }
  }

  function WishIds(ids: seq<Option<nat>>): Claims { set v | 0 <= v < |ids| && ids[v].Some? :: ("", ids[v].value) }

  function WishIps(vms: seq<VmRequest>, nets: Networks, ips: seq<map<nat, Ip>>): Claims
    requires |ips| <= |vms| && AllValid(vms, nets)
  {
    if ips == [] then {} else
    WishIps(vms, nets, ips[..|ips| - 1]) + Wishes(IpSlots(vms[|ips| - 1], nets, ips[|ips| - 1]))
  }

  lemma {:induction false} WishIpsHas(vms: seq<VmRequest>, nets: Networks, ips: seq<map<nat, Ip>>, v: nat)
    requires v < |ips| <= |vms| && AllValid(vms, nets)
    ensures Wishes(IpSlots(vms[v], nets, ips[v])) <= WishIps(vms, nets, ips)
    decreases |ips|
  {
    if v < |ips| - 1 { WishIpsHas(vms, nets, ips[..|ips| - 1], v); }
  }

  /** Across machines: the claims are all the wishes, and no two machines wish for the same thing. */
  lemma {:induction false} FixVmsClaims(vms: seq<VmRequest>, current: seq<VmRow>, nets: Networks, taken: Taken, ranges: Ranges, k: nat)
    requires k <= |vms| && AllValid(vms, nets) && FixVms(vms, current, nets, taken, ranges, k).Ok?
    ensures var f := FixVms(vms, current, nets, taken, ranges, k).value;
            f.claimedIds == WishIds(f.ids) && f.claimedIps == WishIps(vms, nets, f.ips)
  {
    if k > 0 {
      var before, f, nics := FixVmsStep(vms, current, nets, taken, ranges, k);
      FixVmsClaims(vms, current, nets, taken, ranges, k - 1);
      FixVmPins(vms[k - 1], nets, current, taken.ips, before.claimedIps);
      assert f.ids[..k - 1] == before.ids && f.ips[..k - 1] == before.ips;
      WishIdsGrow(f.ids);
    }
  }

  lemma {:induction false} FixVmsApart(vms: seq<VmRequest>, current: seq<VmRow>, nets: Networks, taken: Taken, ranges: Ranges,
                                       k: nat, u: nat, v: nat)
    requires u < v < k <= |vms| && AllValid(vms, nets) && FixVms(vms, current, nets, taken, ranges, k).Ok?
    ensures var f := FixVms(vms, current, nets, taken, ranges, k).value;
            && (f.ids[u].Some? ==> f.ids[u] != f.ids[v])
            && Wishes(IpSlots(vms[u], nets, f.ips[u])) !! Wishes(IpSlots(vms[v], nets, f.ips[v]))
  {
    var before, f, nics := FixVmsStep(vms, current, nets, taken, ranges, k);
    assert f.ids[u] == before.ids[u] && f.ips[u] == before.ips[u];
    if v < k - 1 {
      FixVmsApart(vms, current, nets, taken, ranges, k - 1, u, v);
      assert f.ids[v] == before.ids[v] && f.ips[v] == before.ips[v];
    } else {
      FixVmsClaims(vms, current, nets, taken, ranges, k - 1);
      LastApart(vms, current, nets, taken, ranges, before, nics.ips, u);
    }
  }

  lemma LastApart(vms: seq<VmRequest>, current: seq<VmRow>, nets: Networks, taken: Taken, ranges: Ranges,
                  before: Fixed, ips: map<nat, Ip>, u: nat)
    requires AllValid(vms, nets) && u < |before.ids| == |before.ips| < |vms|
    requires before.claimedIds == WishIds(before.ids) && before.claimedIps == WishIps(vms, nets, before.ips)
    requires var vm := vms[|before.ids|];
             && FixId(vm, Previous(current, vm.node), taken.ids, before.claimedIds, ranges) == Ok(PinnedId(vm, current))
             && var nics := FixNics(vm, Kept(vm, nets, current), nets, taken.ips, before.claimedIps, |vm.nics|);
                nics.Ok? && nics.value.ips == ips
    ensures before.ids[u].Some? ==> before.ids[u] != PinnedId(vms[|before.ids|], current)
    ensures Wishes(IpSlots(vms[u], nets, before.ips[u])) !! Wishes(IpSlots(vms[|before.ids|], nets, ips))
  {
    var v := |before.ids|;
    FixVmPins(vms[v], nets, current, taken.ips, before.claimedIps);
    WishIpsHas(vms, nets, before.ips, u);
    if before.ids[u].Some? { assert ("", before.ids[u].value) in WishIds(before.ids); }
  }

  lemma WishIdsGrow(ids: seq<Option<nat>>)
    requires ids != []
    ensures WishIds(ids) == WishIds(ids[..|ids| - 1]) + (if ids[|ids| - 1].Some? then {("", ids[|ids| - 1].value)} else {})
  {
    var n := |ids| - 1;
    forall c | c in WishIds(ids[..n]) ensures c in WishIds(ids) {
      var v :| 0 <= v < n && ids[..n][v].Some? && c == ("", ids[..n][v].value);
      assert ids[v] == ids[..n][v];
    }
    forall c | c in WishIds(ids) ensures c in WishIds(ids[..n]) || (ids[n].Some? && c == ("", ids[n].value)) {
      var v :| 0 <= v < |ids| && ids[v].Some? && c == ("", ids[v].value);
      if v < n { assert ids[v] == ids[..n][v]; }
    }
  }
}
