/** Why a plan is refused: every error of the first phase names a pinned value that may not be used. */
module VmAllocationRefusals {
  import opened Wrappers
  import opened FirstFit
  import opened VmAllocationModel
  import opened VmAllocationSoundness
  import opened VmAllocationTheorems

  /** The address interface i asks for cannot be given: unusable, or held by others or by an earlier wish. */
  ghost predicate AddressRefused(vm: VmRequest, retained: Retained, nets: Networks, held: Claims, i: nat, e: AllocError)
    requires i < |vm.nics| && Ready(vm, nets)
  {
    var w := Want(vm, retained, nets, i);
    var p := (Bridge(vm, nets, i), if w.Some? then w.value else 0);
    && w.Some?
    && match e
       case Invalid => !Usable(w.value, nets[vm.nics[i].network].subnet)
       case Occupied => p in held || exists k :: 0 <= k < i && Want(vm, retained, nets, k).Some?
                                                && (Bridge(vm, nets, k), Want(vm, retained, nets, k).value) == p
       case _ => false
  }

  lemma {:induction false} FixNicsRefused(vm: VmRequest, retained: Retained, nets: Networks, taken: Claims, claimed: Claims, k: nat)
      returns (i: nat)
    requires k <= |vm.nics| && Ready(vm, nets) && FixNics(vm, retained, nets, taken, claimed, k).Err?
    ensures i < k && AddressRefused(vm, retained, nets, taken + claimed, i, FixNics(vm, retained, nets, taken, claimed, k).error)
  {
    i := k - 1;
    if FixNics(vm, retained, nets, taken, claimed, k - 1).Err? {
      i := FixNicsRefused(vm, retained, nets, taken, claimed, k - 1);
    } else {
      FixNicsClaims(vm, retained, nets, taken, claimed, k - 1);
      var p := (Bridge(vm, nets, i), Want(vm, retained, nets, i).value);
      if p in WantedPairs(vm, retained, nets, k - 1) {
        var m :| 0 <= m < k - 1 && Want(vm, retained, nets, m).Some?
                 && p == (Bridge(vm, nets, m), Want(vm, retained, nets, m).value);
      }
    }
  }

  /** Machine v cannot be pinned, given what the machines before it are pinned to. */
  ghost predicate MachineRefused(vms: seq<VmRequest>, current: seq<VmRow>, nets: Networks, taken: Taken, ranges: Ranges,
                                 before: Fixed, e: AllocError)
    requires AllValid(vms, nets) && |before.ids| == |before.ips| < |vms|
  {
    var vm := vms[|before.ids|];
    var id := PinnedId(vm, current);
    match e
    case Protected => id.Some? && InRanges(id.value, ranges)
    case NicIdentityRequired => RetainedNics(vm, OldNics(Previous(current, vm.node)), nets).Err?
    case Occupied =>
      || (id.Some? && ("", id.value) in taken.ids + WishIds(before.ids))
      || exists i :: 0 <= i < |vm.nics|
                     && AddressRefused(vm, Kept(vm, nets, current), nets, taken.ips + WishIps(vms, nets, before.ips), i, e)
    case Invalid =>
      exists i :: 0 <= i < |vm.nics|
                  && AddressRefused(vm, Kept(vm, nets, current), nets, taken.ips + WishIps(vms, nets, before.ips), i, e)
    case PoolExhausted => false
  }

  lemma {:induction false} AdoptError(vm: VmRequest, rows: seq<NicRow>, nets: Networks, k: nat)
    requires k <= |vm.nics| && forall i :: 0 <= i < |vm.nics| ==> vm.nics[i].network in nets
    ensures Adopt(vm, rows, nets, k).Err? ==> Adopt(vm, rows, nets, k).error == NicIdentityRequired
  {
    if k > 0 { AdoptError(vm, rows, nets, k - 1); }
  }

  lemma RetainError(vm: VmRequest, rows: seq<NicRow>, nets: Networks)
    requires vm.nics != [] && forall i :: 0 <= i < |vm.nics| ==> vm.nics[i].network in nets
    ensures RetainedNics(vm, rows, nets).Err? ==> RetainedNics(vm, rows, nets).error == NicIdentityRequired
  {
    hide Adopt;
    AdoptError(vm, rows, nets, |vm.nics|);
  }

  /** Which of the three parts of the first phase failed for a machine. */
  lemma FailedPart(vms: seq<VmRequest>, current: seq<VmRow>, nets: Networks, taken: Taken, ranges: Ranges, before: Fixed, e: AllocError)
    requires AllValid(vms, nets) && |before.ids| == |before.ips| < |vms|
    requires FixVms(vms, current, nets, taken, ranges, |before.ids|) == Ok(before)
    requires FixVms(vms, current, nets, taken, ranges, |before.ids| + 1) == Err(e)
    ensures var vm := vms[|before.ids|];
            || FixId(vm, Previous(current, vm.node), taken.ids, before.claimedIds, ranges) == Err(e)
            || RetainedNics(vm, OldNics(Previous(current, vm.node)), nets) == Err(e)
            || (RetainedNics(vm, OldNics(Previous(current, vm.node)), nets).Ok?
                && FixNics(vm, Kept(vm, nets, current), nets, taken.ips, before.claimedIps, |vm.nics|) == Err(e))
  {
    hide FixId, FixNics, RetainedNics, ContiguousNics;
  }

  lemma IdRefused(vm: VmRequest, current: seq<VmRow>, taken: Claims, claimed: Claims, ranges: Ranges, e: AllocError)
    requires FixId(vm, Previous(current, vm.node), taken, claimed, ranges) == Err(e)
    ensures PinnedId(vm, current).Some?
    ensures (e.Protected? && InRanges(PinnedId(vm, current).value, ranges))
         || (e.Occupied? && ("", PinnedId(vm, current).value) in taken + claimed)
  {}

  /** One machine's own refusal, from the parts of the first phase. */
  lemma RefusedHere(vms: seq<VmRequest>, current: seq<VmRow>, nets: Networks, taken: Taken, ranges: Ranges, before: Fixed, e: AllocError)
    requires AllValid(vms, nets) && |before.ids| == |before.ips| < |vms|
    requires FixVms(vms, current, nets, taken, ranges, |before.ids|) == Ok(before)
    requires FixVms(vms, current, nets, taken, ranges, |before.ids| + 1) == Err(e)
    ensures MachineRefused(vms, current, nets, taken, ranges, before, e)
  {
    hide FixVms, FixId, FixNics, RetainedNics, Kept, PinnedId, WishIds, WishIps, InRanges, AddressRefused, ContiguousNics, Indexed;
    var vm := vms[|before.ids|];
    FailedPart(vms, current, nets, taken, ranges, before, e);
    FixVmsClaims(vms, current, nets, taken, ranges, |before.ids|);
    RetainError(vm, OldNics(Previous(current, vm.node)), nets);
    if FixId(vm, Previous(current, vm.node), taken.ids, before.claimedIds, ranges) == Err(e) {
      IdRefused(vm, current, taken.ids, before.claimedIds, ranges, e);
    } else if RetainedNics(vm, OldNics(Previous(current, vm.node)), nets).Ok? {
      var i := FixNicsRefused(vm, Kept(vm, nets, current), nets, taken.ips, before.claimedIps, |vm.nics|);
      OnlyAddressErrors(vm, Kept(vm, nets, current), nets, taken.ips + before.claimedIps, i, e);
    }
  }

  lemma OnlyAddressErrors(vm: VmRequest, retained: Retained, nets: Networks, held: Claims, i: nat, e: AllocError)
    requires i < |vm.nics| && Ready(vm, nets) && AddressRefused(vm, retained, nets, held, i, e)
    ensures e.Invalid? || e.Occupied?
  {}

  lemma {:induction false} FixVmsRefused(vms: seq<VmRequest>, current: seq<VmRow>, nets: Networks, taken: Taken, ranges: Ranges, k: nat)
      returns (before: Fixed)
    requires k <= |vms| && AllValid(vms, nets) && FixVms(vms, current, nets, taken, ranges, k).Err?
    ensures |before.ids| == |before.ips| < k && FixVms(vms, current, nets, taken, ranges, |before.ids|) == Ok(before)
    ensures MachineRefused(vms, current, nets, taken, ranges, before, FixVms(vms, current, nets, taken, ranges, k).error)
  {
    if FixVms(vms, current, nets, taken, ranges, k - 1).Err? {
      before := FixVmsRefused(vms, current, nets, taken, ranges, k - 1);
      hide MachineRefused, FixNics, RetainedNics, FixId;
    } else {
      before := FixVms(vms, current, nets, taken, ranges, k - 1).value;
      hide MachineRefused, FixNics, RetainedNics, FixId;
      RefusedHere(vms, current, nets, taken, ranges, before, FixVms(vms, current, nets, taken, ranges, k).error);
    }
  }

  lemma NicsAccepted(vm: VmRequest, retained: Retained, nets: Networks, taken: Claims, claimed: Claims, i: nat, e: AllocError)
    requires Ready(vm, nets) && ContiguousNics(vm.nics) && i < |vm.nics|
    requires FixNics(vm, retained, nets, taken, claimed, |vm.nics|).Ok?
    ensures !AddressRefused(vm, retained, nets, taken + claimed, i, e)
  {
    FixNicsClaims(vm, retained, nets, taken, claimed, |vm.nics|);
    FixNicsValues(vm, retained, nets, taken, claimed, |vm.nics|);
    FixNicsDistinct(vm, retained, nets, taken, claimed, |vm.nics|);
    assert PinnedAs(vm, retained, nets, FixNics(vm, retained, nets, taken, claimed, |vm.nics|).value.ips, i);
    hide FixNics, WantedIp, ContiguousNics, Usable;
    if Want(vm, retained, nets, i).Some? {
      assert (Bridge(vm, nets, i), Want(vm, retained, nets, i).value) in WantedPairs(vm, retained, nets, |vm.nics|);
    }
  }

  lemma IdAccepted(vm: VmRequest, current: seq<VmRow>, taken: Claims, claimed: Claims, ranges: Ranges)
    requires FixId(vm, Previous(current, vm.node), taken, claimed, ranges).Ok? && PinnedId(vm, current).Some?
    ensures !InRanges(PinnedId(vm, current).value, ranges) && ("", PinnedId(vm, current).value) !in taken + claimed
  {}

  lemma RetainedIfFixed(vms: seq<VmRequest>, current: seq<VmRow>, nets: Networks, taken: Taken, ranges: Ranges, n: nat)
    requires AllValid(vms, nets) && n < |vms| && FixVms(vms, current, nets, taken, ranges, n + 1).Ok?
    ensures RetainedNics(vms[n], OldNics(Previous(current, vms[n].node)), nets).Ok?
  {
    hide FixId, FixNics, RetainedNics, ContiguousNics;
  }

  /** The reasons are exact: a machine with one of them is refused. */
  lemma RefusedIsErr(vms: seq<VmRequest>, current: seq<VmRow>, nets: Networks, taken: Taken, ranges: Ranges, before: Fixed, e: AllocError)
    requires AllValid(vms, nets) && |before.ids| == |before.ips| < |vms|
    requires FixVms(vms, current, nets, taken, ranges, |before.ids|) == Ok(before)
    requires MachineRefused(vms, current, nets, taken, ranges, before, e)
    ensures FixVms(vms, current, nets, taken, ranges, |before.ids| + 1).Err?
  {
    hide FixVms, FixId, FixNics, RetainedNics, Kept, PinnedId, AddressRefused, WishIds, WishIps, InRanges;
    var n := |before.ids|;
    if FixVms(vms, current, nets, taken, ranges, n + 1).Ok? {
      var vm := vms[n];
      RetainedIfFixed(vms, current, nets, taken, ranges, n);
      var b, f, nics := FixVmsStep(vms, current, nets, taken, ranges, n + 1);
      FixVmsClaims(vms, current, nets, taken, ranges, n);
      if PinnedId(vm, current).Some? { IdAccepted(vm, current, taken.ids, before.claimedIds, ranges); }
      forall i | 0 <= i < |vm.nics|
        ensures !AddressRefused(vm, Kept(vm, nets, current), nets, taken.ips + WishIps(vms, nets, before.ips), i, e)
      {
        NicsAccepted(vm, Kept(vm, nets, current), nets, taken.ips, before.claimedIps, i, e);
      }
    }
  }

  /** A plan that is refused, but not for want of room, names its reason: malformed overrides, or the first
      machine whose pinned identifier or address is protected, unusable or held, or whose interfaces cannot
      be told apart; the machines before it are pinned. */
  lemma PlanRefused(r: Request, overrides: Ranges, taken: Taken, current: seq<VmRow>) returns (before: Fixed)
    requires ValidRequest(r) && AllValid(r.vms, NetworkMap(r.networks)) && ValidOverrides(overrides)
    requires PlanRequest(r, overrides, taken, current).Err? && PlanRequest(r, overrides, taken, current).error != PoolExhausted
    ensures |before.ids| == |before.ips| < |r.vms|
    ensures FixVms(r.vms, current, NetworkMap(r.networks), Taken(taken.ids, taken.ips + Reserved(r.networks)),
                   DEFAULT_PROTECTED + overrides, |before.ids|) == Ok(before)
    ensures MachineRefused(r.vms, current, NetworkMap(r.networks), Taken(taken.ids, taken.ips + Reserved(r.networks)),
                           DEFAULT_PROTECTED + overrides, before, PlanRequest(r, overrides, taken, current).error)
  {
    var nets, all, ranges := NetworkMap(r.networks), Taken(taken.ids, taken.ips + Reserved(r.networks)), DEFAULT_PROTECTED + overrides;
    hide MachineRefused, NetworkMap, Reserved, AllValid, FixVms, AssignVms, ValidOverrides;
    if FixVms(r.vms, current, nets, all, ranges, |r.vms|).Err? {
      before := FixVmsRefused(r.vms, current, nets, all, ranges, |r.vms|);
    }
  }

  lemma {:induction false} FixErrStays(vms: seq<VmRequest>, current: seq<VmRow>, nets: Networks, taken: Taken, ranges: Ranges, k: nat, n: nat)
    requires k <= n <= |vms| && AllValid(vms, nets) && FixVms(vms, current, nets, taken, ranges, k).Err?
    ensures FixVms(vms, current, nets, taken, ranges, n) == FixVms(vms, current, nets, taken, ranges, k)
  {
    hide FixId, FixNics, RetainedNics, ContiguousNics, Indexed;
    if k < n { FixErrStays(vms, current, nets, taken, ranges, k, n - 1); }
  }

  /** Conversely, a machine that cannot be pinned after the machines before it refuses the whole plan, and
      not for want of room. */
  lemma RefusedPlan(r: Request, overrides: Ranges, taken: Taken, current: seq<VmRow>, before: Fixed, e: AllocError)
    requires ValidRequest(r) && AllValid(r.vms, NetworkMap(r.networks)) && ValidOverrides(overrides)
    requires |before.ids| == |before.ips| < |r.vms|
    requires FixVms(r.vms, current, NetworkMap(r.networks), Taken(taken.ids, taken.ips + Reserved(r.networks)),
                    DEFAULT_PROTECTED + overrides, |before.ids|) == Ok(before)
    requires MachineRefused(r.vms, current, NetworkMap(r.networks), Taken(taken.ids, taken.ips + Reserved(r.networks)),
                            DEFAULT_PROTECTED + overrides, before, e)
    ensures PlanRequest(r, overrides, taken, current).Err? && PlanRequest(r, overrides, taken, current).error != PoolExhausted
  {
    var nets, all, ranges := NetworkMap(r.networks), Taken(taken.ids, taken.ips + Reserved(r.networks)), DEFAULT_PROTECTED + overrides;
    hide MachineRefused, NetworkMap, Reserved, AllValid, FixVms, AssignVms, ValidOverrides;
    RefusedIsErr(r.vms, current, nets, all, ranges, before, e);
    FixErrStays(r.vms, current, nets, all, ranges, |before.ids| + 1, |r.vms|);
    FixNeverExhausted(r.vms, current, nets, all, ranges, |r.vms|);
  }
}
