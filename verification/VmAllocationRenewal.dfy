/** Renewing an unchanged request against its own stored assignments changes nothing. */
module VmAllocationRenewal {
  import opened Wrappers
  import opened FirstFit
  import opened VmAllocationModel
  import opened VmAllocationSoundness
  import opened VmAllocationTheorems

  // ---------------------------------------------------------------- interfaces are recognised

  lemma {:induction false} ByIndexAt(rows: seq<NicRow>, j: nat)
    requires forall i :: 0 <= i < |rows| ==> rows[i].index == i
    requires j < |rows|
    ensures j in ByIndex(rows) && ByIndex(rows)[j] == rows[j]
    decreases |rows|
  {
    if j < |rows| - 1 { ByIndexAt(rows[..|rows| - 1], j); }
  }

  lemma {:induction false} FindKeyAt(rows: seq<NicRow>, j: nat)
    requires j < |rows| && forall i :: 0 <= i < |rows| && i != j ==> rows[i].key != rows[j].key
    ensures FindKey(rows, rows[j].key) == Some(rows[j])
    decreases |rows|
  {
    if j < |rows| - 1 { FindKeyAt(rows[..|rows| - 1], j); }
  }

  lemma {:induction false} ByKeyAt(nics: seq<NicRequest>, rows: seq<NicRow>, i: nat)
    requires i < |nics| && forall m :: i < m < |nics| ==> nics[m].index != nics[i].index
    requires FindKey(rows, nics[i].key).Some?
    ensures nics[i].index in ByKey(nics, rows) && ByKey(nics, rows)[nics[i].index] == FindKey(rows, nics[i].key).value
    decreases |nics|
  {
    if i < |nics| - 1 { ByKeyAt(nics[..|nics| - 1], rows, i); }
  }

  lemma RowKeys(vm: VmRequest, nets: Networks, rows: seq<NicRow>)
    requires Indexed(vm, nets) && KeyedTogether(vm.nics) && ContiguousNics(vm.nics) && DescribesNics(vm, nets, rows)
    ensures forall i, j :: 0 <= i < j < |rows| ==> rows[i].key.Some? == rows[j].key.Some?
    ensures forall i, j :: 0 <= i < j < |rows| && rows[i].key.Some? ==> rows[i].key != rows[j].key
    ensures forall j :: 0 <= j < |rows| ==> rows[j].key.Some? == vm.nics[0].key.Some?
  {
    forall j | 0 <= j < |rows| ensures rows[j].key.Some? == vm.nics[0].key.Some? && rows[j].key == vm.nics[Position(vm.nics, j)].key {}
    forall i, j | 0 <= i < j < |rows| && rows[i].key.Some? ensures rows[i].key != rows[j].key {
      var p, q := Position(vm.nics, i), Position(vm.nics, j);
      assert p != q;
      if p < q { assert vm.nics[p].key != vm.nics[q].key; } else { assert vm.nics[q].key != vm.nics[p].key; }
    }
  }

  /** Every stored interface is recognised again, by key when the request has keys, by index otherwise. */
  lemma RecognisedAt(vm: VmRequest, nets: Networks, rows: seq<NicRow>, i: nat)
    requires Indexed(vm, nets) && Ready(vm, nets) && KeyedTogether(vm.nics) && ContiguousNics(vm.nics) && vm.nics != []
    requires DescribesNics(vm, nets, rows) && i < |vm.nics|
    ensures RetainedNics(vm, rows, nets).Ok? && vm.nics[i].index < |rows|
    ensures vm.nics[i].index in RetainedNics(vm, rows, nets).value
    ensures RetainedNics(vm, rows, nets).value[vm.nics[i].index] == rows[vm.nics[i].index]
  {
    var j := vm.nics[i].index;
    RowKeys(vm, nets, rows);
    PositionOf(vm.nics, i);
    assert rows[j].key == vm.nics[i].key;
    hide Adopt, Indexed, ContiguousNics, KeyedTogether;
    if vm.nics[0].key.None? {
      ByIndexAt(rows, j);
    } else {
      FindKeyAt(rows, j);
      ByKeyAt(vm.nics, rows, i);
    }
  }

  // ---------------------------------------------------------------- the first phase pins the stored values

  /** Stored interfaces that answer the machine, are usable, and clash with nobody in used. */
  ghost predicate Keeps(vm: VmRequest, nets: Networks, rows: seq<NicRow>, used: Claims)
    requires Indexed(vm, nets)
  {
    && DescribesNics(vm, nets, rows) && DistinctPairs(rows) && NicPairs(rows) !! used
    && forall j :: 0 <= j < |rows| ==> Usable(rows[j].ip, rows[j].subnet)
  }

  ghost predicate Shaped(vm: VmRequest, nets: Networks) {
    && Indexed(vm, nets) && Ready(vm, nets) && KeyedTogether(vm.nics) && ContiguousNics(vm.nics) && vm.nics != []
  }

  /** The stored pairs of the first k interfaces in request order. */
  function KeptPairs(vm: VmRequest, rows: seq<NicRow>, k: nat): Claims
    requires k <= |vm.nics| && forall i :: 0 <= i < |vm.nics| ==> vm.nics[i].index < |rows|
  {
    set i | 0 <= i < k :: (rows[vm.nics[i].index].bridge, rows[vm.nics[i].index].ip)
  }

  function StoredRetained(vm: VmRequest, nets: Networks, rows: seq<NicRow>): Retained
    requires vm.nics != [] && Ready(vm, nets)
  {
    var retained := RetainedNics(vm, rows, nets);
    if retained.Ok? then retained.value else map[]
  }

  lemma StoredIsWanted(vm: VmRequest, nets: Networks, rows: seq<NicRow>, i: nat)
    requires Shaped(vm, nets) && DescribesNics(vm, nets, rows) && i < |vm.nics|
    ensures vm.nics[i].index < |rows|
    ensures WantedIp(vm.nics[i], StoredRetained(vm, nets, rows), nets[vm.nics[i].network]) == Some(rows[vm.nics[i].index].ip)
    ensures SameNetwork(rows[vm.nics[i].index], nets[vm.nics[i].network])
  {
    RecognisedAt(vm, nets, rows, i);
    PositionOf(vm.nics, i);
    hide RetainedNics, ContiguousNics, KeyedTogether, Ready;
    assert Nic(vm, vm.nics[i].index) == vm.nics[i];
  }

  lemma {:induction false} RenewNics(vm: VmRequest, nets: Networks, rows: seq<NicRow>, taken: Claims, claimed: Claims, k: nat)
      returns (ips: map<nat, Ip>)
    requires Shaped(vm, nets) && Keeps(vm, nets, rows, taken + claimed) && k <= |vm.nics|
    ensures forall i :: 0 <= i < |vm.nics| ==> vm.nics[i].index < |rows|
    ensures FixNics(vm, StoredRetained(vm, nets, rows), nets, taken, claimed, k)
      == Ok(FixedNics(ips, claimed + KeptPairs(vm, rows, k)))
    ensures forall i :: 0 <= i < k ==> vm.nics[i].index in ips
    ensures forall j :: j in ips ==> j < |rows| && ips[j] == rows[j].ip
  {
    hide RetainedNics, DescribesNics, WantedIp, ContiguousNics, KeyedTogether, Indexed, StoredRetained, Usable, DistinctPairs;
    forall i | 0 <= i < |vm.nics| ensures vm.nics[i].index < |rows| { StoredIsWanted(vm, nets, rows, i); }
    if k == 0 {
      ips := map[];
      assert claimed + KeptPairs(vm, rows, 0) == claimed;
      return;
    }
    var before := RenewNics(vm, nets, rows, taken, claimed, k - 1);
    var j := vm.nics[k - 1].index;
    StoredIsWanted(vm, nets, rows, k - 1);
    NewPair(vm, nets, rows, k);
    ips := before[j := rows[j].ip];
    assert (rows[j].bridge, rows[j].ip) in NicPairs(rows);
    assert claimed + KeptPairs(vm, rows, k) == claimed + KeptPairs(vm, rows, k - 1) + {(rows[j].bridge, rows[j].ip)};
  }

  lemma NewPair(vm: VmRequest, nets: Networks, rows: seq<NicRow>, k: nat)
    requires Shaped(vm, nets) && 0 < k <= |vm.nics| && DistinctPairs(rows)
    requires forall i :: 0 <= i < |vm.nics| ==> vm.nics[i].index < |rows|
    ensures var j := vm.nics[k - 1].index;
            && (rows[j].bridge, rows[j].ip) !in KeptPairs(vm, rows, k - 1)
            && KeptPairs(vm, rows, k) == KeptPairs(vm, rows, k - 1) + {(rows[j].bridge, rows[j].ip)}
  {
    var j := vm.nics[k - 1].index;
    hide Position, Indexed, Ready, KeyedTogether;
    forall i | 0 <= i < k - 1 ensures (rows[vm.nics[i].index].bridge, rows[vm.nics[i].index].ip) != (rows[j].bridge, rows[j].ip) {
      var m := vm.nics[i].index;
      assert m != j;
      if m < j { assert (rows[m].bridge, rows[m].ip) != (rows[j].bridge, rows[j].ip); }
      else { assert (rows[j].bridge, rows[j].ip) != (rows[m].bridge, rows[m].ip); }
    }
  }

  lemma AllKept(vm: VmRequest, nets: Networks, rows: seq<NicRow>)
    requires Shaped(vm, nets) && |rows| == |vm.nics|
    ensures forall i :: 0 <= i < |vm.nics| ==> vm.nics[i].index < |rows|
    ensures KeptPairs(vm, rows, |vm.nics|) == NicPairs(rows)
  {
    hide Ready, KeyedTogether;
    forall c | c in NicPairs(rows) ensures c in KeptPairs(vm, rows, |vm.nics|) {
      var j :| 0 <= j < |rows| && c == (rows[j].bridge, rows[j].ip);
      assert vm.nics[Position(vm.nics, j)].index == j;
    }
  }

  lemma PreviousAt(rows: seq<VmRow>, v: nat)
    requires v < |rows| && forall u :: 0 <= u < |rows| && u != v ==> rows[u].node != rows[v].node
    ensures Previous(rows, rows[v].node) == Some(rows[v])
    decreases |rows|
  {
    if v < |rows| - 1 { PreviousAt(rows[..|rows| - 1], v); }
  }

  // ---------------------------------------------------------------- the whole plan

  /** A stored plan that still answers the request and clashes with nobody. */
  ghost predicate Stands(r: Request, nets: Networks, a: seq<VmRow>, taken: Taken, ranges: Ranges) {
    && (forall v :: 0 <= v < |r.vms| ==> Shaped(r.vms[v], nets)) && |a| == |r.vms|
    && (forall u, v :: 0 <= u < v < |a| ==> a[u].node != a[v].node)
    && (forall v :: 0 <= v < |a| ==> StandsAt(r.vms[v], nets, a[v], taken, ranges))
    && (forall u, v :: 0 <= u < v < |a| ==> a[u].vmid != a[v].vmid && NicPairs(a[u].nics) !! NicPairs(a[v].nics))
  }

  ghost predicate StandsAt(vm: VmRequest, nets: Networks, row: VmRow, taken: Taken, ranges: Ranges)
    requires Indexed(vm, nets)
  {
    && row.node == vm.node && (vm.vmid.Some? ==> vm.vmid == Some(row.vmid))
    && !InRanges(row.vmid, ranges) && ("", row.vmid) !in taken.ids && Keeps(vm, nets, row.nics, taken.ips)
  }

  /** The first phase pins exactly the stored values. */
  ghost predicate PinsStored(f: Fixed, a: seq<VmRow>, k: nat)
    requires k <= |a|
  {
    && |f.ids| == |f.ips| == k && f.claimedIds == Ids(a[..k]) && f.claimedIps == Ips(a[..k])
    && forall v :: 0 <= v < k ==> f.ids[v] == Some(a[v].vmid) && PinsNics(f.ips[v], a[v].nics)
  }

  ghost predicate PinsNics(ips: map<nat, Ip>, nics: seq<NicRow>) {
    forall j :: 0 <= j < |nics| ==> j in ips && ips[j] == nics[j].ip
  }

  lemma RenewVm(vm: VmRequest, nets: Networks, row: VmRow, taken: Taken, ranges: Ranges, claimedIds: Claims, claimedIps: Claims)
      returns (ips: map<nat, Ip>)
    requires Shaped(vm, nets) && StandsAt(vm, nets, row, taken, ranges)
    requires ("", row.vmid) !in claimedIds && NicPairs(row.nics) !! claimedIps
    ensures FixId(vm, Some(row), taken.ids, claimedIds, ranges) == Ok(Some(row.vmid))
    ensures RetainedNics(vm, row.nics, nets).Ok?
    ensures FixNics(vm, RetainedNics(vm, row.nics, nets).value, nets, taken.ips, claimedIps, |vm.nics|)
      == Ok(FixedNics(ips, claimedIps + NicPairs(row.nics)))
    ensures PinsNics(ips, row.nics)
  {
    RecognisedAt(vm, nets, row.nics, 0);
    assert Keeps(vm, nets, row.nics, taken.ips + claimedIps);
    ips := RenewNics(vm, nets, row.nics, taken.ips, claimedIps, |vm.nics|);
    AllKept(vm, nets, row.nics);
    assert |row.nics| == |vm.nics|;
    hide FixNics, RetainedNics, DescribesNics, KeyedTogether, Ready, InRanges;
    forall j | 0 <= j < |row.nics| ensures j in ips && ips[j] == row.nics[j].ip {
      assert vm.nics[Position(vm.nics, j)].index == j;
    }
  }

  lemma FixVmsCompose(vms: seq<VmRequest>, current: seq<VmRow>, nets: Networks, taken: Taken, ranges: Ranges, k: nat,
                      before: Fixed, id: Option<nat>, nics: FixedNics)
    requires Networked(vms, nets) && 0 < k <= |vms|
    requires FixVms(vms, current, nets, taken, ranges, k - 1) == Ok(before)
    requires FixId(vms[k - 1], Previous(current, vms[k - 1].node), taken.ids, before.claimedIds, ranges) == Ok(id)
    requires RetainedNics(vms[k - 1], OldNics(Previous(current, vms[k - 1].node)), nets).Ok?
    requires FixNics(vms[k - 1], RetainedNics(vms[k - 1], OldNics(Previous(current, vms[k - 1].node)), nets).value, nets,
                     taken.ips, before.claimedIps, |vms[k - 1].nics|) == Ok(nics)
    ensures FixVms(vms, current, nets, taken, ranges, k)
      == Ok(Fixed(before.ids + [id], before.ips + [nics.ips],
                  before.claimedIds + (if id.Some? then {("", id.value)} else {}), nics.claimed))
  {}

  lemma Unclaimed(a: seq<VmRow>, k: nat)
    requires 0 < k <= |a|
    requires forall u, v :: 0 <= u < v < |a| ==> a[u].vmid != a[v].vmid && NicPairs(a[u].nics) !! NicPairs(a[v].nics)
    ensures ("", a[k - 1].vmid) !in Ids(a[..k - 1]) && NicPairs(a[k - 1].nics) !! Ips(a[..k - 1])
  {
    var earlier, mine := Ips(a[..k - 1]), NicPairs(a[k - 1].nics);
    forall c | c in earlier ensures c !in mine {
      var u, j :| 0 <= u < k - 1 && 0 <= j < |a[..k - 1][u].nics| && c == (a[..k - 1][u].nics[j].bridge, a[..k - 1][u].nics[j].ip);
      assert a[..k - 1][u] == a[u] && c in NicPairs(a[u].nics);
    }
  }

  lemma PinsGrow(before: Fixed, f: Fixed, a: seq<VmRow>, k: nat, ips: map<nat, Ip>)
    requires 0 < k <= |a| && PinsStored(before, a, k - 1) && PinsNics(ips, a[k - 1].nics)
    requires f == Fixed(before.ids + [Some(a[k - 1].vmid)], before.ips + [ips], before.claimedIds + {("", a[k - 1].vmid)},
                        before.claimedIps + NicPairs(a[k - 1].nics))
    ensures PinsStored(f, a, k)
  {
    assert a[..k] == a[..k - 1] + [a[k - 1]];
    RowsGrow(a[..k - 1], a[k - 1]);
    hide Ids, Ips, NicPairs, PinsNics;
  }

  lemma FixNothing(vms: seq<VmRequest>, nets: Networks, a: seq<VmRow>, taken: Taken, ranges: Ranges) returns (f: Fixed)
    requires Networked(vms, nets)
    ensures FixVms(vms, a, nets, taken, ranges, 0) == Ok(f) && PinsStored(f, a, 0)
  {
    f := Fixed([], [], {}, {});
  }

  lemma {:induction false} RenewFix(r: Request, nets: Networks, a: seq<VmRow>, taken: Taken, ranges: Ranges, k: nat)
      returns (f: Fixed)
    requires Stands(r, nets, a, taken, ranges) && Networked(r.vms, nets) && k <= |a|
    ensures FixVms(r.vms, a, nets, taken, ranges, k) == Ok(f) && PinsStored(f, a, k)
  {
    hide FixVms, FixId, FixNics, RetainedNics, Indexed, Ready, ContiguousNics, KeyedTogether, Ids, Ips, NicPairs, PinsNics, Previous, Networked, Keeps;
    if k == 0 {
      f := FixNothing(r.vms, nets, a, taken, ranges);
      return;
    }
    assert StandsAt(r.vms[k - 1], nets, a[k - 1], taken, ranges);
    var before := RenewFix(r, nets, a, taken, ranges, k - 1);
    PreviousAt(a, k - 1);
    Unclaimed(a, k);
    var ips := RenewVm(r.vms[k - 1], nets, a[k - 1], taken, ranges, before.claimedIds, before.claimedIps);
    f := Fixed(before.ids + [Some(a[k - 1].vmid)], before.ips + [ips], before.claimedIds + {("", a[k - 1].vmid)},
               before.claimedIps + NicPairs(a[k - 1].nics));
    FixVmsCompose(r.vms, a, nets, taken, ranges, k, before, Some(a[k - 1].vmid), FixedNics(ips, f.claimedIps));
    PinsGrow(before, f, a, k, ips);
  }

  /** A machine whose values are all pinned is given exactly those. */
  lemma RenewRow(vm: VmRequest, nets: Networks, row: VmRow, ips: map<nat, Ip>, used: Claims)
    requires Shaped(vm, nets) && row.node == vm.node && DescribesNics(vm, nets, row.nics) && PinsNics(ips, row.nics)
    ensures Fill(IpSlots(vm, nets, ips), used, []) == Some(Addresses(row.nics))
    ensures VmRow(vm.node, row.vmid, NicRows(vm, nets, Addresses(row.nics))) == row
  {
    hide ContiguousNics, KeyedTogether, Ready;
    var slots, values := IpSlots(vm, nets, ips), Addresses(row.nics);
    forall j | 0 <= j < |slots| ensures slots[j].want == Some(values[j]) {}
    FillWishes(slots, values, used, []);
    var rows := NicRows(vm, nets, values);
    forall j | 0 <= j < |rows| ensures rows[j] == row.nics[j] {}
    assert rows == row.nics;
  }

  lemma {:induction false} RenewAssign(r: Request, nets: Networks, a: seq<VmRow>, f: Fixed, taken: Taken, ranges: Ranges, k: nat)
    requires Stands(r, nets, a, taken, ranges) && PinsStored(f, a, |a|) && k <= |a|
    ensures AssignVms(r, nets, f, taken, ranges, k).Ok? && AssignVms(r, nets, f, taken, ranges, k).value.rows == a[..k]
  {
    hide ContiguousNics, KeyedTogether, Ready, Keeps, Ids, Ips, NicPairs, PinsNics, NicRows, IpSlots, Fill, Claimed, Addresses, InRanges;
    if k > 0 {
      RenewAssign(r, nets, a, f, taken, ranges, k - 1);
      var before := AssignVms(r, nets, f, taken, ranges, k - 1).value;
      assert f.ids[k - 1] == Some(a[k - 1].vmid) && PinsNics(f.ips[k - 1], a[k - 1].nics);
      RowAnswers(r, nets, a, taken, ranges, k - 1);
      RenewRow(r.vms[k - 1], nets, a[k - 1], f.ips[k - 1], before.usedIps);
      assert a[..k] == a[..k - 1] + [a[k - 1]];
    }
  }

  lemma RowAnswers(r: Request, nets: Networks, a: seq<VmRow>, taken: Taken, ranges: Ranges, v: nat)
    requires Stands(r, nets, a, taken, ranges) && v < |a|
    ensures Shaped(r.vms[v], nets) && a[v].node == r.vms[v].node && DescribesNics(r.vms[v], nets, a[v].nics)
  {
    assert StandsAt(r.vms[v], nets, a[v], taken, ranges);
  }

  lemma ShapedVms(r: Request)
    requires ValidRequest(r) && AllValid(r.vms, NetworkMap(r.networks))
    ensures forall v :: 0 <= v < |r.vms| ==> Shaped(r.vms[v], NetworkMap(r.networks))
  {
    forall v | 0 <= v < |r.vms| ensures Shaped(r.vms[v], NetworkMap(r.networks)) {
      assert ValidVm(r.vms[v], NetworkMap(r.networks));
    }
  }

  lemma StandsIf(r: Request, nets: Networks, a: seq<VmRow>, taken: Taken, ranges: Ranges)
    requires ValidRequest(r) && nets == NetworkMap(r.networks) && AllValid(r.vms, nets)
    requires Describes(r, nets, a) && Exclusive(a) && Admissible(a, taken, ranges)
    ensures Stands(r, nets, a, taken, ranges)
  {
    ShapedVms(r);
    forall u, v | 0 <= u < v < |a| ensures a[u].node != a[v].node {}
    hide ValidRequest, AllValid, DescribesNics, Shaped, Usable;
    forall v | 0 <= v < |a| ensures Indexed(r.vms[v], nets) && StandsAt(r.vms[v], nets, a[v], taken, ranges) {
      StandsAtIf(r, nets, a, taken, ranges, v);
    }
  }

  lemma StandsAtIf(r: Request, nets: Networks, a: seq<VmRow>, taken: Taken, ranges: Ranges, v: nat)
    requires forall v :: 0 <= v < |r.vms| ==> Shaped(r.vms[v], nets)
    requires AllValid(r.vms, nets) && Describes(r, nets, a) && Exclusive(a) && Admissible(a, taken, ranges) && v < |a|
    ensures Indexed(r.vms[v], nets) && StandsAt(r.vms[v], nets, a[v], taken, ranges)
  {
    hide DescribesNics, Usable, InRanges, Indexed;
    assert Shaped(r.vms[v], nets);
    assert ("", a[v].vmid) in Ids(a);
    IpsHas(a, v);
  }

  /** Renewal is a fixed point: whatever others committed meanwhile, re-planning an unchanged request
      against its own stored assignments returns exactly them if and only if they are still free. */
  lemma RenewalFixedPoint(r: Request, overrides: Ranges, taken: Taken, current: seq<VmRow>, taken': Taken)
    requires ValidRequest(r) && AllValid(r.vms, NetworkMap(r.networks)) && PlanRequest(r, overrides, taken, current).Ok?
    ensures var a := PlanRequest(r, overrides, taken, current).value;
            PlanRequest(r, overrides, taken', a) == Ok(a) <==> Ids(a) !! taken'.ids && Ips(a) !! taken'.ips
  {
    var a := PlanRequest(r, overrides, taken, current).value;
    var nets, ranges := NetworkMap(r.networks), DEFAULT_PROTECTED + overrides;
    assert ValidOverrides(overrides);
    hide PlanRequest;
    PlanSound(r, overrides, taken, current);
    if PlanRequest(r, overrides, taken', a) == Ok(a) {
      PlanSound(r, overrides, taken', a);
    }
    if Ids(a) !! taken'.ids && Ips(a) !! taken'.ips {
      assert Admissible(a, Taken(taken'.ids, taken'.ips + Reserved(r.networks)), ranges) by { hide AllValid, Describes, Exclusive, ValidRequest, Ids, Ips; }
      ReplanStored(r, overrides, taken', a);
    }
  }

  lemma ReplanStored(r: Request, overrides: Ranges, taken: Taken, a: seq<VmRow>)
    requires ValidRequest(r) && AllValid(r.vms, NetworkMap(r.networks)) && ValidOverrides(overrides)
    requires Describes(r, NetworkMap(r.networks), a) && Exclusive(a)
    requires Admissible(a, Taken(taken.ids, taken.ips + Reserved(r.networks)), DEFAULT_PROTECTED + overrides)
    ensures PlanRequest(r, overrides, taken, a) == Ok(a)
  {
    var nets, all, ranges := NetworkMap(r.networks), Taken(taken.ids, taken.ips + Reserved(r.networks)), DEFAULT_PROTECTED + overrides;
    assert |a| == |r.vms| && Networked(r.vms, nets);
    hide FixVms, AssignVms, ValidRequest, AllValid, Stands, PinsStored, Describes, Exclusive, Admissible, NetworkMap, Reserved, ValidOverrides;
    StandsIf(r, nets, a, all, ranges);
    var f := RenewFix(r, nets, a, all, ranges, |a|);
    RenewAssign(r, nets, a, f, all, ranges, |a|);
    assert a[..|a|] == a;
  }
}
