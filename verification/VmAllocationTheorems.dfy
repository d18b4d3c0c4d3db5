/** The allocator's guarantees: a successful plan is sound and least, and exhaustion is real. */
module VmAllocationTheorems {
  import opened Wrappers
  import opened FirstFit
  import opened VmAllocationModel
  import opened VmAllocationSoundness

  // ---------------------------------------------------------------- the first phase as a whole

  ghost predicate Apart(vms: seq<VmRequest>, nets: Networks, f: Fixed, u: nat, v: nat)
    requires AllValid(vms, nets) && u < |f.ids| == |f.ips| <= |vms| && v < |f.ids|
  {
    && (f.ids[u].Some? ==> f.ids[u] != f.ids[v])
    && Wishes(IpSlots(vms[u], nets, f.ips[u])) !! Wishes(IpSlots(vms[v], nets, f.ips[v]))
  }

  ghost predicate FixedAll(vms: seq<VmRequest>, nets: Networks, current: seq<VmRow>, taken: Taken, ranges: Ranges, f: Fixed) {
    && AllValid(vms, nets) && |f.ids| == |f.ips| == |vms|
    && f.claimedIds == WishIds(f.ids) && f.claimedIps == WishIps(vms, nets, f.ips)
    && (forall v :: 0 <= v < |vms| ==> FixedVm(vms[v], nets, current, taken, ranges, f.ids[v], f.ips[v]))
    && forall u, v :: 0 <= u < v < |vms| ==> Apart(vms, nets, f, u, v)
  }

  lemma FirstPhase(vms: seq<VmRequest>, current: seq<VmRow>, nets: Networks, taken: Taken, ranges: Ranges)
    requires AllValid(vms, nets) && FixVms(vms, current, nets, taken, ranges, |vms|).Ok?
    ensures FixedAll(vms, nets, current, taken, ranges, FixVms(vms, current, nets, taken, ranges, |vms|).value)
  {
    var f := FixVms(vms, current, nets, taken, ranges, |vms|).value;
    FixVmsClaims(vms, current, nets, taken, ranges, |vms|);
    forall v | 0 <= v < |vms| ensures FixedVm(vms[v], nets, current, taken, ranges, f.ids[v], f.ips[v]) {
      FixVmsEach(vms, current, nets, taken, ranges, |vms|, v);
    }
    forall u, v | 0 <= u < v < |vms| ensures Apart(vms, nets, f, u, v) {
      FixVmsApart(vms, current, nets, taken, ranges, |vms|, u, v);
    }
  }

  // ---------------------------------------------------------------- the second phase, machine by machine

  lemma ClaimedAsPairs(vm: VmRequest, nets: Networks, wants: map<nat, Ip>, ips: seq<nat>)
    requires Indexed(vm, nets) && |ips| == |vm.nics|
    ensures Claimed(IpSlots(vm, nets, wants), ips) == NicPairs(NicRows(vm, nets, ips))
  {
    var slots, rows := IpSlots(vm, nets, wants), NicRows(vm, nets, ips);
    forall j | 0 <= j < |ips| ensures (slots[j].pool, ips[j]) == (rows[j].bridge, rows[j].ip) {}
    forall c | c in Claimed(slots, ips) ensures c in NicPairs(rows) {
      var j :| 0 <= j < |slots| && c == (slots[j].pool, ips[j]);
      assert c == (rows[j].bridge, rows[j].ip);
    }
    forall c | c in NicPairs(rows) ensures c in Claimed(slots, ips) {
      var j :| 0 <= j < |rows| && c == (rows[j].bridge, rows[j].ip);
      assert c == (slots[j].pool, ips[j]);
    }
  }

  lemma RowsGrow(rows: seq<VmRow>, row: VmRow)
    ensures Ids(rows + [row]) == Ids(rows) + {("", row.vmid)}
    ensures Ips(rows + [row]) == Ips(rows) + NicPairs(row.nics)
  {
    var all := rows + [row];
    forall c | c in Ids(rows) ensures c in Ids(all) {
      var v :| 0 <= v < |rows| && c == ("", rows[v].vmid);
      assert all[v] == rows[v];
    }
    assert all[|rows|] == row;
    forall c | c in Ips(rows) ensures c in Ips(all) {
      var v, j :| 0 <= v < |rows| && 0 <= j < |rows[v].nics| && c == (rows[v].nics[j].bridge, rows[v].nics[j].ip);
      assert all[v] == rows[v];
    }
    forall c | c in NicPairs(row.nics) ensures c in Ips(all) {
      var j :| 0 <= j < |row.nics| && c == (row.nics[j].bridge, row.nics[j].ip);
      assert all[|rows|].nics[j] == row.nics[j];
    }
    forall c | c in Ips(all) ensures c in Ips(rows) + NicPairs(row.nics) {
      var v, j :| 0 <= v < |all| && 0 <= j < |all[v].nics| && c == (all[v].nics[j].bridge, all[v].nics[j].ip);
      if v < |rows| { assert all[v] == rows[v]; }
    }
  }

  /** What the second phase adds for machine k - 1. */
  lemma AssignStep(r: Request, nets: Networks, f: Fixed, taken: Taken, ranges: Ranges, k: nat)
      returns (before: Assigned, id: nat, ips: seq<nat>)
    requires 0 < k <= |r.vms| == |f.ids| == |f.ips| && AllValid(r.vms, nets)
    requires AssignVms(r, nets, f, taken, ranges, k).Ok?
    ensures AssignVms(r, nets, f, taken, ranges, k - 1) == Ok(before)
    ensures Choice(IdSlot(r, f.ids[k - 1]), before.usedIds, ranges) == Some(id)
    ensures Fill(IpSlots(r.vms[k - 1], nets, f.ips[k - 1]), before.usedIps, []) == Some(ips) && |ips| == |r.vms[k - 1].nics|
    ensures AssignVms(r, nets, f, taken, ranges, k)
      == Ok(Assigned(before.rows + [VmRow(r.vms[k - 1].node, id, NicRows(r.vms[k - 1], nets, ips))],
                     before.usedIds + {("", id)}, before.usedIps + NicPairs(NicRows(r.vms[k - 1], nets, ips))))
  {
    before := AssignVms(r, nets, f, taken, ranges, k - 1).value;
    id := Choice(IdSlot(r, f.ids[k - 1]), before.usedIds, ranges).value;
    ips := Fill(IpSlots(r.vms[k - 1], nets, f.ips[k - 1]), before.usedIps, []).value;
    ClaimedAsPairs(r.vms[k - 1], nets, f.ips[k - 1], ips);
  }

  /** The running sets are what was taken, what was wished for, and the rows so far. */
  lemma {:induction false} AssignUsed(r: Request, nets: Networks, f: Fixed, taken: Taken, ranges: Ranges, k: nat)
    requires k <= |r.vms| == |f.ids| == |f.ips| && AllValid(r.vms, nets)
    requires AssignVms(r, nets, f, taken, ranges, k).Ok?
    ensures var a := AssignVms(r, nets, f, taken, ranges, k).value;
            && a.usedIds == taken.ids + f.claimedIds + Ids(a.rows)
            && a.usedIps == taken.ips + f.claimedIps + Ips(a.rows)
  {
    if k == 0 { return; }
    hide *;
    var before, id, ips := AssignStep(r, nets, f, taken, ranges, k);
    AssignUsed(r, nets, f, taken, ranges, k - 1);
    RowsGrow(before.rows, VmRow(r.vms[k - 1].node, id, NicRows(r.vms[k - 1], nets, ips)));
  }

  /** Machine v was chosen against the rows before it, and no later step touches it. */
  lemma {:induction false} AssignAt(r: Request, nets: Networks, f: Fixed, taken: Taken, ranges: Ranges, k: nat, v: nat)
    requires v < k <= |r.vms| == |f.ids| == |f.ips| && AllValid(r.vms, nets)
    requires AssignVms(r, nets, f, taken, ranges, k).Ok?
    ensures AssignVms(r, nets, f, taken, ranges, v).Ok?
    ensures AssignVms(r, nets, f, taken, ranges, v).value.rows == AssignVms(r, nets, f, taken, ranges, k).value.rows[..v]
    ensures AssignVms(r, nets, f, taken, ranges, v + 1).Ok?
    ensures AssignVms(r, nets, f, taken, ranges, v + 1).value.rows[v] == AssignVms(r, nets, f, taken, ranges, k).value.rows[v]
    decreases k
  {
    hide AssignVms, Fill, Choice, IpSlots, NicRows, ContiguousNics, Ready;
    var before, id, ips := AssignStep(r, nets, f, taken, ranges, k);
    if v < k - 1 {
      AssignAt(r, nets, f, taken, ranges, k - 1, v);
    }
  }

  /** How machine v's row came about: its identifier by choice, its interfaces by first fit, both
      against what was taken, every wish, and the rows before it. */
  ghost predicate Placed(r: Request, nets: Networks, f: Fixed, taken: Taken, ranges: Ranges, rows: seq<VmRow>, v: nat)
    requires v < |rows| == |r.vms| == |f.ids| == |f.ips| && AllValid(r.vms, nets)
  {
    var ips := Addresses(rows[v].nics);
    && Choice(IdSlot(r, f.ids[v]), taken.ids + f.claimedIds + Ids(rows[..v]), ranges) == Some(rows[v].vmid)
    && |ips| == |r.vms[v].nics|
    && rows[v] == VmRow(r.vms[v].node, rows[v].vmid, NicRows(r.vms[v], nets, ips))
    && Fill(IpSlots(r.vms[v], nets, f.ips[v]), taken.ips + f.claimedIps + Ips(rows[..v]), []) == Some(ips)
  }

  function Addresses(nics: seq<NicRow>): seq<Ip> { seq(|nics|, j requires 0 <= j < |nics| => nics[j].ip) }

  lemma AssignPlaced(r: Request, nets: Networks, f: Fixed, taken: Taken, ranges: Ranges, v: nat)
    requires v < |r.vms| == |f.ids| == |f.ips| && AllValid(r.vms, nets)
    requires AssignVms(r, nets, f, taken, ranges, |r.vms|).Ok?
    ensures Placed(r, nets, f, taken, ranges, AssignVms(r, nets, f, taken, ranges, |r.vms|).value.rows, v)
  {
    hide AssignVms;
    AssignAt(r, nets, f, taken, ranges, |r.vms|, v);
    var rows := AssignVms(r, nets, f, taken, ranges, |r.vms|).value.rows;
    var before, id, ips := AssignStep(r, nets, f, taken, ranges, v + 1);
    AssignUsed(r, nets, f, taken, ranges, v);
    assert Addresses(rows[v].nics) == ips;
  }

  // ---------------------------------------------------------------- soundness

  lemma FilledUsable(vm: VmRequest, nets: Networks, wants: map<nat, Ip>, used: Claims, ips: seq<nat>)
    requires Indexed(vm, nets) && WishesOk(vm, nets, wants) && Fill(IpSlots(vm, nets, wants), used, []) == Some(ips)
    ensures forall j :: 0 <= j < |vm.nics| ==> Usable(ips[j], nets[Nic(vm, j).network].subnet)
    ensures forall j :: 0 <= j < |vm.nics| && Nic(vm, j).ip.Some? ==> Nic(vm, j).ip == Some(ips[j])
  {
    hide Free, Claimed, Fill, FirstFit.Least;
    FillFits(IpSlots(vm, nets, wants), used, []);
    forall j | 0 <= j < |vm.nics|
      ensures Usable(ips[j], nets[Nic(vm, j).network].subnet)
      ensures Nic(vm, j).ip.Some? ==> Nic(vm, j).ip == Some(ips[j])
    {
      assert FirstFit.Fits(IpSlots(vm, nets, wants), ips, used, [], j);
    }
  }

  ghost predicate NetworksNamed(nets: Networks) { forall id :: id in nets ==> nets[id].id == id }

  /** The row of one machine answers its request with usable addresses. */
  lemma RowDescribes(vm: VmRequest, nets: Networks, ips: seq<nat>)
    requires Indexed(vm, nets) && |ips| == |vm.nics| && NetworksNamed(nets)
    requires forall j :: 0 <= j < |vm.nics| && Nic(vm, j).ip.Some? ==> Nic(vm, j).ip == Some(ips[j])
    ensures DescribesNics(vm, nets, NicRows(vm, nets, ips))
  {}

  lemma PlacedDescribes(r: Request, nets: Networks, current: seq<VmRow>, f: Fixed, taken: Taken, ranges: Ranges,
                        rows: seq<VmRow>, v: nat)
    requires FixedAll(r.vms, nets, current, taken, ranges, f) && v < |rows| == |r.vms|
    requires Placed(r, nets, f, taken, ranges, rows, v) && NetworksNamed(nets)
    ensures rows[v].node == r.vms[v].node && DescribesNics(r.vms[v], nets, rows[v].nics)
    ensures forall j :: 0 <= j < |rows[v].nics| ==> Usable(rows[v].nics[j].ip, rows[v].nics[j].subnet)
  {
    var vm, ips := r.vms[v], Addresses(rows[v].nics);
    assert Indexed(vm, nets) && WishesOk(vm, nets, f.ips[v]) by {
      assert FixedVm(vm, nets, current, taken, ranges, f.ids[v], f.ips[v]);
    }
    var used := taken.ips + f.claimedIps + Ips(rows[..v]);
    assert Fill(IpSlots(vm, nets, f.ips[v]), used, []) == Some(ips) && rows[v].nics == NicRows(vm, nets, ips)
      && rows[v].node == vm.node && |ips| == |vm.nics|;
    hide FixedAll, Placed, Fill, IpSlots, Ips, AllValid, Usable, WishesOk;
    FilledUsable(vm, nets, f.ips[v], used, ips);
    RowDescribes(vm, nets, ips);
  }

  lemma PlacedId(r: Request, nets: Networks, current: seq<VmRow>, f: Fixed, taken: Taken, ranges: Ranges,
                 rows: seq<VmRow>, v: nat)
    requires FixedAll(r.vms, nets, current, taken, ranges, f) && v < |rows| == |r.vms|
    requires Placed(r, nets, f, taken, ranges, rows, v)
    ensures r.vms[v].vmid.Some? ==> r.vms[v].vmid == Some(rows[v].vmid)
    ensures !InRanges(rows[v].vmid, ranges) && ("", rows[v].vmid) !in taken.ids
    ensures f.ids[v].Some? ==> f.ids[v] == Some(rows[v].vmid)
    ensures f.ids[v].None? ==> ("", rows[v].vmid) !in f.claimedIds + Ids(rows[..v])
  {
    hide Fill, IpSlots, NicRows, Ids, Ips, WishIds, WishIps, WishesOk, PinsWanted, Wishes, DistinctWishes, InRanges;
    assert FixedVm(r.vms[v], nets, current, taken, ranges, f.ids[v], f.ips[v]);
  }

  /** A machine's addresses are new, except for the ones it wished for. */
  lemma PlacedPairs(r: Request, nets: Networks, current: seq<VmRow>, f: Fixed, taken: Taken, ranges: Ranges,
                    rows: seq<VmRow>, v: nat)
    requires FixedAll(r.vms, nets, current, taken, ranges, f) && v < |rows| == |r.vms|
    requires Placed(r, nets, f, taken, ranges, rows, v)
    ensures DistinctPairs(rows[v].nics)
    ensures NicPairs(rows[v].nics) * (taken.ips + f.claimedIps + Ips(rows[..v])) == Wishes(IpSlots(r.vms[v], nets, f.ips[v]))
    ensures Wishes(IpSlots(r.vms[v], nets, f.ips[v])) <= f.claimedIps
  {
    var vm, ips := r.vms[v], Addresses(rows[v].nics);
    var slots := IpSlots(vm, nets, f.ips[v]);
    var used := taken.ips + f.claimedIps + Ips(rows[..v]);
    assert DistinctWishes(slots) by { assert FixedVm(vm, nets, current, taken, ranges, f.ids[v], f.ips[v]); }
    assert Fill(slots, used, []) == Some(ips) && rows[v].nics == NicRows(vm, nets, ips) && |ips| == |vm.nics|;
    assert f.claimedIps == WishIps(r.vms, nets, f.ips) && |slots| == |vm.nics|;
    assert forall j :: 0 <= j < |slots| ==> (rows[v].nics[j].bridge, rows[v].nics[j].ip) == (slots[j].pool, ips[j]);
    assert |rows[v].nics| == |slots|;
    hide *;
    WishIpsHas(r.vms, nets, f.ips, v);
    FillDistinct(slots, used, []);
    ClaimedAsPairs(vm, nets, f.ips[v], ips);
    PairsDistinct(slots, ips, rows[v].nics);
  }

  lemma PairsDistinct(slots: seq<Slot>, ips: seq<nat>, nics: seq<NicRow>)
    requires |slots| == |ips| == |nics| && DistinctClaims(slots, ips)
    requires forall j :: 0 <= j < |slots| ==> (nics[j].bridge, nics[j].ip) == (slots[j].pool, ips[j])
    ensures DistinctPairs(nics)
  {}

  lemma IpsHas(rows: seq<VmRow>, u: nat)
    requires u < |rows|
    ensures NicPairs(rows[u].nics) <= Ips(rows)
  {}

  lemma PlacedApart(r: Request, nets: Networks, current: seq<VmRow>, f: Fixed, taken: Taken, ranges: Ranges,
                    rows: seq<VmRow>, u: nat, v: nat)
    requires FixedAll(r.vms, nets, current, taken, ranges, f) && u < v < |rows| == |r.vms|
    requires Placed(r, nets, f, taken, ranges, rows, u) && Placed(r, nets, f, taken, ranges, rows, v)
    ensures NicPairs(rows[u].nics) !! NicPairs(rows[v].nics) && rows[u].vmid != rows[v].vmid
  {
    hide Placed, FixedVm, AllValid, NicPairs;
    assert AllValid(r.vms, nets) && Apart(r.vms, nets, f, u, v);
    assert f.ids[v].Some? ==> ("", f.ids[v].value) in f.claimedIds;
    assert rows[..v][u] == rows[u] && ("", rows[u].vmid) in Ids(rows[..v]);
    PlacedId(r, nets, current, f, taken, ranges, rows, u);
    PlacedId(r, nets, current, f, taken, ranges, rows, v);
    assert NicPairs(rows[..v][u].nics) <= Ips(rows[..v]) by { IpsHas(rows[..v], u); }
    PairsApart(r, nets, current, f, taken, ranges, rows, u, v);
  }

  lemma PairsApart(r: Request, nets: Networks, current: seq<VmRow>, f: Fixed, taken: Taken, ranges: Ranges,
                   rows: seq<VmRow>, u: nat, v: nat)
    requires FixedAll(r.vms, nets, current, taken, ranges, f) && u < v < |rows| == |r.vms|
    requires Placed(r, nets, f, taken, ranges, rows, u) && Placed(r, nets, f, taken, ranges, rows, v)
    requires Apart(r.vms, nets, f, u, v) && NicPairs(rows[u].nics) <= Ips(rows[..v])
    ensures NicPairs(rows[u].nics) !! NicPairs(rows[v].nics)
  {
    var wu, wv := Wishes(IpSlots(r.vms[u], nets, f.ips[u])), Wishes(IpSlots(r.vms[v], nets, f.ips[v]));
    assert wu !! wv by { hide FixedAll, Placed, AllValid, Wishes, IpSlots, NicPairs; }
    hide *;
    PlacedPairs(r, nets, current, f, taken, ranges, rows, u);
    PlacedPairs(r, nets, current, f, taken, ranges, rows, v);
    SetsApart(NicPairs(rows[u].nics), NicPairs(rows[v].nics), taken.ips + f.claimedIps + Ips(rows[..u]),
              taken.ips + f.claimedIps + Ips(rows[..v]), wu, wv);
  }

  lemma SetsApart(x: Claims, y: Claims, usedX: Claims, usedY: Claims, wishX: Claims, wishY: Claims)
    requires x * usedX == wishX && y * usedY == wishY && wishX !! wishY && x <= usedY && wishY <= usedX
    ensures x !! y
  {
    assert forall c :: c in x && c in y ==> c in y * usedY;
    assert forall c :: c in x && c in wishY ==> c in x * usedX;
  }

  lemma PlacedFree(r: Request, nets: Networks, current: seq<VmRow>, f: Fixed, taken: Taken, ranges: Ranges,
                   rows: seq<VmRow>, v: nat)
    requires FixedAll(r.vms, nets, current, taken, ranges, f) && v < |rows| == |r.vms|
    requires Placed(r, nets, f, taken, ranges, rows, v)
    ensures NicPairs(rows[v].nics) !! taken.ips
  {
    assert FixedVm(r.vms[v], nets, current, taken, ranges, f.ids[v], f.ips[v]);
    assert Wishes(IpSlots(r.vms[v], nets, f.ips[v])) !! taken.ips;
    PlacedPairs(r, nets, current, f, taken, ranges, rows, v);
  }

  /** Everything the plan promises, for all requests, ledgers and occupancies: the rows answer the
      request with manual values verbatim, nothing is handed out twice, protected, unusable, or held
      by anybody else, and gateways and reserved addresses stay out. */
  lemma PlanSound(r: Request, overrides: Ranges, taken: Taken, current: seq<VmRow>)
    requires ValidRequest(r)
    ensures AllValid(r.vms, NetworkMap(r.networks))
    ensures PlanRequest(r, overrides, taken, current).Ok? ==>
              var rows := PlanRequest(r, overrides, taken, current).value;
              && Describes(r, NetworkMap(r.networks), rows) && Exclusive(rows)
              && Admissible(rows, Taken(taken.ids, taken.ips + Reserved(r.networks)), DEFAULT_PROTECTED + overrides)
  {
    ValidMeansAllValid(r);
    if PlanRequest(r, overrides, taken, current).Ok? {
      var rows, f := PlanParts(r, overrides, taken, current);
      var nets, all, ranges := NetworkMap(r.networks), Taken(taken.ids, taken.ips + Reserved(r.networks)), DEFAULT_PROTECTED + overrides;
      assert NetworksNamed(nets);
      hide PlanRequest, FixedAll, Placed, DescribesNics, Usable, NetworkMap;
      forall v | 0 <= v < |rows|
        ensures rows[v].node == r.vms[v].node && (r.vms[v].vmid.Some? ==> r.vms[v].vmid == Some(rows[v].vmid))
        ensures DescribesNics(r.vms[v], nets, rows[v].nics)
      {
        PlacedDescribes(r, nets, current, f, all, ranges, rows, v);
        PlacedId(r, nets, current, f, all, ranges, rows, v);
      }
      RowsExclusive(r, nets, current, f, all, ranges, rows);
      RowsAdmissible(r, nets, current, f, all, ranges, rows);
    }
  }

  lemma RowsExclusive(r: Request, nets: Networks, current: seq<VmRow>, f: Fixed, taken: Taken, ranges: Ranges, rows: seq<VmRow>)
    requires FixedAll(r.vms, nets, current, taken, ranges, f) && |rows| == |r.vms|
    requires forall v :: 0 <= v < |rows| ==> Placed(r, nets, f, taken, ranges, rows, v)
    ensures Exclusive(rows)
  {
    hide FixedAll, Placed, NicPairs, DistinctPairs;
    forall u, v | 0 <= u < v < |rows| ensures rows[u].vmid != rows[v].vmid && NicPairs(rows[u].nics) !! NicPairs(rows[v].nics) {
      PlacedApart(r, nets, current, f, taken, ranges, rows, u, v);
    }
    forall v | 0 <= v < |rows| ensures DistinctPairs(rows[v].nics) {
      PlacedPairs(r, nets, current, f, taken, ranges, rows, v);
    }
  }

  lemma RowsAdmissible(r: Request, nets: Networks, current: seq<VmRow>, f: Fixed, taken: Taken, ranges: Ranges, rows: seq<VmRow>)
    requires FixedAll(r.vms, nets, current, taken, ranges, f) && |rows| == |r.vms| && NetworksNamed(nets)
    requires forall v :: 0 <= v < |rows| ==> Placed(r, nets, f, taken, ranges, rows, v)
    ensures Admissible(rows, taken, ranges)
  {
    hide FixedAll, Placed, Usable, InRanges;
    forall v | 0 <= v < |rows|
      ensures ("", rows[v].vmid) !in taken.ids && !InRanges(rows[v].vmid, ranges) && NicPairs(rows[v].nics) !! taken.ips
      ensures forall j :: 0 <= j < |rows[v].nics| ==> Usable(rows[v].nics[j].ip, rows[v].nics[j].subnet)
    {
      PlacedId(r, nets, current, f, taken, ranges, rows, v);
      PlacedDescribes(r, nets, current, f, taken, ranges, rows, v);
      PlacedFree(r, nets, current, f, taken, ranges, rows, v);
    }
    forall c | c in Ips(rows) ensures c !in taken.ips {
      var v, j :| 0 <= v < |rows| && 0 <= j < |rows[v].nics| && c == (rows[v].nics[j].bridge, rows[v].nics[j].ip);
      assert c in NicPairs(rows[v].nics);
    }
  }

  lemma ValidMeansAllValid(r: Request)
    requires ValidRequest(r)
    ensures AllValid(r.vms, NetworkMap(r.networks))
  {
    forall v | 0 <= v < |r.vms| ensures Indexed(r.vms[v], NetworkMap(r.networks)) && Ready(r.vms[v], NetworkMap(r.networks)) {
      assert ValidVm(r.vms[v], NetworkMap(r.networks));
    }
  }

  /** The two phases behind a successful plan. */
  lemma PlanParts(r: Request, overrides: Ranges, taken: Taken, current: seq<VmRow>) returns (rows: seq<VmRow>, f: Fixed)
    requires AllValid(r.vms, NetworkMap(r.networks)) && PlanRequest(r, overrides, taken, current).Ok?
    ensures PlanRequest(r, overrides, taken, current) == Ok(rows) && |rows| == |r.vms|
    ensures FixedAll(r.vms, NetworkMap(r.networks), current, Taken(taken.ids, taken.ips + Reserved(r.networks)), DEFAULT_PROTECTED + overrides, f)
    ensures forall v :: 0 <= v < |rows| ==>
              Placed(r, NetworkMap(r.networks), f, Taken(taken.ids, taken.ips + Reserved(r.networks)), DEFAULT_PROTECTED + overrides, rows, v)
  {
    var nets, all, ranges := NetworkMap(r.networks), Taken(taken.ids, taken.ips + Reserved(r.networks)), DEFAULT_PROTECTED + overrides;
    f := FixVms(r.vms, current, nets, all, ranges, |r.vms|).value;
    rows := AssignVms(r, nets, f, all, ranges, |r.vms|).value.rows;
    hide FixVms, AssignVms, FixedAll, Placed, NetworkMap, Reserved;
    FirstPhase(r.vms, current, nets, all, ranges);
    forall v | 0 <= v < |rows| ensures Placed(r, nets, f, all, ranges, rows, v) {
      AssignPlaced(r, nets, f, all, ranges, v);
    }
  }

  // ---------------------------------------------------------------- leastness

  /** Some machine has this identifier, pinned to it or chosen before machine v's turn. */
  ghost predicate HoldsId(r: Request, current: seq<VmRow>, rows: seq<VmRow>, v: nat, c: nat)
    requires |rows| == |r.vms|
  {
    exists u :: 0 <= u < |rows| && rows[u].vmid == c && (u < v || PinnedId(r.vms[u], current).Some?)
  }

  lemma LeastId(r: Request, nets: Networks, current: seq<VmRow>, f: Fixed, taken: Taken, ranges: Ranges,
                rows: seq<VmRow>, v: nat, c: nat)
    requires FixedAll(r.vms, nets, current, taken, ranges, f) && v < |rows| == |r.vms|
    requires forall u :: 0 <= u < |rows| ==> Placed(r, nets, f, taken, ranges, rows, u)
    requires PinnedId(r.vms[v], current).None? && r.start <= c < rows[v].vmid
    ensures InRanges(c, ranges) || ("", c) in taken.ids || HoldsId(r, current, rows, v, c)
  {
    hide FixedAll, AllValid, Placed, InRanges, WishIps, IpSlots, PinnedId;
    ClaimsAreWishes(r, nets, current, f, taken, ranges);
    BelowLeastId(r, nets, current, f, taken, ranges, rows, v, c);
    if ("", c) in WishIds(f.ids) {
      var u :| 0 <= u < |f.ids| && f.ids[u].Some? && ("", c) == ("", f.ids[u].value);
      PinOf(r, nets, current, f, taken, ranges, u);
      PlacedId(r, nets, current, f, taken, ranges, rows, u);
    } else if ("", c) in Ids(rows[..v]) {
      var u :| 0 <= u < v && ("", c) == ("", rows[..v][u].vmid);
      assert rows[u] == rows[..v][u];
    }
  }

  lemma ClaimsAreWishes(r: Request, nets: Networks, current: seq<VmRow>, f: Fixed, taken: Taken, ranges: Ranges)
    requires FixedAll(r.vms, nets, current, taken, ranges, f)
    ensures AllValid(r.vms, nets) && |f.ids| == |f.ips| == |r.vms|
    ensures f.claimedIds == WishIds(f.ids) && f.claimedIps == WishIps(r.vms, nets, f.ips)
  {}

  lemma PinOf(r: Request, nets: Networks, current: seq<VmRow>, f: Fixed, taken: Taken, ranges: Ranges, u: nat)
    requires FixedAll(r.vms, nets, current, taken, ranges, f) && u < |f.ids|
    ensures f.ids[u] == PinnedId(r.vms[u], current)
  {
    assert FixedVm(r.vms[u], nets, current, taken, ranges, f.ids[u], f.ips[u]);
  }

  lemma BelowLeastId(r: Request, nets: Networks, current: seq<VmRow>, f: Fixed, taken: Taken, ranges: Ranges,
                     rows: seq<VmRow>, v: nat, c: nat)
    requires FixedAll(r.vms, nets, current, taken, ranges, f) && v < |rows| == |r.vms|
    requires Placed(r, nets, f, taken, ranges, rows, v)
    requires PinnedId(r.vms[v], current).None? && r.start <= c < rows[v].vmid
    ensures !Free("", c, taken.ids + f.claimedIds + Ids(rows[..v]), ranges)
  {
    PinOf(r, nets, current, f, taken, ranges, v);
    hide FixedAll, AllValid, Fill, IpSlots, NicRows, Ids, Ips, InRanges, Free;
  }

  /** Whether the first phase pins the address of interface j. */
  predicate PinnedIp(vm: VmRequest, nets: Networks, current: seq<VmRow>, j: nat)
    requires Indexed(vm, nets) && Ready(vm, nets) && j < |vm.nics|
  {
    WantedIp(Nic(vm, j), Kept(vm, nets, current), nets[Nic(vm, j).network]).Some?
  }

  /** Some interface has this bridge address, pinned to it or given it before interface j of machine v. */
  ghost predicate HoldsIp(r: Request, nets: Networks, current: seq<VmRow>, rows: seq<VmRow>, v: nat, j: nat, c: (string, nat))
    requires AllValid(r.vms, nets) && |rows| == |r.vms|
  {
    exists u, i :: 0 <= u < |rows| && 0 <= i < |rows[u].nics| == |r.vms[u].nics| && (rows[u].nics[i].bridge, rows[u].nics[i].ip) == c
      && (u < v || (u == v && i < j) || PinnedIp(r.vms[u], nets, current, i))
  }

  lemma {:induction false} WishIpsFrom(vms: seq<VmRequest>, nets: Networks, ips: seq<map<nat, Ip>>, c: (string, nat)) returns (u: nat)
    requires |ips| <= |vms| && AllValid(vms, nets) && c in WishIps(vms, nets, ips)
    ensures u < |ips| && c in Wishes(IpSlots(vms[u], nets, ips[u]))
    decreases |ips|
  {
    hide Wishes, IpSlots, AllValid;
    u := |ips| - 1;
    if c in WishIps(vms, nets, ips[..u]) { u := WishIpsFrom(vms, nets, ips[..u], c); }
  }

  /** A wish is held by the interface that made it. */
  lemma WishHeld(r: Request, nets: Networks, current: seq<VmRow>, f: Fixed, taken: Taken, ranges: Ranges,
                 rows: seq<VmRow>, u: nat, c: (string, nat)) returns (i: nat)
    requires FixedAll(r.vms, nets, current, taken, ranges, f) && u < |rows| == |r.vms|
    requires Placed(r, nets, f, taken, ranges, rows, u) && c in Wishes(IpSlots(r.vms[u], nets, f.ips[u]))
    ensures i < |rows[u].nics| == |r.vms[u].nics| && PinnedIp(r.vms[u], nets, current, i)
    ensures c == (rows[u].nics[i].bridge, rows[u].nics[i].ip)
  {
    var vm, ips := r.vms[u], Addresses(rows[u].nics);
    var slots := IpSlots(vm, nets, f.ips[u]);
    i :| 0 <= i < |slots| && slots[i].want.Some? && c == (slots[i].pool, slots[i].want.value);
    assert PinsWanted(vm, Kept(vm, nets, current), nets, f.ips[u]) by {
      assert FixedVm(vm, nets, current, taken, ranges, f.ids[u], f.ips[u]);
    }
    assert Fill(slots, taken.ips + f.claimedIps + Ips(rows[..u]), []) == Some(ips) && rows[u].nics == NicRows(vm, nets, ips);
    hide FixedAll, Placed, Fill, Ips, Claimed, Free, FirstFit.Least, AllValid, RetainedNics, Kept;
    FillFits(slots, taken.ips + f.claimedIps + Ips(rows[..u]), []);
    assert FirstFit.Fits(slots, ips, taken.ips + f.claimedIps + Ips(rows[..u]), [], i);
  }

  lemma LeastIp(r: Request, nets: Networks, current: seq<VmRow>, f: Fixed, taken: Taken, ranges: Ranges,
                rows: seq<VmRow>, v: nat, j: nat, c: nat)
    requires FixedAll(r.vms, nets, current, taken, ranges, f) && v < |rows| == |r.vms|
    requires forall u :: 0 <= u < |rows| ==> Placed(r, nets, f, taken, ranges, rows, u)
    requires j < |rows[v].nics| == |r.vms[v].nics| && !PinnedIp(r.vms[v], nets, current, j)
    requires rows[v].nics[j].subnet.base < c < rows[v].nics[j].ip
    ensures (rows[v].nics[j].bridge, c) in taken.ips || HoldsIp(r, nets, current, rows, v, j, (rows[v].nics[j].bridge, c))
  {
    var p := (rows[v].nics[j].bridge, c);
    hide *;
    ClaimsAreWishes(r, nets, current, f, taken, ranges);
    BelowLeast(r, nets, current, f, taken, ranges, rows, v, j, c);
    if p in f.claimedIps {
      WisherHolds(r, nets, current, f, taken, ranges, rows, v, j, p);
    } else if p in Ips(rows[..v]) {
      EarlierMachine(r, nets, current, f, taken, ranges, rows, v, j, p);
    } else if p in NicPairs(rows[v].nics[..j]) {
      EarlierInterface(r, nets, current, rows, v, j, p);
    }
  }

  lemma WisherHolds(r: Request, nets: Networks, current: seq<VmRow>, f: Fixed, taken: Taken, ranges: Ranges,
                    rows: seq<VmRow>, v: nat, j: nat, p: (string, nat))
    requires FixedAll(r.vms, nets, current, taken, ranges, f) && AllValid(r.vms, nets) && v < |rows| == |r.vms|
    requires forall u :: 0 <= u < |rows| ==> Placed(r, nets, f, taken, ranges, rows, u)
    requires p in f.claimedIps && |f.ips| == |r.vms| && f.claimedIps == WishIps(r.vms, nets, f.ips)
    ensures HoldsIp(r, nets, current, rows, v, j, p)
  {
    hide FixedAll, AllValid, Placed, PinnedIp, WishIps, Wishes, IpSlots;
    var u := WishIpsFrom(r.vms, nets, f.ips, p);
    var i := WishHeld(r, nets, current, f, taken, ranges, rows, u, p);
  }

  lemma EarlierInterface(r: Request, nets: Networks, current: seq<VmRow>, rows: seq<VmRow>, v: nat, j: nat, p: (string, nat))
    requires AllValid(r.vms, nets) && v < |rows| == |r.vms| && j < |rows[v].nics| == |r.vms[v].nics|
    requires p in NicPairs(rows[v].nics[..j])
    ensures HoldsIp(r, nets, current, rows, v, j, p)
  {
    hide AllValid, PinnedIp;
    var i :| 0 <= i < j && p == (rows[v].nics[..j][i].bridge, rows[v].nics[..j][i].ip);
    assert rows[v].nics[i] == rows[v].nics[..j][i];
  }

  lemma EarlierMachine(r: Request, nets: Networks, current: seq<VmRow>, f: Fixed, taken: Taken, ranges: Ranges,
                       rows: seq<VmRow>, v: nat, j: nat, p: (string, nat))
    requires FixedAll(r.vms, nets, current, taken, ranges, f) && v < |rows| == |r.vms|
    requires forall u :: 0 <= u < |rows| ==> Placed(r, nets, f, taken, ranges, rows, u)
    requires p in Ips(rows[..v])
    ensures HoldsIp(r, nets, current, rows, v, j, p)
  {
    hide AllValid, PinnedIp, FixedVm, Apart, WishIps, WishIds;
    var u, i :| 0 <= u < v && 0 <= i < |rows[..v][u].nics| && p == (rows[..v][u].nics[i].bridge, rows[..v][u].nics[i].ip);
    assert rows[..v][u] == rows[u] && Placed(r, nets, f, taken, ranges, rows, u);
    assert |rows[u].nics| == |r.vms[u].nics|;
  }

  /** Every candidate below an automatic address was not free when it was passed over. */
  lemma BelowLeast(r: Request, nets: Networks, current: seq<VmRow>, f: Fixed, taken: Taken, ranges: Ranges,
                   rows: seq<VmRow>, v: nat, j: nat, c: nat)
    requires FixedAll(r.vms, nets, current, taken, ranges, f) && v < |rows| == |r.vms|
    requires Placed(r, nets, f, taken, ranges, rows, v)
    requires j < |rows[v].nics| == |r.vms[v].nics| && !PinnedIp(r.vms[v], nets, current, j)
    requires rows[v].nics[j].subnet.base < c < rows[v].nics[j].ip
    ensures (rows[v].nics[j].bridge, c) in taken.ips + f.claimedIps + Ips(rows[..v]) + NicPairs(rows[v].nics[..j])
  {
    var vm, ips := r.vms[v], Addresses(rows[v].nics);
    var slots, used := IpSlots(vm, nets, f.ips[v]), taken.ips + f.claimedIps + Ips(rows[..v]);
    assert slots[j].want.None? by {
      assert FixedVm(vm, nets, current, taken, ranges, f.ids[v], f.ips[v]);
    }
    assert Fill(slots, used, []) == Some(ips) && rows[v].nics == NicRows(vm, nets, ips);
    hide *;
    BelowLeastIn(vm, nets, f.ips[v], used, ips, j, c);
  }

  lemma BelowLeastIn(vm: VmRequest, nets: Networks, wants: map<nat, Ip>, used: Claims, ips: seq<nat>, j: nat, c: nat)
    requires Indexed(vm, nets) && j < |vm.nics| && Fill(IpSlots(vm, nets, wants), used, []) == Some(ips)
    requires IpSlots(vm, nets, wants)[j].want.None?
    requires var row := NicRows(vm, nets, ips)[j]; row.subnet.base < c < row.ip
    ensures (NicRows(vm, nets, ips)[j].bridge, c) in used + NicPairs(NicRows(vm, nets, ips)[..j])
  {
    var slots, rows := IpSlots(vm, nets, wants), NicRows(vm, nets, ips);
    FillFits(slots, used, []);
    PrefixPairs(slots, ips, rows, j);
    hide Fill, Claimed, NicPairs;
    assert FirstFit.Fits(slots, ips, used, [], j);
    assert !Free(slots[j].pool, c, used + Claimed(slots[..j], ips[..j]), []);
  }

  lemma PrefixPairs(slots: seq<Slot>, ips: seq<nat>, nics: seq<NicRow>, j: nat)
    requires j <= |slots| == |ips| == |nics|
    requires forall i :: 0 <= i < |slots| ==> (nics[i].bridge, nics[i].ip) == (slots[i].pool, ips[i])
    ensures Claimed(slots[..j], ips[..j]) <= NicPairs(nics[..j])
  {
    forall c | c in Claimed(slots[..j], ips[..j]) ensures c in NicPairs(nics[..j]) {
      var i :| 0 <= i < j && c == (slots[..j][i].pool, ips[..j][i]);
      assert c == (nics[..j][i].bridge, nics[..j][i].ip);
    }
  }

  /** Each automatic value is the least of its window that is not protected, not taken by others, not
      pinned by the request itself, and not given to an earlier machine or interface. */
  lemma PlanLeast(r: Request, overrides: Ranges, taken: Taken, current: seq<VmRow>, v: nat)
    requires ValidRequest(r) && AllValid(r.vms, NetworkMap(r.networks)) && v < |r.vms|
    requires PlanRequest(r, overrides, taken, current).Ok?
    ensures var rows := PlanRequest(r, overrides, taken, current).value;
            |rows| == |r.vms| && |rows[v].nics| == |r.vms[v].nics|
    ensures var rows := PlanRequest(r, overrides, taken, current).value;
            PinnedId(r.vms[v], current).None? ==>
              && r.start <= rows[v].vmid < Min(r.end + 1, r.start + SCAN_IDS)
              && forall c :: r.start <= c < rows[v].vmid ==>
                   InRanges(c, DEFAULT_PROTECTED + overrides) || ("", c) in taken.ids || HoldsId(r, current, rows, v, c)
    ensures var rows := PlanRequest(r, overrides, taken, current).value;
            var nets := NetworkMap(r.networks);
            forall j, c :: 0 <= j < |rows[v].nics| && !PinnedIp(r.vms[v], nets, current, j)
                           && rows[v].nics[j].subnet.base < c < rows[v].nics[j].ip ==>
              var p := (rows[v].nics[j].bridge, c);
              p in taken.ips + Reserved(r.networks) || HoldsIp(r, nets, current, rows, v, j, p)
  {
    var rows, f := PlanParts(r, overrides, taken, current);
    var nets, all, ranges := NetworkMap(r.networks), Taken(taken.ids, taken.ips + Reserved(r.networks)), DEFAULT_PROTECTED + overrides;
    hide PlanRequest, ValidRequest, FixedAll, NetworkMap, Reserved, HoldsId, HoldsIp, PinnedIp, InRanges;
    assert Placed(r, nets, f, all, ranges, rows, v);
    assert |rows[v].nics| == |r.vms[v].nics|;
    IdWindow(r, nets, current, f, all, ranges, rows, v);
    hide Placed;
    LeastIds(r, nets, current, f, all, ranges, rows, v);
    LeastIps(r, nets, current, f, all, ranges, rows, v);
  }

  lemma LeastIds(r: Request, nets: Networks, current: seq<VmRow>, f: Fixed, taken: Taken, ranges: Ranges, rows: seq<VmRow>, v: nat)
    requires FixedAll(r.vms, nets, current, taken, ranges, f) && v < |rows| == |r.vms|
    requires forall u :: 0 <= u < |rows| ==> Placed(r, nets, f, taken, ranges, rows, u)
    ensures PinnedId(r.vms[v], current).None? ==> forall c :: r.start <= c < rows[v].vmid ==>
              InRanges(c, ranges) || ("", c) in taken.ids || HoldsId(r, current, rows, v, c)
  {
    hide *;
    if PinnedId(r.vms[v], current).None? {
      forall c | r.start <= c < rows[v].vmid
        ensures InRanges(c, ranges) || ("", c) in taken.ids || HoldsId(r, current, rows, v, c)
      {
        LeastId(r, nets, current, f, taken, ranges, rows, v, c);
      }
    }
  }

  lemma LeastIps(r: Request, nets: Networks, current: seq<VmRow>, f: Fixed, taken: Taken, ranges: Ranges, rows: seq<VmRow>, v: nat)
    requires FixedAll(r.vms, nets, current, taken, ranges, f) && v < |rows| == |r.vms| && |rows[v].nics| == |r.vms[v].nics|
    requires AllValid(r.vms, nets)
    requires forall u :: 0 <= u < |rows| ==> Placed(r, nets, f, taken, ranges, rows, u)
    ensures forall j, c :: 0 <= j < |rows[v].nics| && !PinnedIp(r.vms[v], nets, current, j)
                           && rows[v].nics[j].subnet.base < c < rows[v].nics[j].ip ==>
              (rows[v].nics[j].bridge, c) in taken.ips || HoldsIp(r, nets, current, rows, v, j, (rows[v].nics[j].bridge, c))
  {
    hide FixedAll, Placed, HoldsIp, PinnedIp, Indexed, Ready, ContiguousNics;
    forall j, c | 0 <= j < |rows[v].nics| && !PinnedIp(r.vms[v], nets, current, j)
                  && rows[v].nics[j].subnet.base < c < rows[v].nics[j].ip
      ensures (rows[v].nics[j].bridge, c) in taken.ips || HoldsIp(r, nets, current, rows, v, j, (rows[v].nics[j].bridge, c))
    {
      LeastIp(r, nets, current, f, taken, ranges, rows, v, j, c);
    }
  }

  lemma IdWindow(r: Request, nets: Networks, current: seq<VmRow>, f: Fixed, taken: Taken, ranges: Ranges, rows: seq<VmRow>, v: nat)
    requires FixedAll(r.vms, nets, current, taken, ranges, f) && v < |rows| == |r.vms|
    requires Placed(r, nets, f, taken, ranges, rows, v)
    ensures PinnedId(r.vms[v], current).None? ==> r.start <= rows[v].vmid < Min(r.end + 1, r.start + SCAN_IDS)
  {
    assert FixedVm(r.vms[v], nets, current, taken, ranges, f.ids[v], f.ips[v]);
    hide FixedAll, AllValid, Fill, IpSlots, NicRows, Ids, Ips, InRanges;
  }

  // ---------------------------------------------------------------- exhaustion

  /** No number of the window is free. */
  ghost predicate Full(s: Slot, used: Claims, barred: Ranges) {
    s.want.None? && forall c :: s.lo <= c < s.hi ==> !Free(s.pool, c, used, barred)
  }

  /** Machine v cannot be placed after these rows: its identifier window is full, or, with the
      addresses before interface j given out, that interface's window is. */
  ghost predicate Stuck(r: Request, nets: Networks, f: Fixed, taken: Taken, ranges: Ranges, earlier: seq<VmRow>, j: nat, ips: seq<nat>)
    requires AllValid(r.vms, nets) && |earlier| < |r.vms| == |f.ids| == |f.ips|
  {
    var v := |earlier|;
    var slots := IpSlots(r.vms[v], nets, f.ips[v]);
    || Full(IdSlot(r, f.ids[v]), taken.ids + f.claimedIds + Ids(earlier), ranges)
    || (j < |slots| && |ips| == j
        && Fill(slots[..j], taken.ips + f.claimedIps + Ips(earlier), []) == Some(ips)
        && Full(slots[j], taken.ips + f.claimedIps + Ips(earlier) + Claimed(slots[..j], ips), []))
  }

  lemma {:induction false} AssignStuck(r: Request, nets: Networks, f: Fixed, taken: Taken, ranges: Ranges, k: nat)
      returns (earlier: seq<VmRow>, j: nat, ips: seq<nat>)
    requires AllValid(r.vms, nets) && k <= |r.vms| == |f.ids| == |f.ips|
    requires AssignVms(r, nets, f, taken, ranges, k).Err?
    ensures |earlier| < k && Stuck(r, nets, f, taken, ranges, earlier, j, ips)
    ensures AssignVms(r, nets, f, taken, ranges, |earlier|).Ok? && AssignVms(r, nets, f, taken, ranges, |earlier|).value.rows == earlier
  {
    hide AssignVms, Fill, Choice, IpSlots, Stuck, Indexed, Ready, ContiguousNics, Ids, Ips;
    ErrMeansSome(r, nets, f, taken, ranges, k);
    if AssignVms(r, nets, f, taken, ranges, k - 1).Err? {
      earlier, j, ips := AssignStuck(r, nets, f, taken, ranges, k - 1);
    } else {
      var before := FailStep(r, nets, f, taken, ranges, k);
      AssignUsed(r, nets, f, taken, ranges, k - 1);
      earlier := before.rows;
      j, ips := StuckAt(r, nets, f, taken, ranges, before);
    }
  }

  lemma ErrMeansSome(r: Request, nets: Networks, f: Fixed, taken: Taken, ranges: Ranges, k: nat)
    requires AllValid(r.vms, nets) && k <= |r.vms| == |f.ids| == |f.ips| && AssignVms(r, nets, f, taken, ranges, k).Err?
    ensures k > 0
  {}

  lemma FailStep(r: Request, nets: Networks, f: Fixed, taken: Taken, ranges: Ranges, k: nat) returns (before: Assigned)
    requires AllValid(r.vms, nets) && 0 < k <= |r.vms| == |f.ids| == |f.ips|
    requires AssignVms(r, nets, f, taken, ranges, k).Err? && AssignVms(r, nets, f, taken, ranges, k - 1).Ok?
    ensures AssignVms(r, nets, f, taken, ranges, k - 1) == Ok(before) && |before.rows| == k - 1
    ensures Choice(IdSlot(r, f.ids[k - 1]), before.usedIds, ranges).None?
      || Fill(IpSlots(r.vms[k - 1], nets, f.ips[k - 1]), before.usedIps, []).None?
  {
    before := AssignVms(r, nets, f, taken, ranges, k - 1).value;
  }

  lemma StuckAt(r: Request, nets: Networks, f: Fixed, taken: Taken, ranges: Ranges, before: Assigned) returns (j: nat, ips: seq<nat>)
    requires AllValid(r.vms, nets) && |before.rows| < |r.vms| == |f.ids| == |f.ips|
    requires before.usedIds == taken.ids + f.claimedIds + Ids(before.rows)
    requires before.usedIps == taken.ips + f.claimedIps + Ips(before.rows)
    requires Choice(IdSlot(r, f.ids[|before.rows|]), before.usedIds, ranges).None?
      || Fill(IpSlots(r.vms[|before.rows|], nets, f.ips[|before.rows|]), before.usedIps, []).None?
    ensures Stuck(r, nets, f, taken, ranges, before.rows, j, ips)
  {
    hide Fill, Free, Ids, Ips, Indexed, Ready, ContiguousNics, IdSlot, IpSlot, Claimed;
    j, ips := 0, [];
    var v := |before.rows|;
    if Choice(IdSlot(r, f.ids[v]), before.usedIds, ranges).Some? {
      j, ips := FillExhausted(IpSlots(r.vms[v], nets, f.ips[v]), before.usedIps, []);
    }
  }

  /** Exhaustion is reported only when, after the plan's own earlier rows, the whole scanned window of the
      next machine or of one of its interfaces is protected, taken, pinned by the request, or given away. */
  lemma PlanExhausted(r: Request, overrides: Ranges, taken: Taken, current: seq<VmRow>)
      returns (f: Fixed, earlier: seq<VmRow>, j: nat, ips: seq<nat>)
    requires ValidRequest(r) && AllValid(r.vms, NetworkMap(r.networks))
    requires PlanRequest(r, overrides, taken, current) == Err(PoolExhausted)
    ensures var all := Taken(taken.ids, taken.ips + Reserved(r.networks));
            && FixVms(r.vms, current, NetworkMap(r.networks), all, DEFAULT_PROTECTED + overrides, |r.vms|) == Ok(f)
            && FixedAll(r.vms, NetworkMap(r.networks), current, all, DEFAULT_PROTECTED + overrides, f)
            && |earlier| < |r.vms| && Placing(r, NetworkMap(r.networks), f, all, DEFAULT_PROTECTED + overrides, earlier)
            && Stuck(r, NetworkMap(r.networks), f, all, DEFAULT_PROTECTED + overrides, earlier, j, ips)
  {
    var nets, all, ranges := NetworkMap(r.networks), Taken(taken.ids, taken.ips + Reserved(r.networks)), DEFAULT_PROTECTED + overrides;
    FixNeverExhausted(r.vms, current, nets, all, ranges, |r.vms|);
    f := FixVms(r.vms, current, nets, all, ranges, |r.vms|).value;
    assert AssignVms(r, nets, f, all, ranges, |r.vms|).Err?;
    hide PlanRequest, FixVms, AssignVms, NetworkMap, AllValid, FixedAll, Stuck, Reserved;
    FirstPhase(r.vms, current, nets, all, ranges);
    earlier, j, ips := AssignStuck(r, nets, f, all, ranges, |r.vms|);
  }

  /** The rows the plan gives to its first machines. */
  ghost predicate Placing(r: Request, nets: Networks, f: Fixed, taken: Taken, ranges: Ranges, earlier: seq<VmRow>)
    requires AllValid(r.vms, nets) && |earlier| <= |r.vms| == |f.ids| == |f.ips|
  {
    AssignVms(r, nets, f, taken, ranges, |earlier|).Ok? && AssignVms(r, nets, f, taken, ranges, |earlier|).value.rows == earlier
  }

  lemma {:induction false} AssignErrStays(r: Request, nets: Networks, f: Fixed, taken: Taken, ranges: Ranges, k: nat, n: nat)
    requires AllValid(r.vms, nets) && k <= n <= |r.vms| == |f.ids| == |f.ips|
    requires AssignVms(r, nets, f, taken, ranges, k).Err?
    ensures AssignVms(r, nets, f, taken, ranges, n).Err?
  {
    hide Fill, Choice, IpSlots, Indexed, Ready, ContiguousNics;
    if k < n { AssignErrStays(r, nets, f, taken, ranges, k, n - 1); }
  }

  /** A machine that cannot be placed after the plan's own earlier rows stops the assignment. */
  lemma StuckStops(r: Request, nets: Networks, f: Fixed, taken: Taken, ranges: Ranges, earlier: seq<VmRow>, j: nat, ips: seq<nat>)
    requires AllValid(r.vms, nets) && |earlier| < |r.vms| == |f.ids| == |f.ips|
    requires Placing(r, nets, f, taken, ranges, earlier) && Stuck(r, nets, f, taken, ranges, earlier, j, ips)
    ensures AssignVms(r, nets, f, taken, ranges, |earlier| + 1).Err?
  {
    var v := |earlier|;
    var before := AssignVms(r, nets, f, taken, ranges, v).value;
    AssignUsed(r, nets, f, taken, ranges, v);
    StuckFails(r, nets, f, taken, ranges, before, j, ips);
    hide Fill, Choice, IpSlots, Stuck, Indexed, Ready, ContiguousNics, Ids, Ips;
  }

  lemma StuckFails(r: Request, nets: Networks, f: Fixed, taken: Taken, ranges: Ranges, before: Assigned, j: nat, ips: seq<nat>)
    requires AllValid(r.vms, nets) && |before.rows| < |r.vms| == |f.ids| == |f.ips|
    requires before.usedIds == taken.ids + f.claimedIds + Ids(before.rows)
    requires before.usedIps == taken.ips + f.claimedIps + Ips(before.rows)
    requires Stuck(r, nets, f, taken, ranges, before.rows, j, ips)
    ensures Choice(IdSlot(r, f.ids[|before.rows|]), before.usedIds, ranges).None?
      || Fill(IpSlots(r.vms[|before.rows|], nets, f.ips[|before.rows|]), before.usedIps, []).None?
  {
    hide Fill, Free, Ids, Ips, Indexed, Ready, ContiguousNics, IdSlot, IpSlot, Claimed, IpSlots;
    var v := |before.rows|;
    var slots := IpSlots(r.vms[v], nets, f.ips[v]);
    if Choice(IdSlot(r, f.ids[v]), before.usedIds, ranges).Some? {
      ExhaustedFails(slots, before.usedIps, [], j, ips);
    }
  }

  /** Conversely, a plan whose own earlier rows leave the next machine stuck reports exhaustion. */
  lemma StuckIsExhausted(r: Request, overrides: Ranges, taken: Taken, current: seq<VmRow>,
                         f: Fixed, earlier: seq<VmRow>, j: nat, ips: seq<nat>)
    requires ValidRequest(r) && AllValid(r.vms, NetworkMap(r.networks)) && ValidOverrides(overrides)
    requires var all := Taken(taken.ids, taken.ips + Reserved(r.networks));
             && FixVms(r.vms, current, NetworkMap(r.networks), all, DEFAULT_PROTECTED + overrides, |r.vms|) == Ok(f)
             && |earlier| < |r.vms| && Placing(r, NetworkMap(r.networks), f, all, DEFAULT_PROTECTED + overrides, earlier)
             && Stuck(r, NetworkMap(r.networks), f, all, DEFAULT_PROTECTED + overrides, earlier, j, ips)
    ensures PlanRequest(r, overrides, taken, current) == Err(PoolExhausted)
  {
    var nets, all, ranges := NetworkMap(r.networks), Taken(taken.ids, taken.ips + Reserved(r.networks)), DEFAULT_PROTECTED + overrides;
    hide FixVms, AssignVms, NetworkMap, AllValid, Stuck, Placing, Reserved, ValidOverrides;
    StuckStops(r, nets, f, all, ranges, earlier, j, ips);
    AssignErrStays(r, nets, f, all, ranges, |earlier| + 1, |r.vms|);
  }

  lemma {:induction false} FixNeverExhausted(vms: seq<VmRequest>, current: seq<VmRow>, nets: Networks, taken: Taken, ranges: Ranges, k: nat)
    requires k <= |vms| && Networked(vms, nets)
    ensures FixVms(vms, current, nets, taken, ranges, k) != Err(PoolExhausted)
  {
    if k > 0 {
      FixNeverExhausted(vms, current, nets, taken, ranges, k - 1);
      var vm := vms[k - 1];
      hide FixNics, Adopt;
      AdoptNeverExhausted(vm, OldNics(Previous(current, vm.node)), nets, |vm.nics|);
      if FixVms(vms, current, nets, taken, ranges, k - 1).Ok? {
        var retained := RetainedNics(vm, OldNics(Previous(current, vm.node)), nets);
        if retained.Ok? {
          NicsNeverExhausted(vm, retained.value, nets, taken.ips,
                             FixVms(vms, current, nets, taken, ranges, k - 1).value.claimedIps, |vm.nics|);
        }
      }
    }
  }

  lemma {:induction false} AdoptNeverExhausted(vm: VmRequest, rows: seq<NicRow>, nets: Networks, k: nat)
    requires k <= |vm.nics| && forall i :: 0 <= i < |vm.nics| ==> vm.nics[i].network in nets
    ensures Adopt(vm, rows, nets, k) != Err(PoolExhausted)
  {
    if k > 0 { AdoptNeverExhausted(vm, rows, nets, k - 1); }
  }

  lemma {:induction false} NicsNeverExhausted(vm: VmRequest, retained: Retained, nets: Networks, taken: Claims, claimed: Claims, k: nat)
    requires k <= |vm.nics| && forall i :: 0 <= i < |vm.nics| ==> vm.nics[i].network in nets
    ensures FixNics(vm, retained, nets, taken, claimed, k) != Err(PoolExhausted)
  {
    if k > 0 { NicsNeverExhausted(vm, retained, nets, taken, claimed, k - 1); }
  }
}
