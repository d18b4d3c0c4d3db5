/** The planner as it runs: growing sets and maps in loops, refusing at the first conflict. */
module VmAllocationPlan {
  import opened Wrappers
  import opened FirstFit
  import opened VmAllocationModel
  import opened VmAllocationSoundness
  import opened VmAllocationTheorems

  // ---------------------------------------------------------------- an error stops the loop

  lemma {:induction false} AdoptStops(vm: VmRequest, rows: seq<NicRow>, nets: Networks, k: nat, n: nat)
    requires k <= n <= |vm.nics| && forall i :: 0 <= i < |vm.nics| ==> vm.nics[i].network in nets
    requires Adopt(vm, rows, nets, k).Err?
    ensures Adopt(vm, rows, nets, n) == Adopt(vm, rows, nets, k)
  {
    if k < n { AdoptStops(vm, rows, nets, k, n - 1); }
  }

  lemma {:induction false} FixNicsStops(vm: VmRequest, retained: Retained, nets: Networks, taken: Claims, claimed: Claims, k: nat, n: nat)
    requires k <= n <= |vm.nics| && forall i :: 0 <= i < |vm.nics| ==> vm.nics[i].network in nets
    requires FixNics(vm, retained, nets, taken, claimed, k).Err?
    ensures FixNics(vm, retained, nets, taken, claimed, n) == FixNics(vm, retained, nets, taken, claimed, k)
  {
    if k < n { FixNicsStops(vm, retained, nets, taken, claimed, k, n - 1); }
  }

  lemma {:induction false} FixVmsStops(vms: seq<VmRequest>, current: seq<VmRow>, nets: Networks, taken: Taken, ranges: Ranges, k: nat, n: nat)
    requires k <= n <= |vms| && Networked(vms, nets) && FixVms(vms, current, nets, taken, ranges, k).Err?
    ensures FixVms(vms, current, nets, taken, ranges, n) == FixVms(vms, current, nets, taken, ranges, k)
  {
    hide FixNics, RetainedNics, FixId;
    if k < n { FixVmsStops(vms, current, nets, taken, ranges, k, n - 1); }
  }

  lemma {:induction false} AssignStops(r: Request, nets: Networks, f: Fixed, taken: Taken, ranges: Ranges, k: nat, n: nat)
    requires k <= n <= |r.vms| == |f.ids| == |f.ips| && forall v :: 0 <= v < |r.vms| ==> Indexed(r.vms[v], nets)
    requires AssignVms(r, nets, f, taken, ranges, k).Err?
    ensures AssignVms(r, nets, f, taken, ranges, n) == AssignVms(r, nets, f, taken, ranges, k)
  {
    hide Fill, Choice, IpSlots, NicRows, Claimed;
    if k < n { AssignStops(r, nets, f, taken, ranges, k, n - 1); }
  }

  // ---------------------------------------------------------------- what is taken

  method Collect(occupied: Taken, others: seq<seq<VmRow>>, networks: seq<Network>) returns (taken: Taken)
    ensures taken == Taken(AllTaken(occupied, others).ids, AllTaken(occupied, others).ips + Reserved(networks))
  {
    var ids, ips := occupied.ids, occupied.ips;
    for i := 0 to |others|
      invariant Taken(ids, ips) == AllTaken(occupied, others[..i])
    {
      var j := 0;
      ghost var ids0, ips0 := ids, ips;
      while j < |others[i]|
        invariant j <= |others[i]|
        invariant ids == ids0 + Ids(others[i][..j]) && ips == ips0 + Ips(others[i][..j])
      {
        var vm := others[i][j];
        RowsGrow(others[i][..j], vm);
        assert others[i][..j + 1] == others[i][..j] + [vm];
        ids := ids + {("", vm.vmid)};
        ips := ips + set k | 0 <= k < |vm.nics| :: (vm.nics[k].bridge, vm.nics[k].ip);
        j := j + 1;
      }
      assert others[i][..|others[i]|] == others[i] && others[..i + 1][..i] == others[..i];
    }
    assert others[..|others|] == others;
    for i := 0 to |networks|
      invariant ids == AllTaken(occupied, others).ids
      invariant ips == AllTaken(occupied, others).ips + Reserved(networks[..i])
    {
      assert networks[..i + 1][..i] == networks[..i];
      ips := ips + set ip | ip in networks[i].reserved :: (networks[i].bridge, ip);
      if networks[i].gateway.Some? { ips := ips + {(networks[i].bridge, networks[i].gateway.value)}; }
    }
    assert networks[..|networks|] == networks;
    taken := Taken(ids, ips);
  }

  // ---------------------------------------------------------------- first phase

  method AdoptUnkeyed(vm: VmRequest, rows: seq<NicRow>, nets: Networks) returns (r: Result<Retained, AllocError>)
    requires forall i :: 0 <= i < |vm.nics| ==> vm.nics[i].network in nets
    ensures r == Adopt(vm, rows, nets, |vm.nics|)
  {
    var explicit := Explicit(vm.nics);
    var retained: Retained := map[];
    for i := 0 to |vm.nics|
      invariant Adopt(vm, rows, nets, i) == Ok(retained)
    {
      var nic := vm.nics[i];
      if nic.ip.None? {
        var candidates := Candidates(rows, explicit, nets[nic.network]);
        if candidates != [] {
          var unresolved := Unresolved(vm.nics, nic.network);
          if |candidates| != 1 || unresolved != 1 {
            AdoptStops(vm, rows, nets, i + 1, |vm.nics|);
            return Err(NicIdentityRequired);
          }
          retained := retained[nic.index := candidates[0]];
        }
      }
    }
    return Ok(retained);
  }

  method Retain(vm: VmRequest, rows: seq<NicRow>, nets: Networks) returns (r: Result<Retained, AllocError>)
    requires vm.nics != [] && forall i :: 0 <= i < |vm.nics| ==> vm.nics[i].network in nets
    ensures r == RetainedNics(vm, rows, nets)
  {
    if rows == [] { return Ok(map[]); }
    if !KeysConsistent(rows) { return Err(NicIdentityRequired); }
    if vm.nics[0].key.None? {
      if rows[0].key.Some? { return Err(NicIdentityRequired); }
      return Ok(ByIndex(rows));
    }
    if rows[0].key.Some? { return Ok(ByKey(vm.nics, rows)); }
    r := AdoptUnkeyed(vm, rows, nets);
  }

  method PinNics(vm: VmRequest, retained: Retained, nets: Networks, taken: Claims, claimed: Claims)
      returns (r: Result<FixedNics, AllocError>)
    requires forall i :: 0 <= i < |vm.nics| ==> vm.nics[i].network in nets
    ensures r == FixNics(vm, retained, nets, taken, claimed, |vm.nics|)
  {
    var ips: map<nat, Ip>, now := map[], claimed;
    for i := 0 to |vm.nics|
      invariant FixNics(vm, retained, nets, taken, claimed, i) == Ok(FixedNics(ips, now))
    {
      var nic := vm.nics[i];
      var net := nets[nic.network];
      var ip := WantedIp(nic, retained, net);
      if ip.Some? {
        if !Usable(ip.value, net.subnet) {
          FixNicsStops(vm, retained, nets, taken, claimed, i + 1, |vm.nics|);
          return Err(Invalid);
        }
        if (net.bridge, ip.value) in taken || (net.bridge, ip.value) in now {
          FixNicsStops(vm, retained, nets, taken, claimed, i + 1, |vm.nics|);
          return Err(Occupied);
        }
        ips := ips[nic.index := ip.value];
        now := now + {(net.bridge, ip.value)};
      }
    }
    return Ok(FixedNics(ips, now));
  }

  method PinId(vm: VmRequest, prior: Option<VmRow>, taken: Claims, claimed: Claims, ranges: Ranges)
      returns (r: Result<Option<nat>, AllocError>)
    ensures r == FixId(vm, prior, taken, claimed, ranges)
  {
    var fixed := if vm.vmid.Some? then vm.vmid else if prior.Some? then Some(prior.value.vmid) else None;
    if fixed.None? { return Ok(None); }
    var hit := CheckRanges(fixed.value, ranges);
    if hit { return Err(Protected); }
    if ("", fixed.value) in taken || ("", fixed.value) in claimed { return Err(Occupied); }
    return Ok(fixed);
  }

  method PinVms(vms: seq<VmRequest>, current: seq<VmRow>, nets: Networks, taken: Taken, ranges: Ranges) returns (r: Result<Fixed, AllocError>)
    requires Networked(vms, nets)
    ensures r == FixVms(vms, current, nets, taken, ranges, |vms|)
  {
    hide FixNics, RetainedNics, FixId;
    var f := Fixed([], [], {}, {});
    for i := 0 to |vms|
      invariant FixVms(vms, current, nets, taken, ranges, i) == Ok(f)
    {
      var vm := vms[i];
      var prior := Previous(current, vm.node);
      var id := PinId(vm, prior, taken.ids, f.claimedIds, ranges);
      if id.Err? { FixVmsStops(vms, current, nets, taken, ranges, i + 1, |vms|); return Err(id.error); }
      var retained := Retain(vm, OldNics(prior), nets);
      if retained.Err? { FixVmsStops(vms, current, nets, taken, ranges, i + 1, |vms|); return Err(retained.error); }
      var nics := PinNics(vm, retained.value, nets, taken.ips, f.claimedIps);
      if nics.Err? { FixVmsStops(vms, current, nets, taken, ranges, i + 1, |vms|); return Err(nics.error); }
      f := Fixed(f.ids + [id.value], f.ips + [nics.value.ips],
                 f.claimedIds + (if id.value.Some? then {("", id.value.value)} else {}), nics.value.claimed);
    }
    return Ok(f);
  }

  // ---------------------------------------------------------------- second phase

  /** Give every slot its wish or the least free number, keeping the running set. */
  method FillSlots(slots: seq<Slot>, used: Claims, barred: Ranges) returns (values: Option<seq<nat>>, now: Claims)
    ensures values == Fill(slots, used, barred)
    ensures values.Some? ==> now == used + Claimed(slots, values.value)
  {
    var out: seq<nat> := [];
    now := used;
    assert slots[0..] == slots && used + Claimed([], []) == used;
    ResumeNothing(Fill(slots, used, barred));
    for i := 0 to |slots|
      invariant |out| == i && now == used + Claimed(slots[..i], out)
      invariant Fill(slots, used, barred) == Resume(out, Fill(slots[i..], now, barred))
    {
      var v := slots[i].want;
      if v.None? { v := ScanLeast(slots[i].pool, slots[i].lo, slots[i].hi, now, barred); }
      if v.None? { return None, now; }
      assert slots[i..][1..] == slots[i + 1..];
      ClaimedSnoc(slots, out, v.value, i);
      now := now + {(slots[i].pool, v.value)};
      ResumeMore(out, v.value, Fill(slots[i + 1..], now, barred));
      out := out + [v.value];
    }
    assert slots[..|slots|] == slots && slots[|slots|..] == [] && out + [] == out;
    return Some(out), now;
  }

  function Resume(done: seq<nat>, rest: Option<seq<nat>>): Option<seq<nat>> {
    if rest.None? then None else Some(done + rest.value)
  }

  lemma ResumeNothing(rest: Option<seq<nat>>)
    ensures Resume([], rest) == rest
  {
    if rest.Some? { assert [] + rest.value == rest.value; }
  }

  lemma ResumeMore(done: seq<nat>, v: nat, rest: Option<seq<nat>>)
    ensures Resume(done, Resume([v], rest)) == Resume(done + [v], rest)
  {
    if rest.Some? { assert done + ([v] + rest.value) == done + [v] + rest.value; }
  }

  lemma ClaimedSnoc(slots: seq<Slot>, out: seq<nat>, v: nat, i: nat)
    requires i < |slots| && |out| == i
    ensures Claimed(slots[..i + 1], out + [v]) == Claimed(slots[..i], out) + {(slots[i].pool, v)}
  {
    var all, before := Claimed(slots[..i + 1], out + [v]), Claimed(slots[..i], out);
    forall c | c in before ensures c in all {
      var k :| 0 <= k < i && c == (slots[..i][k].pool, out[k]);
      assert c == (slots[..i + 1][k].pool, (out + [v])[k]);
    }
    assert (slots[..i + 1][i].pool, (out + [v])[i]) in all;
    forall c | c in all ensures c in before + {(slots[i].pool, v)} {
      var k :| 0 <= k < i + 1 && c == (slots[..i + 1][k].pool, (out + [v])[k]);
      if k < i { assert c == (slots[..i][k].pool, out[k]); }
    }
  }

  method PlaceVms(r: Request, nets: Networks, f: Fixed, taken: Taken, ranges: Ranges) returns (a: Result<seq<VmRow>, AllocError>)
    requires |r.vms| == |f.ids| == |f.ips| && forall v :: 0 <= v < |r.vms| ==> Indexed(r.vms[v], nets)
    ensures var spec := AssignVms(r, nets, f, taken, ranges, |r.vms|);
            a == if spec.Ok? then Ok(spec.value.rows) else Err(spec.error)
  {
    hide Fill, Claimed, IpSlots, NicRows, FirstFit.Least, Indexed;
    var rows: seq<VmRow>, usedIds, usedIps := [], taken.ids + f.claimedIds, taken.ips + f.claimedIps;
    for i := 0 to |r.vms|
      invariant AssignVms(r, nets, f, taken, ranges, i) == Ok(Assigned(rows, usedIds, usedIps))
    {
      var vm := r.vms[i];
      var slot := IdSlot(r, f.ids[i]);
      var id := slot.want;
      if id.None? { id := ScanLeast(slot.pool, slot.lo, slot.hi, usedIds, ranges); }
      if id.None? { AssignStops(r, nets, f, taken, ranges, i + 1, |r.vms|); return Err(PoolExhausted); }
      var slots := IpSlots(vm, nets, f.ips[i]);
      var ips, now := FillSlots(slots, usedIps, []);
      if ips.None? { AssignStops(r, nets, f, taken, ranges, i + 1, |r.vms|); return Err(PoolExhausted); }
      assert |slots| == |vm.nics| by { SlotCount(vm, nets, f.ips[i]); }
      rows := rows + [VmRow(vm.node, id.value, NicRows(vm, nets, ips.value))];
      usedIds := usedIds + {("", id.value)};
      usedIps := now;
    }
    return Ok(rows);
  }

  lemma SlotCount(vm: VmRequest, nets: Networks, wants: map<nat, Ip>)
    requires Indexed(vm, nets)
    ensures |IpSlots(vm, nets, wants)| == |vm.nics|
  {}

  /** The planner: all unavailable values first, then the pinned ones, then the automatic ones. */
  method Plan(r: Request, overrides: Ranges, occupied: Taken, others: seq<seq<VmRow>>, current: seq<VmRow>)
      returns (a: Result<seq<VmRow>, AllocError>)
    requires Networked(r.vms, NetworkMap(r.networks))
    requires forall v :: 0 <= v < |r.vms| ==> Indexed(r.vms[v], NetworkMap(r.networks))
    ensures a == PlanRequest(r, overrides, AllTaken(occupied, others), current)
  {
    if !ValidOverrides(overrides) { return Err(Invalid); }
    var nets := NetworkMap(r.networks);
    var taken := Collect(occupied, others, r.networks);
    hide NetworkMap, Reserved, FixVms, AssignVms, AllTaken;
    var ranges := DEFAULT_PROTECTED + overrides;
    var f := PinVms(r.vms, current, nets, taken, ranges);
    if f.Err? { return Err(f.error); }
    a := PlaceVms(r, nets, f.value, taken, ranges);
  }
}
