/** The authoring allocator: requests, stored assignments, and the two-phase plan as functions. */
module VmAllocationModel {
  import opened Wrappers
  import opened FirstFit

  type Ip = nat

  /** An IPv4 network of prefix 16 to 30, as its first address and prefix length. */
  datatype Subnet = Subnet(base: nat, prefix: nat)

  function Pow2(n: nat): nat { if n == 0 then 1 else 2 * Pow2(n - 1) }

  function Size(s: Subnet): nat { if s.prefix <= 32 then Pow2(32 - s.prefix) else 1 }

  /** Inside the network, and neither its first nor its last address. */
  predicate Usable(ip: Ip, s: Subnet) { s.base < ip < s.base + Size(s) - 1 }

  datatype Network = Network(id: string, bridge: string, subnet: Subnet, gateway: Option<Ip>, reserved: seq<Ip>)
  datatype NicRequest = NicRequest(index: nat, key: Option<string>, network: string, ip: Option<Ip>)
  datatype VmRequest = VmRequest(node: string, vmid: Option<nat>, nics: seq<NicRequest>)
  datatype Request = Request(project: string, leaseSeconds: nat, start: nat, end: nat,
                             networks: seq<Network>, vms: seq<VmRequest>)

  datatype NicRow = NicRow(index: nat, key: Option<string>, network: string, bridge: string, subnet: Subnet,
                           ip: Ip, gateway: Option<Ip>)
  datatype VmRow = VmRow(node: string, vmid: nat, nics: seq<NicRow>)

  datatype AllocError = Protected | Occupied | Invalid | NicIdentityRequired | PoolExhausted

  type Networks = map<string, Network>

  const DEFAULT_PROTECTED: Ranges := [(100, 101), (1000, 1023), (1111, 1111), (4000, 4004), (9000, 9999)]
  const SCAN_IDS: nat := 100000
  const SCAN_IPS: nat := 4096

  predicate ValidOverrides(overrides: Ranges) {
    |overrides| <= 256 && forall r | r in overrides :: 100 <= r.0 <= r.1 <= 999999999
  }

  // ---------------------------------------------------------------- what the request schema gives

  /** The position of the interface with this index, or the length when there is none. */
  function Position(nics: seq<NicRequest>, index: nat): (k: nat)
    ensures k <= |nics| && (k < |nics| ==> nics[k].index == index)
  {
    if nics == [] then 0 else if nics[0].index == index then 0 else 1 + Position(nics[1..], index)
  }

  predicate ContiguousNics(nics: seq<NicRequest>) {
    && (forall j :: 0 <= j < |nics| ==> Position(nics, j) < |nics|)
    && (forall i :: 0 <= i < |nics| ==> nics[i].index < |nics|)
    && (forall i, j :: 0 <= i < j < |nics| ==> nics[i].index != nics[j].index)
  }

  predicate KeyedTogether(nics: seq<NicRequest>) {
    && (forall i, j :: 0 <= i < j < |nics| ==> nics[i].key.Some? == nics[j].key.Some?)
    && (forall i, j :: 0 <= i < j < |nics| && nics[i].key.Some? ==> nics[i].key != nics[j].key)
  }

  predicate ValidVm(vm: VmRequest, nets: Networks) {
    && 1 <= |vm.nics| && ContiguousNics(vm.nics) && KeyedTogether(vm.nics)
    && forall i :: 0 <= i < |vm.nics| ==> vm.nics[i].network in nets
  }

  predicate ValidRequest(r: Request) {
    && (forall i, j :: 0 <= i < j < |r.networks| ==> r.networks[i].id != r.networks[j].id)
    && (forall i :: 0 <= i < |r.networks| ==> 16 <= r.networks[i].subnet.prefix <= 30)
    && (forall i, j :: 0 <= i < j < |r.vms| ==> r.vms[i].node != r.vms[j].node)
    && r.start <= r.end
    && forall i :: 0 <= i < |r.vms| ==> ValidVm(r.vms[i], NetworkMap(r.networks))
  }

  function NetworkMap(networks: seq<Network>): (m: Networks)
    ensures forall id :: id in m ==> m[id] in networks && m[id].id == id
  {
    if networks == [] then map[] else
    var last := networks[|networks| - 1];
    NetworkMap(networks[..|networks| - 1])[last.id := last]
  }

  function Nic(vm: VmRequest, j: nat): NicRequest
    requires Position(vm.nics, j) < |vm.nics|
  {
    vm.nics[Position(vm.nics, j)]
  }

  // ---------------------------------------------------------------- what is taken

  function Ids(rows: seq<VmRow>): Claims { set i | 0 <= i < |rows| :: ("", rows[i].vmid) }

  function NicPairs(nics: seq<NicRow>): Claims { set j | 0 <= j < |nics| :: (nics[j].bridge, nics[j].ip) }

  function Ips(rows: seq<VmRow>): Claims {
    set i, j | 0 <= i < |rows| && 0 <= j < |rows[i].nics| :: (rows[i].nics[j].bridge, rows[i].nics[j].ip)
  }

  datatype Taken = Taken(ids: Claims, ips: Claims)

  function AllTaken(occupied: Taken, others: seq<seq<VmRow>>): Taken {
    if others == [] then occupied else
    var before := AllTaken(occupied, others[..|others| - 1]);
    Taken(before.ids + Ids(others[|others| - 1]), before.ips + Ips(others[|others| - 1]))
  }

  function ReservedBy(n: Network): Claims {
    (set ip | ip in n.reserved :: (n.bridge, ip)) + (if n.gateway.Some? then {(n.bridge, n.gateway.value)} else {})
  }

  function Reserved(networks: seq<Network>): Claims {
    if networks == [] then {} else
    Reserved(networks[..|networks| - 1]) + ReservedBy(networks[|networks| - 1])
  }

  // ---------------------------------------------------------------- retained interfaces

  type Retained = map<nat, NicRow>

  predicate KeysConsistent(rows: seq<NicRow>) {
    (forall i | 0 <= i < |rows| :: rows[i].key.None?)
    || ((forall i | 0 <= i < |rows| :: rows[i].key.Some?)
        && forall i | 0 <= i < |rows| :: forall j | i < j < |rows| :: rows[i].key != rows[j].key)
  }

  function ByIndex(rows: seq<NicRow>): Retained {
    if rows == [] then map[] else ByIndex(rows[..|rows| - 1])[rows[|rows| - 1].index := rows[|rows| - 1]]
  }

  /** The last stored interface with this key. */
  function FindKey(rows: seq<NicRow>, key: Option<string>): Option<NicRow> {
    if rows == [] then None
    else if rows[|rows| - 1].key == key then Some(rows[|rows| - 1]) else FindKey(rows[..|rows| - 1], key)
  }

  function ByKey(nics: seq<NicRequest>, rows: seq<NicRow>): Retained {
    if nics == [] then map[] else
    var nic := nics[|nics| - 1];
    var found := FindKey(rows, nic.key);
    var before := ByKey(nics[..|nics| - 1], rows);
    if found.Some? then before[nic.index := found.value] else before - {nic.index}
  }

  predicate SameNetwork(row: NicRow, net: Network) {
    row.network == net.id && row.bridge == net.bridge && row.subnet == net.subnet
  }

  function Candidates(rows: seq<NicRow>, explicit: set<(string, Ip)>, net: Network): seq<NicRow> {
    if rows == [] then [] else
    var before := Candidates(rows[..|rows| - 1], explicit, net);
    var row := rows[|rows| - 1];
    if (row.network, row.ip) !in explicit && SameNetwork(row, net) then before + [row] else before
  }

  function Unresolved(nics: seq<NicRequest>, network: string): nat {
    if nics == [] then 0 else
    Unresolved(nics[..|nics| - 1], network)
    + (if nics[|nics| - 1].network == network && nics[|nics| - 1].ip.None? then 1 else 0)
  }

  function Explicit(nics: seq<NicRequest>): set<(string, Ip)> {
    set i | 0 <= i < |nics| && nics[i].ip.Some? :: (nics[i].network, nics[i].ip.value)
  }

  /** Keys are being added to interfaces stored without them: an old interface is recognised only
      when network identity names exactly one old and one new interface. */
  function Adopt(vm: VmRequest, rows: seq<NicRow>, nets: Networks, k: nat): Result<Retained, AllocError>
    requires k <= |vm.nics| && forall i :: 0 <= i < |vm.nics| ==> vm.nics[i].network in nets
  {
    if k == 0 then Ok(map[]) else
    var before := Adopt(vm, rows, nets, k - 1);
    var nic := vm.nics[k - 1];
    if before.Err? || nic.ip.Some? then before else
    var found := Candidates(rows, Explicit(vm.nics), nets[nic.network]);
    if found == [] then before
    else if |found| != 1 || Unresolved(vm.nics, nic.network) != 1 then Err(NicIdentityRequired)
    else Ok(before.value[nic.index := found[0]])
  }

  function RetainedNics(vm: VmRequest, rows: seq<NicRow>, nets: Networks): Result<Retained, AllocError>
    requires vm.nics != [] && forall i :: 0 <= i < |vm.nics| ==> vm.nics[i].network in nets
  {
    if rows == [] then Ok(map[])
    else if !KeysConsistent(rows) then Err(NicIdentityRequired)
    else if vm.nics[0].key.None? then
      if rows[0].key.Some? then Err(NicIdentityRequired) else Ok(ByIndex(rows))
    else if rows[0].key.Some? then Ok(ByKey(vm.nics, rows))
    else Adopt(vm, rows, nets, |vm.nics|)
  }

  // ---------------------------------------------------------------- first phase: fixed values

  function FixId(vm: VmRequest, prior: Option<VmRow>, taken: Claims, claimed: Claims, ranges: Ranges): Result<Option<nat>, AllocError> {
    var fixed := if vm.vmid.Some? then vm.vmid else if prior.Some? then Some(prior.value.vmid) else None;
    if fixed.None? then Ok(None)
    else if InRanges(fixed.value, ranges) then Err(Protected)
    else if ("", fixed.value) in taken || ("", fixed.value) in claimed then Err(Occupied)
    else Ok(fixed)
  }

  function WantedIp(nic: NicRequest, retained: Retained, net: Network): Option<Ip> {
    if nic.ip.Some? then nic.ip
    else if nic.index in retained && SameNetwork(retained[nic.index], net) then Some(retained[nic.index].ip)
    else None
  }

  datatype FixedNics = FixedNics(ips: map<nat, Ip>, claimed: Claims)

  /** The first k interfaces of a machine, in request order. */
  function FixNics(vm: VmRequest, retained: Retained, nets: Networks, taken: Claims, claimed: Claims, k: nat)
    : Result<FixedNics, AllocError>
    requires k <= |vm.nics| && forall i :: 0 <= i < |vm.nics| ==> vm.nics[i].network in nets
  {
    if k == 0 then Ok(FixedNics(map[], claimed)) else
    var before := FixNics(vm, retained, nets, taken, claimed, k - 1);
    if before.Err? then before else
    var nic := vm.nics[k - 1];
    var net := nets[nic.network];
    var ip := WantedIp(nic, retained, net);
    if ip.None? then before
    else if !Usable(ip.value, net.subnet) then Err(Invalid)
    else if (net.bridge, ip.value) in taken || (net.bridge, ip.value) in before.value.claimed then Err(Occupied)
    else Ok(FixedNics(before.value.ips[nic.index := ip.value], before.value.claimed + {(net.bridge, ip.value)}))
  }

  datatype Fixed = Fixed(ids: seq<Option<nat>>, ips: seq<map<nat, Ip>>, claimedIds: Claims, claimedIps: Claims)

  predicate Networked(vms: seq<VmRequest>, nets: Networks) {
    forall v :: 0 <= v < |vms| ==>
      vms[v].nics != [] && forall i :: 0 <= i < |vms[v].nics| ==> vms[v].nics[i].network in nets
  }

  function Previous(rows: seq<VmRow>, node: string): Option<VmRow> {
    if rows == [] then None
    else if rows[|rows| - 1].node == node then Some(rows[|rows| - 1]) else Previous(rows[..|rows| - 1], node)
  }

  function OldNics(prior: Option<VmRow>): seq<NicRow> { if prior.Some? then prior.value.nics else [] }

  function FixVms(vms: seq<VmRequest>, current: seq<VmRow>, nets: Networks, taken: Taken, ranges: Ranges, k: nat)
    : (r: Result<Fixed, AllocError>)
    requires k <= |vms| && Networked(vms, nets)
    ensures r.Ok? ==> |r.value.ids| == |r.value.ips| == k
  {
    if k == 0 then Ok(Fixed([], [], {}, {})) else
    var before := FixVms(vms, current, nets, taken, ranges, k - 1);
    if before.Err? then before else
    var vm := vms[k - 1];
    var f := before.value;
    var prior := Previous(current, vm.node);
    var id := FixId(vm, prior, taken.ids, f.claimedIds, ranges);
    if id.Err? then Err(id.error) else
    var retained := RetainedNics(vm, OldNics(prior), nets);
    if retained.Err? then Err(retained.error) else
    var nics := FixNics(vm, retained.value, nets, taken.ips, f.claimedIps, |vm.nics|);
    if nics.Err? then Err(nics.error) else
    Ok(Fixed(f.ids + [id.value], f.ips + [nics.value.ips],
             f.claimedIds + (if id.value.Some? then {("", id.value.value)} else {}), nics.value.claimed))
  }

  // ---------------------------------------------------------------- second phase: automatic values

  function Min(a: nat, b: nat): nat { if a < b then a else b }

  function IdSlot(r: Request, want: Option<nat>): Slot {
    Slot("", want, r.start, Min(r.end + 1, r.start + SCAN_IDS))
  }

  function LastHost(s: Subnet): nat { if Size(s) == 0 then s.base else s.base + Size(s) - 1 }

  function IpSlot(net: Network, want: Option<Ip>): Slot {
    Slot(net.bridge, want, net.subnet.base + 1, Min(LastHost(net.subnet), net.subnet.base + 1 + SCAN_IPS))
  }

  predicate Indexed(vm: VmRequest, nets: Networks) {
    forall j :: 0 <= j < |vm.nics| ==> Position(vm.nics, j) < |vm.nics| && Nic(vm, j).network in nets
  }

  function IpSlots(vm: VmRequest, nets: Networks, wants: map<nat, Ip>): seq<Slot>
    requires Indexed(vm, nets)
  {
    seq(|vm.nics|, j requires 0 <= j < |vm.nics| =>
      IpSlot(nets[Nic(vm, j).network], if j in wants then Some(wants[j]) else None))
  }

  function NicRows(vm: VmRequest, nets: Networks, ips: seq<nat>): seq<NicRow>
    requires Indexed(vm, nets) && |ips| == |vm.nics|
  {
    seq(|vm.nics|, j requires 0 <= j < |vm.nics| =>
      var net := nets[Nic(vm, j).network];
      NicRow(j, Nic(vm, j).key, net.id, net.bridge, net.subnet, ips[j], net.gateway))
  }

  datatype Assigned = Assigned(rows: seq<VmRow>, usedIds: Claims, usedIps: Claims)

  function AssignVms(r: Request, nets: Networks, f: Fixed, taken: Taken, ranges: Ranges, k: nat)
    : (a: Result<Assigned, AllocError>)
    requires k <= |r.vms| == |f.ids| == |f.ips| && forall v :: 0 <= v < |r.vms| ==> Indexed(r.vms[v], nets)
    ensures a.Ok? ==> |a.value.rows| == k
    ensures a.Err? ==> a.error.PoolExhausted?
  {
    if k == 0 then Ok(Assigned([], taken.ids + f.claimedIds, taken.ips + f.claimedIps)) else
    var before := AssignVms(r, nets, f, taken, ranges, k - 1);
    if before.Err? then before else
    var vm := r.vms[k - 1];
    var id := Choice(IdSlot(r, f.ids[k - 1]), before.value.usedIds, ranges);
    if id.None? then Err(PoolExhausted) else
    var slots := IpSlots(vm, nets, f.ips[k - 1]);
    var ips := Fill(slots, before.value.usedIps, []);
    if ips.None? then Err(PoolExhausted) else
    Ok(Assigned(before.value.rows + [VmRow(vm.node, id.value, NicRows(vm, nets, ips.value))],
                before.value.usedIds + {("", id.value)},
                before.value.usedIps + Claimed(slots, ips.value)))
  }

  /** The whole plan; taken is what occupancy and every other lease and claim hold. */
  function PlanRequest(r: Request, overrides: Ranges, taken: Taken, current: seq<VmRow>): Result<seq<VmRow>, AllocError>
    requires Networked(r.vms, NetworkMap(r.networks))
    requires forall v :: 0 <= v < |r.vms| ==> Indexed(r.vms[v], NetworkMap(r.networks))
  {
    if !ValidOverrides(overrides) then Err(Invalid) else
    var nets := NetworkMap(r.networks);
    var ranges := DEFAULT_PROTECTED + overrides;
    var all := Taken(taken.ids, taken.ips + Reserved(r.networks));
    var f := FixVms(r.vms, current, nets, all, ranges, |r.vms|);
    if f.Err? then Err(f.error) else
    var a := AssignVms(r, nets, f.value, all, ranges, |r.vms|);
    if a.Err? then Err(a.error) else Ok(a.value.rows)
  }
}
