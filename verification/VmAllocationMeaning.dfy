/** The planner's answers over the plain fields of the request, the stored rows and what others hold. */
module VmAllocationMeaning {
  import opened Wrappers
  import opened FirstFit
  import opened VmAllocationModel
  import opened VmAllocationSoundness
  import opened VmAllocationTheorems

  // ---------------------------------------------------------------- small facts

  /** Identifiers that are never given out: the built-in ranges and the host's own. */
  ghost predicate Barred(v: nat, overrides: Ranges) {
    || 100 <= v <= 101 || 1000 <= v <= 1023 || v == 1111 || 4000 <= v <= 4004 || 9000 <= v <= 9999
    || exists i :: 0 <= i < |overrides| && overrides[i].0 <= v <= overrides[i].1
  }

  lemma BarredExactly(v: nat, overrides: Ranges)
    ensures Barred(v, overrides) <==> InRanges(v, DEFAULT_PROTECTED + overrides)
  {
    var all := DEFAULT_PROTECTED + overrides;
    assert all[0] == (100, 101) && all[1] == (1000, 1023) && all[2] == (1111, 1111) && all[3] == (4000, 4004) && all[4] == (9000, 9999);
    assert all[0] in all && all[1] in all && all[2] in all && all[3] in all && all[4] in all;
    assert forall i :: 0 <= i < |overrides| ==> all[5 + i] == overrides[i];
    if InRanges(v, all) {
      var r :| r in all && r.0 <= v <= r.1;
      var k :| 0 <= k < |all| && all[k] == r;
      if k >= 5 { assert overrides[k - 5].0 <= v <= overrides[k - 5].1; }
    }
    if i: nat :| i < |overrides| && overrides[i].0 <= v <= overrides[i].1 { assert all[5 + i] in all; }
  }

  /** Addresses of a bridge that the request itself keeps free: gateways and reserved ones of its networks. */
  ghost predicate SetAside(networks: seq<Network>, bridge: string, ip: Ip) {
    exists n :: n in networks && n.bridge == bridge && (ip in n.reserved || n.gateway == Some(ip))
  }

  lemma {:induction false} SetAsideExactly(networks: seq<Network>, bridge: string, ip: Ip)
    ensures (bridge, ip) in Reserved(networks) <==> SetAside(networks, bridge, ip)
  {
    if networks != [] {
      var n := |networks| - 1;
      SetAsideExactly(networks[..n], bridge, ip);
      assert networks == networks[..n] + [networks[n]];
      assert forall x :: x in networks <==> x in networks[..n] || x == networks[n];
      assert (bridge, ip) in ReservedBy(networks[n]) <==> networks[n].bridge == bridge && (ip in networks[n].reserved || networks[n].gateway == Some(ip));
    }
  }

  lemma {:induction false} NetworkAt(networks: seq<Network>, k: nat)
    requires k < |networks| && forall i, j :: 0 <= i < j < |networks| ==> networks[i].id != networks[j].id
    ensures networks[k].id in NetworkMap(networks) && NetworkMap(networks)[networks[k].id] == networks[k]
  {
    if k < |networks| - 1 { NetworkAt(networks[..|networks| - 1], k); }
  }

  lemma IdTaken(rows: seq<VmRow>, v: nat)
    requires v < |rows|
    ensures ("", rows[v].vmid) in Ids(rows)
  {}

  lemma IpTaken(rows: seq<VmRow>, v: nat, j: nat)
    requires v < |rows| && j < |rows[v].nics|
    ensures (rows[v].nics[j].bridge, rows[v].nics[j].ip) in Ips(rows)
  {}

  // ---------------------------------------------------------------- what every plan gives out

  /** Interface i of machine v is answered under its own index: the network's own fields, the manual address
      verbatim, and otherwise one that nobody holds and nothing keeps free. */
  ghost predicate Answers(r: Request, taken: Taken, vm: VmRequest, i: nat, nics: seq<NicRow>)
    requires i < |vm.nics|
  {
    var nic := vm.nics[i];
    nic.index < |nics| && var row := nics[nic.index];
    && row.index == nic.index && row.key == nic.key && row.network == nic.network
    && (nic.ip.Some? ==> row.ip == nic.ip.value)
    && (exists n :: n in r.networks && n.id == nic.network && row.bridge == n.bridge && row.subnet == n.subnet && row.gateway == n.gateway)
    && 16 <= row.subnet.prefix <= 30 && row.subnet.base < row.ip < row.subnet.base + Pow2(32 - row.subnet.prefix) - 1
    && (row.bridge, row.ip) !in taken.ips
    && (forall n :: n in r.networks && n.bridge == row.bridge ==> row.ip !in n.reserved && n.gateway != Some(row.ip))
  }

  lemma AnswersEach(r: Request, overrides: Ranges, taken: Taken, rows: seq<VmRow>, v: nat, i: nat)
    requires ValidRequest(r) && AllValid(r.vms, NetworkMap(r.networks)) && v < |rows| == |r.vms| && i < |r.vms[v].nics|
    requires Describes(r, NetworkMap(r.networks), rows)
    requires Admissible(rows, Taken(taken.ids, taken.ips + Reserved(r.networks)), DEFAULT_PROTECTED + overrides)
    ensures |rows[v].nics| == |r.vms[v].nics| && Answers(r, taken, r.vms[v], i, rows[v].nics)
  {
    hide *;
    var nets, vm := NetworkMap(r.networks), r.vms[v];
    ReadyAt(r, v);
    DescribesAt(r, rows, v);
    RowOf(vm, nets, rows[v].nics, i);
    NetworkOf(r, vm.nics[i].network);
    var row, n := rows[v].nics[vm.nics[i].index], nets[vm.nics[i].network];
    AdmissibleAt(rows, Taken(taken.ids, taken.ips + Reserved(r.networks)), DEFAULT_PROTECTED + overrides, v, vm.nics[i].index);
    SetAsideExactly(r.networks, row.bridge, row.ip);
    AnswersFrom(r, taken, vm, i, rows[v].nics, n);
  }

  lemma ReadyAt(r: Request, v: nat)
    requires AllValid(r.vms, NetworkMap(r.networks)) && v < |r.vms|
    ensures Ready(r.vms[v], NetworkMap(r.networks)) && ContiguousNics(r.vms[v].nics) && Indexed(r.vms[v], NetworkMap(r.networks))
    ensures forall i :: 0 <= i < |r.vms[v].nics| ==> r.vms[v].nics[i].network in NetworkMap(r.networks)
  {}

  lemma DescribesAt(r: Request, rows: seq<VmRow>, v: nat)
    requires AllValid(r.vms, NetworkMap(r.networks)) && Describes(r, NetworkMap(r.networks), rows) && v < |rows|
    ensures |rows| == |r.vms| && Indexed(r.vms[v], NetworkMap(r.networks)) && DescribesNics(r.vms[v], NetworkMap(r.networks), rows[v].nics)
  {
    hide DescribesNics, NetworkMap;
  }

  lemma RowOf(vm: VmRequest, nets: Networks, nics: seq<NicRow>, i: nat)
    requires Indexed(vm, nets) && ContiguousNics(vm.nics) && DescribesNics(vm, nets, nics) && i < |vm.nics|
    ensures |nics| == |vm.nics| && vm.nics[i].index < |nics| && vm.nics[i].network in nets
    ensures var nic, row := vm.nics[i], nics[vm.nics[i].index];
            var n := nets[nic.network];
            && row.index == nic.index && row.key == nic.key && row.network == n.id && row.bridge == n.bridge && row.subnet == n.subnet
            && row.gateway == n.gateway && (nic.ip.Some? ==> row.ip == nic.ip.value)
  {
    PositionOf(vm.nics, i);
    assert Nic(vm, vm.nics[i].index) == vm.nics[i];
  }

  lemma NetworkOf(r: Request, id: string)
    requires ValidRequest(r) && id in NetworkMap(r.networks)
    ensures NetworkMap(r.networks)[id] in r.networks && NetworkMap(r.networks)[id].id == id
    ensures 16 <= NetworkMap(r.networks)[id].subnet.prefix <= 30
  {
    PrefixOf(r, NetworkMap(r.networks)[id]);
  }

  lemma AdmissibleAt(rows: seq<VmRow>, taken: Taken, ranges: Ranges, v: nat, j: nat)
    requires Admissible(rows, taken, ranges) && v < |rows| && j < |rows[v].nics|
    ensures (rows[v].nics[j].bridge, rows[v].nics[j].ip) !in taken.ips && Usable(rows[v].nics[j].ip, rows[v].nics[j].subnet)
  {
    IpTaken(rows, v, j);
    hide Ips, Ids;
  }

  lemma AnswersFrom(r: Request, taken: Taken, vm: VmRequest, i: nat, nics: seq<NicRow>, n: Network)
    requires i < |vm.nics| && vm.nics[i].index < |nics| && n in r.networks && n.id == vm.nics[i].network && 16 <= n.subnet.prefix <= 30
    requires var nic, row := vm.nics[i], nics[vm.nics[i].index];
             && row.index == nic.index && row.key == nic.key && row.network == n.id && row.bridge == n.bridge && row.subnet == n.subnet
             && row.gateway == n.gateway && (nic.ip.Some? ==> row.ip == nic.ip.value)
             && Usable(row.ip, row.subnet) && (row.bridge, row.ip) !in taken.ips && !SetAside(r.networks, row.bridge, row.ip)
    ensures Answers(r, taken, vm, i, nics)
  {}

  lemma PrefixOf(r: Request, n: Network)
    requires ValidRequest(r) && n in r.networks
    ensures 16 <= n.subnet.prefix <= 30
  {}

  /** Every successful plan, field by field. */
  lemma PlanMeans(r: Request, overrides: Ranges, taken: Taken, current: seq<VmRow>)
    requires ValidRequest(r) && AllValid(r.vms, NetworkMap(r.networks))
    requires PlanRequest(r, overrides, taken, current).Ok?
    ensures var rows := PlanRequest(r, overrides, taken, current).value;
            && |rows| == |r.vms|
            && (forall v :: 0 <= v < |rows| ==>
                  && rows[v].node == r.vms[v].node && |rows[v].nics| == |r.vms[v].nics|
                  && (r.vms[v].vmid.Some? ==> rows[v].vmid == r.vms[v].vmid.value)
                  && ("", rows[v].vmid) !in taken.ids && !Barred(rows[v].vmid, overrides))
            && (forall v, i :: 0 <= v < |rows| && 0 <= i < |r.vms[v].nics| ==> Answers(r, taken, r.vms[v], i, rows[v].nics))
            && (forall u, v :: 0 <= u < v < |rows| ==> rows[u].vmid != rows[v].vmid)
            && (forall u, i, v, j :: 0 <= u < |rows| && 0 <= i < |rows[u].nics| && 0 <= v < |rows| && 0 <= j < |rows[v].nics| && (u, i) != (v, j) ==>
                  rows[u].nics[i].bridge != rows[v].nics[j].bridge || rows[u].nics[i].ip != rows[v].nics[j].ip)
  {
    var rows := PlanRequest(r, overrides, taken, current).value;
    PlanSound(r, overrides, taken, current);
    hide PlanRequest, ValidRequest, AllValid, NetworkMap, Reserved, Answers, Barred, InRanges, Describes;
    forall v | 0 <= v < |rows|
      ensures ("", rows[v].vmid) !in taken.ids && !Barred(rows[v].vmid, overrides)
      ensures rows[v].node == r.vms[v].node && (r.vms[v].vmid.Some? ==> rows[v].vmid == r.vms[v].vmid.value)
    {
      BarredExactly(rows[v].vmid, overrides);
      IdTaken(rows, v);
      DescribesOne(r, rows, v);
    }
    forall v, i | 0 <= v < |rows| && 0 <= i < |r.vms[v].nics|
      ensures |rows[v].nics| == |r.vms[v].nics| && Answers(r, taken, r.vms[v], i, rows[v].nics)
    {
      AnswersEach(r, overrides, taken, rows, v, i);
    }
    forall v | 0 <= v < |rows| ensures |rows[v].nics| == |r.vms[v].nics| { DescribesOne(r, rows, v); }
    hide Admissible;
    PairsDiffer(rows);
  }

  lemma DescribesOne(r: Request, rows: seq<VmRow>, v: nat)
    requires AllValid(r.vms, NetworkMap(r.networks)) && Describes(r, NetworkMap(r.networks), rows) && v < |rows|
    ensures |rows| == |r.vms| && rows[v].node == r.vms[v].node && |rows[v].nics| == |r.vms[v].nics|
    ensures r.vms[v].vmid.Some? ==> rows[v].vmid == r.vms[v].vmid.value
  {}

  lemma PairsDiffer(rows: seq<VmRow>)
    requires Exclusive(rows)
    ensures forall u, i, v, j :: 0 <= u < |rows| && 0 <= i < |rows[u].nics| && 0 <= v < |rows| && 0 <= j < |rows[v].nics| && (u, i) != (v, j) ==>
              rows[u].nics[i].bridge != rows[v].nics[j].bridge || rows[u].nics[i].ip != rows[v].nics[j].ip
  {
    forall u, i, v, j | 0 <= u < |rows| && 0 <= i < |rows[u].nics| && 0 <= v < |rows| && 0 <= j < |rows[v].nics| && (u, i) != (v, j)
      ensures (rows[u].nics[i].bridge, rows[u].nics[i].ip) != (rows[v].nics[j].bridge, rows[v].nics[j].ip)
    {
      if u == v {
        if i < j { assert DistinctPairs(rows[u].nics); } else { assert DistinctPairs(rows[v].nics); }
      } else {
        assert (rows[u].nics[i].bridge, rows[u].nics[i].ip) in NicPairs(rows[u].nics);
        assert (rows[v].nics[j].bridge, rows[v].nics[j].ip) in NicPairs(rows[v].nics);
        if u < v { assert NicPairs(rows[u].nics) !! NicPairs(rows[v].nics); } else { assert NicPairs(rows[v].nics) !! NicPairs(rows[u].nics); }
      }
    }
  }

  /** An address is usable in a network of prefix at most 32 exactly when it is neither outside it, nor its
      first, nor its last. */
  lemma UsableExactly(ip: Ip, s: Subnet)
    requires s.prefix <= 32
    ensures Usable(ip, s) <==> s.base < ip && ip + 1 < s.base + Pow2(32 - s.prefix)
  {}

  /** A host's own ranges are well formed exactly when there are at most 256, each within 100 and 999999999. */
  lemma OverridesExactly(overrides: Ranges)
    ensures ValidOverrides(overrides) <==>
            |overrides| <= 256 && forall i :: 0 <= i < |overrides| ==> 100 <= overrides[i].0 <= overrides[i].1 <= 999999999
  {}

  /** The sizes of the smallest, the usual and the largest networks. */
  lemma Sizes()
    ensures Pow2(2) == 4 && Pow2(8) == 256 && Pow2(16) == 65536
  {}

  // ---------------------------------------------------------------- what a renewal keeps

  /** The stored row that counts for a node: the last one. */
  ghost predicate LastRow(current: seq<VmRow>, node: string, row: VmRow) {
    exists k :: 0 <= k < |current| && current[k] == row && row.node == node && forall m :: k < m < |current| ==> current[m].node != node
  }

  lemma {:induction false} PreviousMeans(current: seq<VmRow>, node: string)
    ensures Previous(current, node).None? <==> forall k :: 0 <= k < |current| ==> current[k].node != node
    ensures Previous(current, node).Some? ==> LastRow(current, node, Previous(current, node).value)
  {
    if current != [] {
      var n := |current| - 1;
      PreviousMeans(current[..n], node);
      assert current == current[..n] + [current[n]];
      if current[n].node == node {
        assert LastRow(current, node, current[n]);
      } else if Previous(current[..n], node).Some? {
        var row := Previous(current[..n], node).value;
        var k :| 0 <= k < n && current[..n][k] == row && row.node == node && forall m :: k < m < n ==> current[..n][m].node != node;
        assert current[k] == row && forall m :: k < m < |current| ==> m == n || current[m] == current[..n][m];
      }
    }
  }

  /** One stored interface: the last one for which p holds. */
  ghost predicate LastNic(rows: seq<NicRow>, p: NicRow -> bool, row: NicRow) {
    exists k :: 0 <= k < |rows| && rows[k] == row && p(row) && forall m :: k < m < |rows| ==> !p(rows[m])
  }

  lemma LastNicSnoc(rows: seq<NicRow>, last: NicRow, p: NicRow -> bool, row: NicRow)
    ensures p(last) ==> LastNic(rows + [last], p, last)
    ensures !p(last) && LastNic(rows, p, row) ==> LastNic(rows + [last], p, row)
  {
    var all := rows + [last];
    if p(last) { assert all[|rows|] == last; }
    if !p(last) && LastNic(rows, p, row) {
      var k :| 0 <= k < |rows| && rows[k] == row && p(row) && forall m :: k < m < |rows| ==> !p(rows[m]);
      assert all[k] == row && forall m :: k < m < |all| ==> m == |rows| || all[m] == rows[m];
    }
  }

  lemma {:induction false} ByIndexMeans(rows: seq<NicRow>, i: nat)
    ensures i in ByIndex(rows) <==> exists k :: 0 <= k < |rows| && rows[k].index == i
    ensures i in ByIndex(rows) ==> LastNic(rows, (x: NicRow) => x.index == i, ByIndex(rows)[i])
  {
    if rows != [] {
      var n := |rows| - 1;
      ByIndexMeans(rows[..n], i);
      assert rows == rows[..n] + [rows[n]];
      var p := (x: NicRow) => x.index == i;
      LastNicSnoc(rows[..n], rows[n], p, rows[n]);
      if i in ByIndex(rows[..n]) { LastNicSnoc(rows[..n], rows[n], p, ByIndex(rows[..n])[i]); }
    }
  }

  lemma {:induction false} FindKeyMeans(rows: seq<NicRow>, key: Option<string>)
    ensures FindKey(rows, key).Some? <==> exists k :: 0 <= k < |rows| && rows[k].key == key
    ensures FindKey(rows, key).Some? ==> LastNic(rows, (x: NicRow) => x.key == key, FindKey(rows, key).value)
  {
    if rows != [] {
      var n := |rows| - 1;
      FindKeyMeans(rows[..n], key);
      assert rows == rows[..n] + [rows[n]];
      var p := (x: NicRow) => x.key == key;
      LastNicSnoc(rows[..n], rows[n], p, rows[n]);
      if FindKey(rows[..n], key).Some? { LastNicSnoc(rows[..n], rows[n], p, FindKey(rows[..n], key).value); }
    }
  }

  lemma {:induction false} ByKeyMeans(nics: seq<NicRequest>, rows: seq<NicRow>, i: nat)
    requires i < |nics| && forall a, b :: 0 <= a < b < |nics| ==> nics[a].index != nics[b].index
    ensures nics[i].index in ByKey(nics, rows) <==> FindKey(rows, nics[i].key).Some?
    ensures FindKey(rows, nics[i].key).Some? ==> ByKey(nics, rows)[nics[i].index] == FindKey(rows, nics[i].key).value
  {
    hide FindKey;
    var n := |nics| - 1;
    assert nics == nics[..n] + [nics[n]];
    if i < n { ByKeyMeans(nics[..n], rows, i); }
  }

  /** A stored interface that could be this unkeyed one: of the same network, bridge and subnet, at an address
      that the request does not ask for by hand. */
  ghost predicate Candidate(row: NicRow, vm: VmRequest, net: Network) {
    && row.network == net.id && row.bridge == net.bridge && row.subnet == net.subnet
    && forall i :: 0 <= i < |vm.nics| && vm.nics[i].network == row.network ==> vm.nics[i].ip != Some(row.ip)
  }

  lemma {:induction false} CandidatesMean(rows: seq<NicRow>, vm: VmRequest, net: Network)
    ensures forall x :: x in Candidates(rows, Explicit(vm.nics), net) <==> x in rows && Candidate(x, vm, net)
    ensures Candidates(rows, Explicit(vm.nics), net) == [] <==> forall k :: 0 <= k < |rows| ==> !Candidate(rows[k], vm, net)
    ensures |Candidates(rows, Explicit(vm.nics), net)| > 1 <==>
            exists a, b :: 0 <= a < b < |rows| && Candidate(rows[a], vm, net) && Candidate(rows[b], vm, net)
  {
    if rows != [] {
      var n := |rows| - 1;
      CandidatesMean(rows[..n], vm, net);
      assert rows == rows[..n] + [rows[n]];
      assert forall x :: x in rows <==> x in rows[..n] || x == rows[n];
      IsCandidate(rows[n], vm, net);
      hide Candidate, Explicit, SameNetwork;
      var before := Candidates(rows[..n], Explicit(vm.nics), net);
      assert before != [] ==> before[0] in before;
    }
  }

  lemma IsCandidate(row: NicRow, vm: VmRequest, net: Network)
    ensures Candidate(row, vm, net) <==> (row.network, row.ip) !in Explicit(vm.nics) && SameNetwork(row, net)
  {}

  /** Interface i is still without an address of its own, and is the only one of its network. */
  ghost predicate Alone(nics: seq<NicRequest>, i: nat)
    requires i < |nics|
  {
    nics[i].ip.None? && forall k :: 0 <= k < |nics| && k != i && nics[k].network == nics[i].network ==> nics[k].ip.Some?
  }

  lemma {:induction false} UnresolvedMeans(nics: seq<NicRequest>, network: string)
    ensures Unresolved(nics, network) == 0 <==> forall k :: 0 <= k < |nics| && nics[k].network == network ==> nics[k].ip.Some?
    ensures Unresolved(nics, network) > 1 <==>
            exists a, b :: 0 <= a < b < |nics| && nics[a].network == network == nics[b].network && nics[a].ip.None? && nics[b].ip.None?
  {
    if nics != [] {
      var n := |nics| - 1;
      UnresolvedMeans(nics[..n], network);
      assert nics == nics[..n] + [nics[n]];
      if Unresolved(nics[..n], network) != 0 {
        var k :| 0 <= k < n && nics[..n][k].network == network && nics[..n][k].ip.None?;
        assert nics[k] == nics[..n][k];
      }
    }
  }

  lemma AloneMeans(nics: seq<NicRequest>, i: nat)
    requires i < |nics| && nics[i].ip.None?
    ensures Alone(nics, i) <==> Unresolved(nics, nics[i].network) == 1
  {
    UnresolvedMeans(nics, nics[i].network);
    if !Alone(nics, i) {
      var k :| 0 <= k < |nics| && k != i && nics[k].network == nics[i].network && nics[k].ip.None?;
      var a, b := if k < i then k else i, if k < i then i else k;
      assert a < b && nics[a].network == nics[i].network == nics[b].network && nics[a].ip.None? && nics[b].ip.None?;
    }
  }

  /** Interface i of a newly keyed machine has an unkeyed stored row that could be its own. */
  ghost predicate HasCandidate(vm: VmRequest, rows: seq<NicRow>, nets: Networks, i: nat)
    requires i < |vm.nics| && Ready(vm, nets)
  {
    exists k :: 0 <= k < |rows| && Candidate(rows[k], vm, nets[vm.nics[i].network])
  }

  /** But not exactly one, or it is not the only interface that could claim it. */
  ghost predicate Unclear(vm: VmRequest, rows: seq<NicRow>, nets: Networks, i: nat)
    requires i < |vm.nics| && Ready(vm, nets)
  {
    && vm.nics[i].ip.None? && HasCandidate(vm, rows, nets, i)
    && (!Alone(vm.nics, i)
        || exists a, b :: 0 <= a < b < |rows| && Candidate(rows[a], vm, nets[vm.nics[i].network]) && Candidate(rows[b], vm, nets[vm.nics[i].network]))
  }

  /** Interface by interface, what adopting unkeyed rows comes to. */
  lemma {:induction false} AdoptMeans(vm: VmRequest, rows: seq<NicRow>, nets: Networks, k: nat)
    requires k <= |vm.nics| && Ready(vm, nets) && forall a, b :: 0 <= a < b < |vm.nics| ==> vm.nics[a].index != vm.nics[b].index
    ensures Adopt(vm, rows, nets, k).Err? <==> exists i :: 0 <= i < k && Unclear(vm, rows, nets, i)
    ensures Adopt(vm, rows, nets, k).Ok? ==>
              && (forall i :: k <= i < |vm.nics| ==> vm.nics[i].index !in Adopt(vm, rows, nets, k).value)
              && forall i :: 0 <= i < k ==>
                   && (vm.nics[i].index in Adopt(vm, rows, nets, k).value <==> vm.nics[i].ip.None? && HasCandidate(vm, rows, nets, i))
                   && (vm.nics[i].index in Adopt(vm, rows, nets, k).value ==>
                         var x := Adopt(vm, rows, nets, k).value[vm.nics[i].index]; x in rows && Candidate(x, vm, nets[vm.nics[i].network]))
  {
    if k > 0 {
      AdoptMeans(vm, rows, nets, k - 1);
      AdoptTurn(vm, rows, nets, k - 1);
      hide Candidates, Candidate, Unclear, HasCandidate, Unresolved;
    }
  }

  lemma AdoptTurn(vm: VmRequest, rows: seq<NicRow>, nets: Networks, i: nat)
    requires i < |vm.nics| && Ready(vm, nets)
    ensures var found := Candidates(rows, Explicit(vm.nics), nets[vm.nics[i].network]);
            && (found != [] <==> HasCandidate(vm, rows, nets, i))
            && (found != [] ==> found[0] in rows && Candidate(found[0], vm, nets[vm.nics[i].network]))
            && (vm.nics[i].ip.None? ==>
                  (Unclear(vm, rows, nets, i) <==> found != [] && (|found| != 1 || Unresolved(vm.nics, vm.nics[i].network) != 1)))
  {
    var found := Candidates(rows, Explicit(vm.nics), nets[vm.nics[i].network]);
    CandidatesMean(rows, vm, nets[vm.nics[i].network]);
    if vm.nics[i].ip.None? { AloneMeans(vm.nics, i); }
    hide Candidates, Candidate, Unresolved, Alone, Explicit;
    assert found != [] ==> found[0] in found;
  }

  ghost predicate SomeKeyed(rows: seq<NicRow>) { exists k :: 0 <= k < |rows| && rows[k].key.Some? }

  /** Keys stored for some interfaces only, or one key for two. */
  ghost predicate BadKeys(rows: seq<NicRow>) {
    SomeKeyed(rows) && ((exists k :: 0 <= k < |rows| && rows[k].key.None?)
                        || exists a, b :: 0 <= a < b < |rows| && rows[a].key == rows[b].key)
  }

  /** When stored interfaces cannot be told apart, and which one each requested interface retains: by its index
      when nothing has keys, by its key when both sides have, and by its network alone when keys are new. */
  lemma RetainedMeans(vm: VmRequest, rows: seq<NicRow>, nets: Networks, i: nat)
    requires Ready(vm, nets) && ContiguousNics(vm.nics) && i < |vm.nics|
    ensures var keyed := vm.nics[0].key.Some?;
            RetainedNics(vm, rows, nets).Err? <==>
              rows != [] && (BadKeys(rows) || (!keyed && SomeKeyed(rows))
                             || (keyed && !SomeKeyed(rows) && exists n :: 0 <= n < |vm.nics| && Unclear(vm, rows, nets, n)))
    ensures RetainedNics(vm, rows, nets).Ok? ==>
              var keyed, m, x := vm.nics[0].key.Some?, RetainedNics(vm, rows, nets).value, vm.nics[i].index;
              && (x in m <==> if !keyed then exists k :: 0 <= k < |rows| && rows[k].index == x
                              else if SomeKeyed(rows) then exists k :: 0 <= k < |rows| && rows[k].key == vm.nics[i].key
                              else vm.nics[i].ip.None? && HasCandidate(vm, rows, nets, i))
              && (x in m ==> if !keyed then LastNic(rows, (row: NicRow) => row.index == x, m[x])
                             else if SomeKeyed(rows) then LastNic(rows, (row: NicRow) => row.key == vm.nics[i].key, m[x])
                             else m[x] in rows && Candidate(m[x], vm, nets[vm.nics[i].network]))
  {
    ByIndexMeans(rows, vm.nics[i].index);
    FindKeyMeans(rows, vm.nics[i].key);
    ByKeyMeans(vm.nics, rows, i);
    AdoptMeans(vm, rows, nets, |vm.nics|);
    KeysAgree(rows);
    hide ByIndex, FindKey, ByKey, Adopt, Candidate, Unclear, LastNic, ContiguousNics, KeysConsistent;
    if rows == [] { NothingRetained(vm, nets, i); }
    else { RetainedCases(vm, rows, nets); }
  }

  lemma KeysAgree(rows: seq<NicRow>)
    ensures KeysConsistent(rows) <==> !BadKeys(rows)
    ensures rows != [] && KeysConsistent(rows) ==> (rows[0].key.Some? <==> SomeKeyed(rows))
  {}

  lemma NothingRetained(vm: VmRequest, nets: Networks, i: nat)
    requires Ready(vm, nets) && i < |vm.nics|
    ensures RetainedNics(vm, [], nets) == Ok(map[]) && !HasCandidate(vm, [], nets, i)
  {}

  lemma RetainedCases(vm: VmRequest, rows: seq<NicRow>, nets: Networks)
    requires Ready(vm, nets) && vm.nics != [] && rows != []
    ensures RetainedNics(vm, rows, nets) ==
              if !KeysConsistent(rows) then Err(NicIdentityRequired)
              else if vm.nics[0].key.None? then if rows[0].key.Some? then Err(NicIdentityRequired) else Ok(ByIndex(rows))
              else if rows[0].key.Some? then Ok(ByKey(vm.nics, rows))
              else Adopt(vm, rows, nets, |vm.nics|)
  {
    hide ByIndex, ByKey, Adopt, KeysConsistent;
  }

  // ---------------------------------------------------------------- kept values and least values

  /** The address of interface i before any automatic choice: the manual one, or the one stored for the
      interface it retains, as long as that is still on the same network. */
  ghost predicate Stays(r: Request, vm: VmRequest, current: seq<VmRow>, i: nat, ip: Ip)
    requires Ready(vm, NetworkMap(r.networks)) && i < |vm.nics|
  {
    var nic, m := vm.nics[i], Kept(vm, NetworkMap(r.networks), current);
    nic.ip == Some(ip)
    || (nic.ip.None? && nic.index in m && m[nic.index].ip == ip
        && exists n :: n in r.networks && n.id == nic.network && m[nic.index].network == n.id
                       && m[nic.index].bridge == n.bridge && m[nic.index].subnet == n.subnet)
  }

  lemma StaysExactly(r: Request, vm: VmRequest, current: seq<VmRow>, i: nat)
    requires ValidRequest(r) && Ready(vm, NetworkMap(r.networks)) && i < |vm.nics|
    ensures var w := WantedIp(vm.nics[i], Kept(vm, NetworkMap(r.networks), current), NetworkMap(r.networks)[vm.nics[i].network]);
            forall ip: Ip :: (Stays(r, vm, current, i, ip) <==> w == Some(ip))
  {
    var n := NetworkMap(r.networks)[vm.nics[i].network];
    forall m | m in r.networks && m.id == n.id ensures m == n {
      var a :| 0 <= a < |r.networks| && r.networks[a] == m;
      var b :| 0 <= b < |r.networks| && r.networks[b] == n;
    }
    hide Kept, NetworkMap;
  }

  lemma WishPlaced(r: Request, nets: Networks, f: Fixed, taken: Taken, ranges: Ranges, rows: seq<VmRow>, v: nat, j: nat)
    requires v < |rows| == |r.vms| == |f.ids| == |f.ips| && AllValid(r.vms, nets) && Placed(r, nets, f, taken, ranges, rows, v)
    requires j < |r.vms[v].nics| && IpSlots(r.vms[v], nets, f.ips[v])[j].want.Some?
    ensures j < |rows[v].nics| && rows[v].nics[j].ip == IpSlots(r.vms[v], nets, f.ips[v])[j].want.value
  {
    hide Free, Claimed, Fill, FirstFit.Least, Ips, Choice;
    var slots, ips := IpSlots(r.vms[v], nets, f.ips[v]), Addresses(rows[v].nics);
    var used := taken.ips + f.claimedIps + Ips(rows[..v]);
    FillFits(slots, used, []);
    assert FirstFit.Fits(slots, ips, used, [], j);
  }

  lemma OnlyLastRow(current: seq<VmRow>, node: string)
    ensures forall row :: LastRow(current, node, row) ==> Previous(current, node) == Some(row)
  {
    PreviousMeans(current, node);
    hide Previous;
    forall row | LastRow(current, node, row) ensures Previous(current, node) == Some(row) {
      var k :| 0 <= k < |current| && current[k] == row && row.node == node && forall m :: k < m < |current| ==> current[m].node != node;
      var x := Previous(current, node).value;
      var j :| 0 <= j < |current| && current[j] == x && x.node == node && forall m :: j < m < |current| ==> current[m].node != node;
    }
  }

  lemma KeptAddress(r: Request, nets: Networks, current: seq<VmRow>, f: Fixed, taken: Taken, ranges: Ranges, rows: seq<VmRow>,
                    v: nat, i: nat)
    requires FixedAll(r.vms, nets, current, taken, ranges, f) && v < |rows| == |r.vms| == |f.ids| == |f.ips|
    requires AllValid(r.vms, nets) && Placed(r, nets, f, taken, ranges, rows, v) && i < |r.vms[v].nics|
    ensures var nic := r.vms[v].nics[i];
            var w := WantedIp(nic, Kept(r.vms[v], nets, current), nets[nic.network]);
            w.Some? ==> nic.index < |rows[v].nics| && rows[v].nics[nic.index].ip == w.value
  {
    var vm := r.vms[v];
    PositionOf(vm.nics, i);
    assert FixedVm(vm, nets, current, taken, ranges, f.ids[v], f.ips[v]);
    assert Nic(vm, vm.nics[i].index) == vm.nics[i];
    var w := WantedIp(vm.nics[i], Kept(vm, nets, current), nets[vm.nics[i].network]);
    assert IpSlots(vm, nets, f.ips[v])[vm.nics[i].index].want == w;
    hide FixedAll, Kept, Placed, IpSlots, AllValid;
    if w.Some? { WishPlaced(r, nets, f, taken, ranges, rows, v, vm.nics[i].index); }
  }

  /** Every manual or stored value is kept: identifiers of the machine's last stored row, and addresses. */
  lemma PlanKeeps(r: Request, overrides: Ranges, taken: Taken, current: seq<VmRow>, v: nat)
    requires ValidRequest(r) && AllValid(r.vms, NetworkMap(r.networks)) && v < |r.vms|
    requires PlanRequest(r, overrides, taken, current).Ok?
    ensures var rows := PlanRequest(r, overrides, taken, current).value;
            && |rows| == |r.vms| && |rows[v].nics| == |r.vms[v].nics|
            && (r.vms[v].vmid.None? ==> forall row :: LastRow(current, r.vms[v].node, row) ==> rows[v].vmid == row.vmid)
            && forall i, ip :: 0 <= i < |r.vms[v].nics| && Stays(r, r.vms[v], current, i, ip) ==>
                 r.vms[v].nics[i].index < |rows[v].nics| && rows[v].nics[r.vms[v].nics[i].index].ip == ip
  {
    var rows, f := PlanParts(r, overrides, taken, current);
    var nets, all, ranges := NetworkMap(r.networks), Taken(taken.ids, taken.ips + Reserved(r.networks)), DEFAULT_PROTECTED + overrides;
    var vm := r.vms[v];
    PlanMeans(r, overrides, taken, current);
    PlacedId(r, nets, current, f, all, ranges, rows, v);
    PinOf(r, nets, current, f, all, ranges, v);
    if vm.vmid.None? { OnlyLastRow(current, vm.node); }
    hide PlanRequest, NetworkMap, Reserved, ValidRequest, Kept, LastRow;
    forall i, ip | 0 <= i < |vm.nics| && Stays(r, vm, current, i, ip)
      ensures vm.nics[i].index < |rows[v].nics| && rows[v].nics[vm.nics[i].index].ip == ip
    {
      StaysExactly(r, vm, current, i);
      KeptAddress(r, nets, current, f, all, ranges, rows, v, i);
    }
  }

  /** The machine's identifier is chosen by hand or stored, not by the plan. */
  ghost predicate IdGiven(vm: VmRequest, current: seq<VmRow>) {
    vm.vmid.Some? || exists k :: 0 <= k < |current| && current[k].node == vm.node
  }

  /** An automatic identifier lies in its window, and everything below it was barred, held by others, given to
      an earlier machine of the plan, or given by hand or store to another. */
  lemma IdsAreLeast(r: Request, overrides: Ranges, taken: Taken, current: seq<VmRow>, v: nat, c: nat)
    requires ValidRequest(r) && AllValid(r.vms, NetworkMap(r.networks)) && v < |r.vms| && !IdGiven(r.vms[v], current)
    requires PlanRequest(r, overrides, taken, current).Ok?
    ensures var rows := PlanRequest(r, overrides, taken, current).value;
            && |rows| == |r.vms| && r.start <= rows[v].vmid <= r.end && rows[v].vmid < r.start + 100000
            && (r.start <= c < rows[v].vmid ==>
                  Barred(c, overrides) || ("", c) in taken.ids
                  || exists u :: 0 <= u < |rows| && rows[u].vmid == c && (u < v || IdGiven(r.vms[u], current)))
  {
    var rows := PlanRequest(r, overrides, taken, current).value;
    PlanLeast(r, overrides, taken, current, v);
    BarredExactly(c, overrides);
    forall u | 0 <= u < |r.vms| ensures PinnedId(r.vms[u], current).Some? <==> IdGiven(r.vms[u], current) {
      PreviousMeans(current, r.vms[u].node);
    }
    hide PlanRequest, NetworkMap, Reserved, ValidRequest, PinnedId, IdGiven, Barred, InRanges;
    if r.start <= c < rows[v].vmid && HoldsId(r, current, rows, v, c) {
      var u :| 0 <= u < |rows| && rows[u].vmid == c && (u < v || PinnedId(r.vms[u], current).Some?);
    }
  }

  /** An automatic address is usable, and everything usable below it was kept free by the request, held by
      others, given to an earlier interface of the plan, or given by hand or store to another. */
  lemma AddressesAreLeast(r: Request, overrides: Ranges, taken: Taken, current: seq<VmRow>, v: nat, i: nat, c: nat)
    requires ValidRequest(r) && AllValid(r.vms, NetworkMap(r.networks)) && v < |r.vms| && i < |r.vms[v].nics|
    requires PlanRequest(r, overrides, taken, current).Ok? && forall ip: Ip :: !Stays(r, r.vms[v], current, i, ip)
    ensures var rows, x := PlanRequest(r, overrides, taken, current).value, r.vms[v].nics[i].index;
            && |rows| == |r.vms| && x < |rows[v].nics|
            && (rows[v].nics[x].subnet.base < c < rows[v].nics[x].ip ==>
                  SetAside(r.networks, rows[v].nics[x].bridge, c) || (rows[v].nics[x].bridge, c) in taken.ips
                  || exists u, j :: 0 <= u < |rows| && 0 <= j < |rows[u].nics|
                       && rows[u].nics[j].bridge == rows[v].nics[x].bridge && rows[u].nics[j].ip == c
                       && (u < v || (u == v && j < x) || GivenAt(r, current, u, j)))
  {
    var rows, x, nets := PlanRequest(r, overrides, taken, current).value, r.vms[v].nics[i].index, NetworkMap(r.networks);
    NotPinned(r, current, v, i);
    InPlace(r, overrides, taken, current, v, i);
    hide PlanRequest, NetworkMap, Reserved, ValidRequest, SetAside, Stays, PinnedIp, PinnedId, InRanges, GivenAt, HoldsIp, Indexed, ContiguousNics;
    PlanLeast(r, overrides, taken, current, v);
    SetAsideExactly(r.networks, rows[v].nics[x].bridge, c);
    if HoldsIp(r, nets, current, rows, v, x, (rows[v].nics[x].bridge, c)) { HolderIs(r, current, rows, v, x, c); }
  }

  lemma HolderIs(r: Request, current: seq<VmRow>, rows: seq<VmRow>, v: nat, x: nat, c: nat)
    requires ValidRequest(r) && AllValid(r.vms, NetworkMap(r.networks)) && v < |r.vms| == |rows| && x < |rows[v].nics|
    requires HoldsIp(r, NetworkMap(r.networks), current, rows, v, x, (rows[v].nics[x].bridge, c))
    ensures exists u, j :: 0 <= u < |rows| && 0 <= j < |rows[u].nics|
                  && rows[u].nics[j].bridge == rows[v].nics[x].bridge && rows[u].nics[j].ip == c
                  && (u < v || (u == v && j < x) || GivenAt(r, current, u, j))
  {
    var nets := NetworkMap(r.networks);
    var u, j :| 0 <= u < |rows| && 0 <= j < |rows[u].nics| == |r.vms[u].nics|
                && (rows[u].nics[j].bridge, rows[u].nics[j].ip) == (rows[v].nics[x].bridge, c)
                && (u < v || (u == v && j < x) || PinnedIp(r.vms[u], nets, current, j));
    hide NetworkMap, ValidRequest, PinnedIp, GivenAt, HoldsIp;
    if PinnedIp(r.vms[u], nets, current, j) { PinnedIsGiven(r, current, u, j); }
  }

  lemma NotPinned(r: Request, current: seq<VmRow>, v: nat, i: nat)
    requires ValidRequest(r) && AllValid(r.vms, NetworkMap(r.networks)) && v < |r.vms| && i < |r.vms[v].nics|
    requires forall ip: Ip :: !Stays(r, r.vms[v], current, i, ip)
    ensures r.vms[v].nics[i].index < |r.vms[v].nics| && !PinnedIp(r.vms[v], NetworkMap(r.networks), current, r.vms[v].nics[i].index)
  {
    StaysExactly(r, r.vms[v], current, i);
    PositionOf(r.vms[v].nics, i);
    hide Stays, NetworkMap, Kept;
    assert Nic(r.vms[v], r.vms[v].nics[i].index) == r.vms[v].nics[i];
  }

  lemma InPlace(r: Request, overrides: Ranges, taken: Taken, current: seq<VmRow>, v: nat, i: nat)
    requires ValidRequest(r) && AllValid(r.vms, NetworkMap(r.networks)) && v < |r.vms| && i < |r.vms[v].nics|
    requires PlanRequest(r, overrides, taken, current).Ok?
    ensures var rows := PlanRequest(r, overrides, taken, current).value;
            |rows| == |r.vms| && r.vms[v].nics[i].index < |rows[v].nics| == |r.vms[v].nics|
  {
    hide PlanRequest, ValidRequest, NetworkMap, Barred;
    PlanMeans(r, overrides, taken, current);
    assert Answers(r, taken, r.vms[v], i, PlanRequest(r, overrides, taken, current).value[v].nics);
  }

  /** The interface with this index was given its address by hand or store. */
  ghost predicate GivenAt(r: Request, current: seq<VmRow>, u: nat, j: nat)
    requires u < |r.vms| && Ready(r.vms[u], NetworkMap(r.networks))
  {
    exists i, ip :: 0 <= i < |r.vms[u].nics| && r.vms[u].nics[i].index == j && Stays(r, r.vms[u], current, i, ip)
  }

  lemma PinnedIsGiven(r: Request, current: seq<VmRow>, u: nat, j: nat)
    requires ValidRequest(r) && AllValid(r.vms, NetworkMap(r.networks)) && u < |r.vms| && j < |r.vms[u].nics|
    requires PinnedIp(r.vms[u], NetworkMap(r.networks), current, j)
    ensures GivenAt(r, current, u, j)
  {
    var i := Position(r.vms[u].nics, j);
    assert Nic(r.vms[u], j) == r.vms[u].nics[i] && r.vms[u].nics[i].index == j;
    StaysExactly(r, r.vms[u], current, i);
    hide Stays, Kept;
    var w := WantedIp(r.vms[u].nics[i], Kept(r.vms[u], NetworkMap(r.networks), current), NetworkMap(r.networks)[r.vms[u].nics[i].network]);
    assert Stays(r, r.vms[u], current, i, w.value);
  }

  // ---------------------------------------------------------------- exhaustion

  /** Some machine of the request has this identifier by hand, or from its last stored row. */
  ghost predicate IdIsGiven(r: Request, current: seq<VmRow>, c: nat) {
    exists u :: 0 <= u < |r.vms| && (r.vms[u].vmid == Some(c)
      || (r.vms[u].vmid.None? && exists row :: LastRow(current, r.vms[u].node, row) && row.vmid == c))
  }

  /** Some interface of the request has this address on this bridge by hand or store. */
  ghost predicate IpIsGiven(r: Request, current: seq<VmRow>, bridge: string, c: Ip) {
    exists u, i :: 0 <= u < |r.vms| && 0 <= i < |r.vms[u].nics| && Ready(r.vms[u], NetworkMap(r.networks))
                   && Stays(r, r.vms[u], current, i, c)
                   && exists n :: n in r.networks && n.id == r.vms[u].nics[i].network && n.bridge == bridge
  }

  /** No identifier of the window is left for machine v, after these rows of the plan. */
  ghost predicate NoIdLeft(r: Request, overrides: Ranges, taken: Taken, current: seq<VmRow>, earlier: seq<VmRow>) {
    forall c :: r.start <= c <= r.end && c < r.start + 100000 ==>
      Barred(c, overrides) || ("", c) in taken.ids || IdIsGiven(r, current, c)
      || exists u :: 0 <= u < |earlier| && earlier[u].vmid == c
  }

  /** No address of the network's window is left, after these rows and these addresses of the same machine. */
  ghost predicate NoIpLeft(r: Request, taken: Taken, current: seq<VmRow>, earlier: seq<VmRow>, n: Network, given: set<(string, nat)>) {
    forall c: Ip :: n.subnet.base < c < n.subnet.base + Size(n.subnet) - 1 && c <= n.subnet.base + 4096 ==>
      SetAside(r.networks, n.bridge, c) || (n.bridge, c) in taken.ips || IpIsGiven(r, current, n.bridge, c)
      || (n.bridge, c) in given
      || exists u, j :: 0 <= u < |earlier| && 0 <= j < |earlier[u].nics| && earlier[u].nics[j].bridge == n.bridge && earlier[u].nics[j].ip == c
  }

  lemma WishedIdIsGiven(r: Request, nets: Networks, current: seq<VmRow>, f: Fixed, taken: Taken, ranges: Ranges, c: nat)
    requires FixedAll(r.vms, nets, current, taken, ranges, f) && ("", c) in f.claimedIds
    ensures IdIsGiven(r, current, c)
  {
    ClaimsAreWishes(r, nets, current, f, taken, ranges);
    var u :| 0 <= u < |f.ids| && f.ids[u] == Some(c);
    PinOf(r, nets, current, f, taken, ranges, u);
    PreviousMeans(current, r.vms[u].node);
    hide FixedAll, AllValid, Previous;
  }

  lemma WishedIpIsGiven(r: Request, current: seq<VmRow>, f: Fixed, taken: Taken, ranges: Ranges, bridge: string, c: Ip)
    requires ValidRequest(r) && FixedAll(r.vms, NetworkMap(r.networks), current, taken, ranges, f) && (bridge, c) in f.claimedIps
    ensures IpIsGiven(r, current, bridge, c)
  {
    var nets := NetworkMap(r.networks);
    ClaimsAreWishes(r, nets, current, f, taken, ranges);
    var u := WishIpsFrom(r.vms, nets, f.ips, (bridge, c));
    assert FixedVm(r.vms[u], nets, current, taken, ranges, f.ids[u], f.ips[u]);
    ReadyAt(r, u);
    hide FixedAll, AllValid, NetworkMap, ValidRequest, WishIps;
    WishIsGiven(r, current, f.ips[u], u, bridge, c);
  }

  lemma WishIsGiven(r: Request, current: seq<VmRow>, ips: map<nat, Ip>, u: nat, bridge: string, c: Ip)
    requires ValidRequest(r) && u < |r.vms| && Indexed(r.vms[u], NetworkMap(r.networks)) && Ready(r.vms[u], NetworkMap(r.networks))
    requires r.vms[u].nics != [] && PinsWanted(r.vms[u], Kept(r.vms[u], NetworkMap(r.networks), current), NetworkMap(r.networks), ips)
    requires (bridge, c) in Wishes(IpSlots(r.vms[u], NetworkMap(r.networks), ips))
    ensures IpIsGiven(r, current, bridge, c)
  {
    var vm, nets := r.vms[u], NetworkMap(r.networks);
    var j := WishAt(vm, nets, ips, bridge, c);
    var i := Position(vm.nics, j);
    assert Nic(vm, j) == vm.nics[i];
    assert WantedIp(vm.nics[i], Kept(vm, nets, current), nets[vm.nics[i].network]) == Some(c);
    hide PinsWanted, IpSlots, Kept, Wishes, Indexed, WantedIp;
    NetworkOf(r, vm.nics[i].network);
    hide NetworkMap;
    StaysExactly(r, vm, current, i);
    hide Stays, ValidRequest;
    assert Stays(r, vm, current, i, c);
  }

  lemma WishAt(vm: VmRequest, nets: Networks, ips: map<nat, Ip>, bridge: string, c: Ip) returns (j: nat)
    requires Indexed(vm, nets) && (bridge, c) in Wishes(IpSlots(vm, nets, ips))
    ensures j < |vm.nics| && IpSlots(vm, nets, ips)[j].want == Some(c) && nets[Nic(vm, j).network].bridge == bridge
  {
    var slots := IpSlots(vm, nets, ips);
    j :| 0 <= j < |slots| && slots[j].want.Some? && (slots[j].pool, slots[j].want.value) == (bridge, c);
  }

  /** When the plan reports exhaustion, then for its own earlier rows the next machine has no identifier left in
      its whole window, or one of its interfaces no address in its network's whole window. */
  lemma ExhaustedMeans(r: Request, overrides: Ranges, taken: Taken, current: seq<VmRow>)
      returns (f: Fixed, earlier: seq<VmRow>, j: nat, ips: seq<nat>)
    requires ValidRequest(r) && AllValid(r.vms, NetworkMap(r.networks))
    requires PlanRequest(r, overrides, taken, current) == Err(PoolExhausted)
    ensures var all := Taken(taken.ids, taken.ips + Reserved(r.networks));
            && FixVms(r.vms, current, NetworkMap(r.networks), all, DEFAULT_PROTECTED + overrides, |r.vms|) == Ok(f)
            && |earlier| < |r.vms| && Placing(r, NetworkMap(r.networks), f, all, DEFAULT_PROTECTED + overrides, earlier)
    ensures var vm := r.vms[|earlier|];
            || (vm.vmid.None? && NoIdLeft(r, overrides, taken, current, earlier))
            || (j < |vm.nics| && |ips| == j && Indexed(vm, NetworkMap(r.networks)) && Nic(vm, j).ip.None?
                && var n := NetworkMap(r.networks)[Nic(vm, j).network];
                   NoIpLeft(r, taken, current, earlier, n, set k | 0 <= k < j :: (NetworkMap(r.networks)[Nic(vm, k).network].bridge, ips[k])))
  {
    f, earlier, j, ips := PlanExhausted(r, overrides, taken, current);
    var nets, all, ranges := NetworkMap(r.networks), Taken(taken.ids, taken.ips + Reserved(r.networks)), DEFAULT_PROTECTED + overrides;
    ReadyAt(r, |earlier|);
    ClaimsAreWishes(r, nets, current, f, all, ranges);
    hide PlanRequest, FixVms, Placing, FixedAll, ValidRequest, NetworkMap, Reserved, AllValid;
    if Full(IdSlot(r, f.ids[|earlier|]), all.ids + f.claimedIds + Ids(earlier), ranges) {
      FullIds(r, overrides, taken, current, f, earlier);
    } else {
      FullIps(r, overrides, taken, current, f, earlier, j, ips);
    }
  }

  lemma FullIds(r: Request, overrides: Ranges, taken: Taken, current: seq<VmRow>, f: Fixed, earlier: seq<VmRow>)
    requires ValidRequest(r) && |earlier| < |r.vms| == |f.ids|
    requires FixedAll(r.vms, NetworkMap(r.networks), current, Taken(taken.ids, taken.ips + Reserved(r.networks)), DEFAULT_PROTECTED + overrides, f)
    requires Full(IdSlot(r, f.ids[|earlier|]), taken.ids + f.claimedIds + Ids(earlier), DEFAULT_PROTECTED + overrides)
    ensures r.vms[|earlier|].vmid.None? && NoIdLeft(r, overrides, taken, current, earlier)
  {
    hide FixedAll, NetworkMap, Reserved, ValidRequest, Barred, IdIsGiven, Ids, IdSlot, Full;
    FullIdsEach(r, overrides, taken, current, f, earlier);
  }

  lemma FullIdsEach(r: Request, overrides: Ranges, taken: Taken, current: seq<VmRow>, f: Fixed, earlier: seq<VmRow>)
    requires ValidRequest(r) && |earlier| < |r.vms| == |f.ids|
    requires FixedAll(r.vms, NetworkMap(r.networks), current, Taken(taken.ids, taken.ips + Reserved(r.networks)), DEFAULT_PROTECTED + overrides, f)
    requires Full(IdSlot(r, f.ids[|earlier|]), taken.ids + f.claimedIds + Ids(earlier), DEFAULT_PROTECTED + overrides)
    ensures r.vms[|earlier|].vmid.None?
    ensures forall c :: r.start <= c <= r.end && c < r.start + 100000 ==>
              Barred(c, overrides) || ("", c) in taken.ids || IdIsGiven(r, current, c)
              || exists u :: 0 <= u < |earlier| && earlier[u].vmid == c
  {
    var all, ranges := Taken(taken.ids, taken.ips + Reserved(r.networks)), DEFAULT_PROTECTED + overrides;
    hide FixedAll, NetworkMap, Reserved, ValidRequest, Barred, IdIsGiven, Ids, Free, Previous;
    PinOf(r, NetworkMap(r.networks), current, f, all, ranges, |earlier|);
    assert r.vms[|earlier|].vmid.None?;
    hide *;
    forall c | r.start <= c <= r.end && c < r.start + 100000
      ensures Barred(c, overrides) || ("", c) in taken.ids || IdIsGiven(r, current, c)
           || exists u :: 0 <= u < |earlier| && earlier[u].vmid == c
    {
      InIdWindow(r, f.ids[|earlier|], c);
      FullAt(IdSlot(r, f.ids[|earlier|]), taken.ids + f.claimedIds + Ids(earlier), ranges, c);
      OneId(r, overrides, taken, current, f, earlier, c);
    }
  }

  lemma InIdWindow(r: Request, want: Option<nat>, c: nat)
    ensures IdSlot(r, want).pool == ""
    ensures r.start <= c <= r.end && c < r.start + 100000 ==> IdSlot(r, want).lo <= c < IdSlot(r, want).hi
  {}

  lemma FullAt(s: Slot, used: Claims, barred: Ranges, c: nat)
    requires Full(s, used, barred) && s.lo <= c < s.hi
    ensures !Free(s.pool, c, used, barred)
  {}

  lemma OneId(r: Request, overrides: Ranges, taken: Taken, current: seq<VmRow>, f: Fixed, earlier: seq<VmRow>, c: nat)
    requires FixedAll(r.vms, NetworkMap(r.networks), current, Taken(taken.ids, taken.ips + Reserved(r.networks)), DEFAULT_PROTECTED + overrides, f)
    requires !Free("", c, taken.ids + f.claimedIds + Ids(earlier), DEFAULT_PROTECTED + overrides)
    ensures Barred(c, overrides) || ("", c) in taken.ids || IdIsGiven(r, current, c)
         || exists u :: 0 <= u < |earlier| && earlier[u].vmid == c
  {
    hide FixedAll, NetworkMap, Reserved, Barred, InRanges, IdIsGiven;
    BarredExactly(c, overrides);
    if ("", c) in f.claimedIds {
      WishedIdIsGiven(r, NetworkMap(r.networks), current, f, Taken(taken.ids, taken.ips + Reserved(r.networks)), DEFAULT_PROTECTED + overrides, c);
    }
  }

  lemma FullIps(r: Request, overrides: Ranges, taken: Taken, current: seq<VmRow>, f: Fixed, earlier: seq<VmRow>, j: nat, ips: seq<nat>)
    requires ValidRequest(r) && |earlier| < |r.vms| == |f.ids| == |f.ips| && j == |ips| < |r.vms[|earlier|].nics|
    requires Indexed(r.vms[|earlier|], NetworkMap(r.networks))
    requires FixedAll(r.vms, NetworkMap(r.networks), current, Taken(taken.ids, taken.ips + Reserved(r.networks)), DEFAULT_PROTECTED + overrides, f)
    requires var slots := IpSlots(r.vms[|earlier|], NetworkMap(r.networks), f.ips[|earlier|]);
             Full(slots[j], taken.ips + Reserved(r.networks) + f.claimedIps + Ips(earlier) + Claimed(slots[..j], ips), [])
    ensures var vm := r.vms[|earlier|];
            && Nic(vm, j).ip.None?
            && var n := NetworkMap(r.networks)[Nic(vm, j).network];
               NoIpLeft(r, taken, current, earlier, n, set k | 0 <= k < j :: (NetworkMap(r.networks)[Nic(vm, k).network].bridge, ips[k]))
  {
    var vm, nets := r.vms[|earlier|], NetworkMap(r.networks);
    var all, ranges := Taken(taken.ids, taken.ips + Reserved(r.networks)), DEFAULT_PROTECTED + overrides;
    var slots, n := IpSlots(vm, nets, f.ips[|earlier|]), nets[Nic(vm, j).network];
    assert slots[j].want.None? && |slots| == |vm.nics|;
    NotWished(r, nets, current, f, all, ranges, |earlier|, j);
    ClaimedHere(vm, nets, f.ips[|earlier|], j, ips);
    var given := set k | 0 <= k < j :: (nets[Nic(vm, k).network].bridge, ips[k]);
    EveryIp(r, overrides, taken, current, f, earlier, slots[j], n, Claimed(slots[..j], ips), given);
    hide FixedAll, NetworkMap, Reserved, ValidRequest, Ips, IpSlots, Full, Claimed, Indexed, NoIpLeft;
  }

  lemma EveryIp(r: Request, overrides: Ranges, taken: Taken, current: seq<VmRow>, f: Fixed, earlier: seq<VmRow>,
                slot: Slot, n: Network, here: Claims, given: set<(string, nat)>)
    requires ValidRequest(r) && here <= given && slot == IpSlot(n, None)
    requires FixedAll(r.vms, NetworkMap(r.networks), current, Taken(taken.ids, taken.ips + Reserved(r.networks)), DEFAULT_PROTECTED + overrides, f)
    requires Full(slot, taken.ips + Reserved(r.networks) + f.claimedIps + Ips(earlier) + here, [])
    ensures NoIpLeft(r, taken, current, earlier, n, given)
  {
    hide FixedAll, NetworkMap, Reserved, ValidRequest, SetAside, IpIsGiven, Ips, Full, Free, Size;
    forall c: Ip | n.subnet.base < c < n.subnet.base + Size(n.subnet) - 1 && c <= n.subnet.base + 4096
      ensures SetAside(r.networks, n.bridge, c) || (n.bridge, c) in taken.ips || IpIsGiven(r, current, n.bridge, c) || (n.bridge, c) in given
           || exists u, j :: 0 <= u < |earlier| && 0 <= j < |earlier[u].nics| && earlier[u].nics[j].bridge == n.bridge && earlier[u].nics[j].ip == c
    {
      InIpWindow(n, c);
      FullAt(slot, taken.ips + Reserved(r.networks) + f.claimedIps + Ips(earlier) + here, [], c);
      OneIp(r, overrides, taken, current, f, earlier, n.bridge, c, here, given);
    }
  }

  lemma InIpWindow(n: Network, c: Ip)
    requires n.subnet.base < c < n.subnet.base + Size(n.subnet) - 1 && c <= n.subnet.base + 4096
    ensures IpSlot(n, None).lo <= c < IpSlot(n, None).hi && IpSlot(n, None).pool == n.bridge
  {}

  /** The stuck interface is automatic. */
  lemma NotWished(r: Request, nets: Networks, current: seq<VmRow>, f: Fixed, taken: Taken, ranges: Ranges, v: nat, j: nat)
    requires FixedAll(r.vms, nets, current, taken, ranges, f) && v < |r.vms| == |f.ids| == |f.ips| && Indexed(r.vms[v], nets)
    requires j < |r.vms[v].nics| && IpSlots(r.vms[v], nets, f.ips[v])[j].want.None?
    ensures Nic(r.vms[v], j).ip.None? && IpSlots(r.vms[v], nets, f.ips[v])[j] == IpSlot(nets[Nic(r.vms[v], j).network], None)
  {
    assert FixedVm(r.vms[v], nets, current, taken, ranges, f.ids[v], f.ips[v]);
    hide FixedAll, Wishes, DistinctWishes, Kept;
  }

  lemma ClaimedHere(vm: VmRequest, nets: Networks, wants: map<nat, Ip>, j: nat, ips: seq<nat>)
    requires Indexed(vm, nets) && j == |ips| < |vm.nics|
    ensures Claimed(IpSlots(vm, nets, wants)[..j], ips) <= set k | 0 <= k < j :: (nets[Nic(vm, k).network].bridge, ips[k])
  {}

  lemma OneIp(r: Request, overrides: Ranges, taken: Taken, current: seq<VmRow>, f: Fixed, earlier: seq<VmRow>,
              bridge: string, c: Ip, here: Claims, given: set<(string, nat)>)
    requires ValidRequest(r) && here <= given
    requires FixedAll(r.vms, NetworkMap(r.networks), current, Taken(taken.ids, taken.ips + Reserved(r.networks)), DEFAULT_PROTECTED + overrides, f)
    requires !Free(bridge, c, taken.ips + Reserved(r.networks) + f.claimedIps + Ips(earlier) + here, [])
    ensures SetAside(r.networks, bridge, c) || (bridge, c) in taken.ips || IpIsGiven(r, current, bridge, c) || (bridge, c) in given
         || exists u, j :: 0 <= u < |earlier| && 0 <= j < |earlier[u].nics| && earlier[u].nics[j].bridge == bridge && earlier[u].nics[j].ip == c
  {
    hide FixedAll, NetworkMap, Reserved, SetAside, IpIsGiven, ValidRequest;
    SetAsideExactly(r.networks, bridge, c);
    if (bridge, c) in f.claimedIps {
      WishedIpIsGiven(r, current, f, Taken(taken.ids, taken.ips + Reserved(r.networks)), DEFAULT_PROTECTED + overrides, bridge, c);
    }
  }
}
