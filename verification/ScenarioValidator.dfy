/** The validator as it runs, check by check, and the inventory it binds to the machines. */
module ScenarioValidator {
  import opened Wrappers
  import opened VmAllocationModel
  import opened ScenarioModel

  // ---------------------------------------------------------------- identities

  lemma {:induction false} ExpectedGrows(teams: seq<Team>, scopes: Scopes, k: nat)
    requires k <= |scopes|
    ensures Expected(teams, scopes[..k]) <= Expected(teams, scopes)
    decreases |scopes|
  {
    hide Replicas;
    if k < |scopes| {
      ExpectedGrows(teams, scopes[..|scopes| - 1], k);
      assert scopes[..|scopes| - 1][..k] == scopes[..k];
    } else {
      assert scopes[..k] == scopes;
    }
  }

  lemma SubsetSize<T>(a: set<T>, b: set<T>)
    requires a <= b
    ensures |a| <= |b|
  {
    assert b == a + (b - a);
  }

  /** The roster expansion, refused for an empty cohort or beyond the limit. */
  method Expand(teams: seq<Team>, scopes: Scopes, limit: nat) returns (r: Option<set<Identity>>)
    ensures r.Some? <==> (forall i :: 0 <= i < |scopes| ==> Cohorts(teams, scopes[i].1) != {}) && |Expected(teams, scopes)| <= limit
    ensures r.Some? ==> r.value == Expected(teams, scopes)
  {
    hide Cohorts;
    var expected: set<Identity> := {};
    for k := 0 to |scopes|
      invariant expected == Expected(teams, scopes[..k])
      invariant forall i :: 0 <= i < k ==> Cohorts(teams, scopes[i].1) != {}
      invariant |expected| <= limit
    {
      if Cohorts(teams, scopes[k].1) == {} { return None; }
      assert scopes[..k + 1][..k] == scopes[..k];
      expected := expected + Replicas(teams, scopes[k]);
      if |expected| > limit {
        ExpectedGrows(teams, scopes, k + 1);
        SubsetSize(expected, Expected(teams, scopes));
        return None;
      }
    }
    assert scopes[..|scopes|] == scopes;
    return Some(expected);
  }

  method CheckIdentities(teams: seq<Team>, scopes: Scopes, ids: seq<Identity>, limit: nat) returns (ok: bool)
    ensures ok <==> IdentitiesOk(teams, scopes, ids, limit)
  {
    hide Cohorts;
    var expected := Expand(teams, scopes, limit);
    if expected.None? { return false; }
    var actual: set<Identity> := {};
    for i := 0 to |ids|
      invariant actual == set k | 0 <= k < i :: ids[k]
    {
      actual := actual + {ids[i]};
    }
    assert actual == IdSet(ids);
    return |actual| == |ids| && actual == expected.value;
  }

  // ---------------------------------------------------------------- interfaces

  method CheckNic(d: Document, instance: Instance, link: NicLink, literal: Nic) returns (ok: bool)
    ensures ok <==> NicOk(d, instance, link, literal)
  {
    var found := NetworkByKey(d.networks, link.network);
    if found.None? { return false; }
    var n := found.value;
    if !Reaches(n.id, instance.id) { return false; }
    if literal.bridge != n.vnet || literal.prefix != Some(n.subnet.prefix) { return false; }
    if !Usable(literal.ip, n.subnet) || Some(literal.ip) == n.gateway { return false; }
    return literal.gateway == if link.index == 0 then n.gateway else None;
  }

  method CheckInstance(d: Document, vms: seq<Vm>, i: nat) returns (ok: bool)
    requires i < |d.instances|
    ensures ok <==> InstanceOk(d, vms, i)
  {
    hide NicOk;
    var instance := d.instances[i];
    var vm := VmById(vms, instance.vmid);
    if vm.None? || vm.value.name != instance.hostname || |instance.nics| != |vm.value.nics| { return false; }
    var keys: set<string> := {};
    for k := 0 to |instance.nics|
      invariant keys == set m | 0 <= m < k :: instance.nics[m].key
      invariant forall m :: 0 <= m < k ==> instance.nics[m].index == m
      invariant forall m, n :: 0 <= m < n < k ==> instance.nics[m].key != instance.nics[n].key
    {
      if instance.nics[k].index != k { return false; }
      if instance.nics[k].key in keys { return false; }
      keys := keys + {instance.nics[k].key};
    }
    for k := 0 to |instance.nics|
      invariant forall m :: 0 <= m < k ==> NicOk(d, instance, instance.nics[m], vm.value.nics[m])
    {
      var fine := CheckNic(d, instance, instance.nics[k], vm.value.nics[k]);
      if !fine { return false; }
    }
    return true;
  }

  /** All instances in turn, remembering for each source the links its first replica has. */
  method CheckInstances(d: Document, vms: seq<Vm>) returns (ok: bool)
    ensures ok <==> (forall i :: 0 <= i < |d.instances| ==> InstanceOk(d, vms, i)) && ReplicasAlike(d)
  {
    hide InstanceOk, SourceLinks;
    var sourceNics: map<string, seq<(nat, string, string)>> := map[];
    for i := 0 to |d.instances|
      invariant forall k :: 0 <= k < i ==> InstanceOk(d, vms, k)
      invariant forall k :: 0 <= k < i ==> d.instances[k].id.source in sourceNics && sourceNics[d.instances[k].id.source] == SourceLinks(d, k)
      invariant forall s :: s in sourceNics ==> exists k :: 0 <= k < i && d.instances[k].id.source == s
    {
      var fine := CheckInstance(d, vms, i);
      if !fine { return false; }
      var source, links := d.instances[i].id.source, SourceLinks(d, i);
      if source !in sourceNics {
        sourceNics := sourceNics[source := links];
      } else if sourceNics[source] != links {
        var k :| 0 <= k < i && d.instances[k].id.source == source;
        assert SourceLinks(d, k) != SourceLinks(d, i);
        return false;
      }
    }
    return true;
  }

  /** The whole check of a replicated scenario, its inventory apart. */
  method Validate(d: Document, vms: seq<Vm>, plan: NetworkPlan) returns (ok: bool)
    ensures ok <==> Accepted(d, vms, plan)
  {
    hide RosterOk, IdentitiesOk, KeysOk, ManifestOk, MachinesOk, NetworksOk, PlanOk, InstanceOk, ReplicasAlike, TotalNics;
    if !RosterOk(d) { return false; }
    var fine := CheckIdentities(d.teams, d.nodeScopes, InstanceIds(d), 64);
    if !fine { return false; }
    fine := CheckIdentities(d.teams, d.networkScopes, NetworkIds(d), 32);
    if !fine { return false; }
    if !KeysOk(d) || TotalNics(d.instances) > 256 { return false; }
    if !ManifestOk(vms) || !MachinesOk(d, vms) || !NetworksOk(d) || !PlanOk(d, plan) { return false; }
    ok := CheckInstances(d, vms);
  }

  // ---------------------------------------------------------------- inventory

  datatype HostVars = HostVars(address: Option<Ip>, user: Option<string>)
  type Hosts = seq<(string, HostVars)>
  datatype Group = Group(hosts: Hosts, children: seq<(string, Group)>)
  type Inventory = seq<(string, Group)>

  const MAX_DEPTH: nat := 16

  /** Every host of a group, its own first, then its children's. */
  function HostsOf(g: Group): Hosts
    decreases g, 1
  {
    g.hosts + HostsOfAll(g, |g.children|)
  }

  function HostsOfAll(g: Group, k: nat): Hosts
    requires k <= |g.children|
    decreases g, 0, k
  {
    if k == 0 then [] else HostsOfAll(g, k - 1) + HostsOf(g.children[k - 1].1)
  }

  predicate Shallow(g: Group, depth: nat) {
    depth <= MAX_DEPTH && forall i | 0 <= i < |g.children| :: Shallow(g.children[i].1, depth + 1)
  }

  ghost predicate Literal(hosts: Hosts, limit: nat) {
    |hosts| <= limit && forall i, j :: 0 <= i < j < |hosts| ==> hosts[i].0 != hosts[j].0
  }

  /** One name twice, or one host too many, spoils every longer list. */
  lemma NeverLiteral(now: Hosts, e: (string, HostVars), rest: Hosts, limit: nat)
    requires e.0 in Names(now) || |now| >= limit
    ensures !Literal(now + [e] + rest, limit)
  {
    var all := now + [e] + rest;
    assert all[|now|] == e;
    if e.0 in Names(now) {
      var k :| 0 <= k < |now| && now[k].0 == e.0;
      assert all[k] == now[k];
    }
  }

  function Names(hosts: Hosts): set<string> { set k | 0 <= k < |hosts| :: hosts[k].0 }

  lemma LiteralSnoc(now: Hosts, e: (string, HostVars), limit: nat)
    requires Literal(now, limit) && e.0 !in Names(now) && |now| < limit
    ensures Literal(now + [e], limit)
  {
    assert forall k :: 0 <= k < |now| ==> now[k].0 in Names(now);
  }

  /** Add hosts one by one; a second definition of a name, or one host too many, is refused. */
  method AddHosts(found: Hosts, more: Hosts, limit: nat) returns (r: Option<Hosts>)
    requires Literal(found, limit)
    ensures r.Some? <==> Literal(found + more, limit)
    ensures r.Some? ==> r.value == found + more
  {
    hide Literal;
    var now := found;
    assert found + more[..0] == found;
    for i := 0 to |more|
      invariant now == found + more[..i] && Literal(now, limit)
    {
      assert found + more == now + [more[i]] + more[i + 1..];
      if more[i].0 in Names(now) || |now| >= limit {
        NeverLiteral(now, more[i], more[i + 1..], limit);
        return None;
      }
      LiteralSnoc(now, more[i], limit);
      assert now + [more[i]] == found + more[..i + 1];
      now := now + [more[i]];
    }
    assert more[..|more|] == more;
    return Some(now);
  }

  lemma LiteralPrefix(a: Hosts, b: Hosts, limit: nat)
    requires !Literal(a, limit)
    ensures !Literal(a + b, limit)
  {
    assert forall i :: 0 <= i < |a| ==> (a + b)[i] == a[i];
  }

  /** Visit a bounded group: its hosts, then every child one level deeper. */
  method Visit(g: Group, depth: nat, found: Hosts, limit: nat) returns (r: Option<Hosts>)
    requires Literal(found, limit)
    ensures r.Some? <==> Shallow(g, depth) && Literal(found + HostsOf(g), limit)
    ensures r.Some? ==> r.value == found + HostsOf(g)
    decreases g
  {
    hide Literal;
    if depth > MAX_DEPTH { return None; }
    assert found + HostsOf(g) == (found + g.hosts) + HostsOfAll(g, |g.children|);
    var now := AddHosts(found, g.hosts, limit);
    if now.None? {
      LiteralPrefix(found + g.hosts, HostsOfAll(g, |g.children|), limit);
      return None;
    }
    r := VisitChildren(g, depth, now.value, limit);
  }

  method VisitChildren(g: Group, depth: nat, found: Hosts, limit: nat) returns (r: Option<Hosts>)
    requires Literal(found, limit) && depth <= MAX_DEPTH
    ensures r.Some? <==> Shallow(g, depth) && Literal(found + HostsOfAll(g, |g.children|), limit)
    ensures r.Some? ==> r.value == found + HostsOfAll(g, |g.children|)
    decreases g, 0
  {
    hide Literal, HostsOf;
    var now := found;
    for k := 0 to |g.children|
      invariant now == found + HostsOfAll(g, k) && Literal(now, limit)
      invariant forall i :: 0 <= i < k ==> Shallow(g.children[i].1, depth + 1)
    {
      var next := Visit(g.children[k].1, depth + 1, now, limit);
      assert found + HostsOfAll(g, k + 1) == now + HostsOf(g.children[k].1);
      if next.None? {
        if !Literal(found + HostsOfAll(g, k + 1), limit) { TooManyLater(g, found, k + 1, |g.children|, limit); }
        return None;
      }
      now := next.value;
    }
    return Some(now);
  }

  lemma {:induction false} TooManyLater(g: Group, found: Hosts, k: nat, n: nat, limit: nat)
    requires k <= n <= |g.children| && !Literal(found + HostsOfAll(g, k), limit)
    ensures !Literal(found + HostsOfAll(g, n), limit)
  {
    hide Literal, HostsOf;
    if k < n {
      TooManyLater(g, found, k, n - 1, limit);
      LiteralPrefix(found + HostsOfAll(g, n - 1), HostsOf(g.children[n - 1].1), limit);
      assert found + HostsOfAll(g, n) == found + HostsOfAll(g, n - 1) + HostsOf(g.children[n - 1].1);
    }
  }

  // ---------------------------------------------------------------- machines in the inventory

  const CONTROL: set<string> := {"r42-proxmox", "r42-proxmox-cli"}

  function Child(groups: seq<(string, Group)>, name: string): Option<Group> {
    if groups == [] then None else if groups[0].0 == name then Some(groups[0].1) else Child(groups[1..], name)
  }

  function Guests(inventory: Group): Hosts {
    var all := Child(inventory.children, "all");
    if all.None? then [] else
    var guests := Child(all.value.children, "scenario_guests");
    if guests.None? then [] else guests.value.hosts
  }

  function Lookup(hosts: Hosts, name: string): Option<HostVars> {
    if hosts == [] then None else if hosts[0].0 == name then Some(hosts[0].1) else Lookup(hosts[1..], name)
  }

  function VmNames(vms: seq<Vm>): set<string> { set i | 0 <= i < |vms| :: vms[i].name }

  predicate GuestOk(guests: Hosts, vm: Vm) {
    var host := Lookup(guests, vm.name);
    host.Some? && host.value.address == Some(vm.ip) && (vm.sshUser.Some? ==> host.value.user == vm.sshUser)
  }

  /** The inventory is a set of top-level groups, held here as the children of a root without hosts; a group
      at the top has depth 0. */
  ghost predicate InventoryOk(vms: seq<Vm>, inventory: Group) {
    && (forall i :: 0 <= i < |inventory.children| ==> Shallow(inventory.children[i].1, 0))
    && Literal(HostsOfAll(inventory, |inventory.children|), |vms| + 2)
    && Names(Guests(inventory)) == VmNames(vms)
    && Names(HostsOfAll(inventory, |inventory.children|)) - CONTROL == VmNames(vms)
    && forall i :: 0 <= i < |vms| ==> GuestOk(Guests(inventory), vms[i])
  }

  method ValidateInventory(vms: seq<Vm>, inventory: Group) returns (ok: bool)
    ensures ok <==> InventoryOk(vms, inventory)
  {
    hide HostsOf, GuestOk, Shallow;
    var all: Hosts := [];
    for k := 0 to |inventory.children|
      invariant all == HostsOfAll(inventory, k) && Literal(all, |vms| + 2)
      invariant forall i :: 0 <= i < k ==> Shallow(inventory.children[i].1, 0)
    {
      hide Literal;
      var next := Visit(inventory.children[k].1, 0, all, |vms| + 2);
      assert HostsOfAll(inventory, k + 1) == all + HostsOf(inventory.children[k].1);
      if next.None? {
        if !Literal(HostsOfAll(inventory, k + 1), |vms| + 2) {
          assert [] + HostsOfAll(inventory, k + 1) == HostsOfAll(inventory, k + 1);
          TooManyLater(inventory, [], k + 1, |inventory.children|, |vms| + 2);
          assert [] + HostsOfAll(inventory, |inventory.children|) == HostsOfAll(inventory, |inventory.children|);
        }
        return false;
      }
      all := next.value;
    }
    var guests := Guests(inventory);
    if Names(guests) != VmNames(vms) || Names(all) - CONTROL != VmNames(vms) { return false; }
    for i := 0 to |vms|
      invariant forall k :: 0 <= k < i ==> GuestOk(guests, vms[k])
    {
      if !GuestOk(guests, vms[i]) { return false; }
    }
    return true;
  }

  /** Every machine has exactly one definition in the whole inventory, and nothing else is defined but the
      control hosts. */
  lemma InventoryBindsMachines(vms: seq<Vm>, inventory: Group, v: nat) returns (k: nat)
    requires InventoryOk(vms, inventory) && v < |vms|
    ensures var all := HostsOfAll(inventory, |inventory.children|);
            && k < |all| && all[k].0 == vms[v].name
            && (forall j :: 0 <= j < |all| && j != k ==> all[j].0 != vms[v].name)
            && forall j :: 0 <= j < |all| ==> all[j].0 in CONTROL + VmNames(vms)
  {
    var all := HostsOfAll(inventory, |inventory.children|);
    assert vms[v].name in VmNames(vms);
    assert vms[v].name in Names(all);
    k :| 0 <= k < |all| && all[k].0 == vms[v].name;
    hide HostsOf, GuestOk, Shallow, Guests;
    forall j | 0 <= j < |all| && j != k ensures all[j].0 != vms[v].name {}
    forall j | 0 <= j < |all| ensures all[j].0 in CONTROL + VmNames(vms) { assert all[j].0 in Names(all); }
  }
}
