/** What an accepted scenario is, over the plain fields of the document and the manifests: the agreement said
    again member by member, and proved to be the one the validator checks. */
module ScenarioMeaning {
  import opened Wrappers
  import opened VmAllocationModel
  import opened ScenarioModel

  // ---------------------------------------------------------------- the roster

  /** One of the identities that the authored scope of a source spreads over the roster. */
  ghost predicate OnRoster(teams: seq<Team>, scopes: Scopes, x: Identity) {
    exists s :: s in scopes && s.0 == x.source &&
      match s.1
      case Shared => x.team.None? && x.user.None?
      case PerTeam => x.user.None? && exists t :: t in teams && x.team == Some(t.id)
      case PerUser => exists t, u :: t in teams && u in t.users && x.team == Some(t.id) && x.user == Some(u)
  }

  ghost predicate Populated(teams: seq<Team>, scope: Scope) {
    match scope
    case Shared => true
    case PerTeam => teams != []
    case PerUser => exists t :: t in teams && t.users != []
  }

  lemma CohortExactly(teams: seq<Team>, scope: Scope, team: Option<string>, user: Option<string>)
    ensures (team, user) in Cohorts(teams, scope) <==>
            match scope
            case Shared => team.None? && user.None?
            case PerTeam => user.None? && exists t :: t in teams && team == Some(t.id)
            case PerUser => exists t, u :: t in teams && u in t.users && team == Some(t.id) && user == Some(u)
  {
    match scope
    case Shared =>
    case PerTeam =>
      if user.None? && exists t :: t in teams && team == Some(t.id) {
        var t :| t in teams && team == Some(t.id);
        var i :| 0 <= i < |teams| && teams[i] == t;
      }
    case PerUser =>
      if t, u :| t in teams && u in t.users && team == Some(t.id) && user == Some(u) {
        var i :| 0 <= i < |teams| && teams[i] == t;
        var j :| 0 <= j < |teams[i].users| && teams[i].users[j] == u;
      }
  }

  lemma PopulatedExactly(teams: seq<Team>, scope: Scope)
    ensures Cohorts(teams, scope) != {} <==> Populated(teams, scope)
  {
    match scope
    case Shared =>
    case PerTeam => if teams != [] { CohortExactly(teams, scope, Some(teams[0].id), None); assert teams[0] in teams; }
    case PerUser =>
      if Populated(teams, scope) {
        var t :| t in teams && t.users != [];
        assert t.users[0] in t.users;
        CohortExactly(teams, scope, Some(t.id), Some(t.users[0]));
      }
      if c :| c in Cohorts(teams, scope) {
        CohortExactly(teams, scope, c.0, c.1);
        assert c == (c.0, c.1);
      }
  }

  lemma {:induction false} ExpectedExactly(teams: seq<Team>, scopes: Scopes, x: Identity)
    ensures x in Expected(teams, scopes) <==> OnRoster(teams, scopes, x)
  {
    if scopes != [] {
      var n := |scopes| - 1;
      ExpectedExactly(teams, scopes[..n], x);
      assert scopes == scopes[..n] + [scopes[n]];
      assert forall s :: s in scopes <==> s in scopes[..n] || s == scopes[n];
      CohortExactly(teams, scopes[n].1, x.team, x.user);
      hide Cohorts;
      assert x in Replicas(teams, scopes[n]) <==> x.source == scopes[n].0 && (x.team, x.user) in Cohorts(teams, scopes[n].1);
    }
  }

  /** The declared identities are the roster's, one each, within the limit, and no source is spread over nobody. */
  ghost predicate SpreadExactly(teams: seq<Team>, scopes: Scopes, ids: seq<Identity>, limit: nat) {
    && (forall s :: s in scopes ==> Populated(teams, s.1)) && |ids| <= limit
    && (forall i, j :: 0 <= i < j < |ids| ==> ids[i] != ids[j])
    && (forall x :: x in ids ==> OnRoster(teams, scopes, x)) && (forall x :: OnRoster(teams, scopes, x) ==> x in ids)
  }

  lemma IdSetMore(ids: seq<Identity>)
    requires ids != []
    ensures IdSet(ids) == IdSet(ids[..|ids| - 1]) + {ids[|ids| - 1]}
  {
    var n := |ids| - 1;
    forall x ensures x in IdSet(ids) <==> x in IdSet(ids[..n]) + {ids[n]} {
      if x in IdSet(ids) { var i :| 0 <= i < |ids| && ids[i] == x; if i < n { assert ids[..n][i] == x; } }
      if x in IdSet(ids[..n]) { var i :| 0 <= i < n && ids[..n][i] == x; assert ids[i] == x; }
    }
  }

  lemma {:induction false} DistinctCount(ids: seq<Identity>)
    ensures |IdSet(ids)| <= |ids|
    ensures |IdSet(ids)| == |ids| <==> forall i, j :: 0 <= i < j < |ids| ==> ids[i] != ids[j]
  {
    if ids != [] {
      var n := |ids| - 1;
      DistinctCount(ids[..n]);
      assert ids == ids[..n] + [ids[n]];
      IdSetMore(ids);
      if ids[n] in IdSet(ids[..n]) {
        var i :| 0 <= i < n && ids[..n][i] == ids[n];
        assert ids[i] == ids[n];
      } else {
        assert forall i :: 0 <= i < n ==> ids[..n][i] in IdSet(ids[..n]);
      }
    }
  }

  lemma IdentitiesExactly(teams: seq<Team>, scopes: Scopes, ids: seq<Identity>, limit: nat)
    ensures IdentitiesOk(teams, scopes, ids, limit) <==> SpreadExactly(teams, scopes, ids, limit)
  {
    DistinctCount(ids);
    forall x ensures x in Expected(teams, scopes) <==> OnRoster(teams, scopes, x) { ExpectedExactly(teams, scopes, x); }
    forall s | s in scopes ensures Cohorts(teams, s.1) != {} <==> Populated(teams, s.1) { PopulatedExactly(teams, s.1); }
    hide Cohorts, Expected, OnRoster, Populated;
    assert forall x :: x in IdSet(ids) <==> x in ids;
    assert (forall i | 0 <= i < |scopes| :: Cohorts(teams, scopes[i].1) != {}) <==> forall s :: s in scopes ==> Populated(teams, s.1);
    if SpreadExactly(teams, scopes, ids, limit) { assert IdSet(ids) == Expected(teams, scopes); }
  }

  // ---------------------------------------------------------------- machines

  /** No two interfaces of the manifest have one address on one bridge. */
  ghost predicate NicsApart(vms: seq<Vm>) {
    forall u, i, v, j :: 0 <= u < |vms| && 0 <= i < |vms[u].nics| && 0 <= v < |vms| && 0 <= j < |vms[v].nics| && (u, i) != (v, j) ==>
      vms[u].nics[i].bridge != vms[v].nics[j].bridge || vms[u].nics[i].ip != vms[v].nics[j].ip
  }

  ghost predicate ListApart(nics: seq<Nic>) {
    forall i, j :: 0 <= i < j < |nics| ==> nics[i].bridge != nics[j].bridge || nics[i].ip != nics[j].ip
  }

  ghost predicate CrossApart(a: seq<Nic>, b: seq<Nic>) {
    forall i, j :: 0 <= i < |a| && 0 <= j < |b| ==> a[i].bridge != b[j].bridge || a[i].ip != b[j].ip
  }

  lemma ListConcat(a: seq<Nic>, b: seq<Nic>)
    ensures ListApart(a + b) <==> ListApart(a) && ListApart(b) && CrossApart(a, b)
  {
    var all := a + b;
    assert forall i :: 0 <= i < |a| ==> all[i] == a[i];
    assert forall j :: 0 <= j < |b| ==> all[|a| + j] == b[j];
  }

  lemma {:induction false} AllNicsHas(vms: seq<Vm>, x: Nic)
    ensures x in AllNics(vms) <==> exists v :: 0 <= v < |vms| && x in vms[v].nics
  {
    if vms != [] {
      var n := |vms| - 1;
      AllNicsHas(vms[..n], x);
      assert vms == vms[..n] + [vms[n]];
    }
  }

  lemma {:induction false} NicsExactly(vms: seq<Vm>)
    ensures ListApart(AllNics(vms)) <==> NicsApart(vms)
  {
    if vms != [] {
      var n := |vms| - 1;
      var a, b := AllNics(vms[..n]), vms[n].nics;
      NicsExactly(vms[..n]);
      ListConcat(a, b);
      assert forall v :: 0 <= v < n ==> vms[..n][v] == vms[v];
      forall x ensures x in a <==> exists v :: 0 <= v < n && x in vms[v].nics { AllNicsHas(vms[..n], x); }
      hide AllNics, ListApart;
      SnocApart(vms, a);
    }
  }

  lemma SnocApart(vms: seq<Vm>, a: seq<Nic>)
    requires vms != [] && forall x :: x in a <==> exists v :: 0 <= v < |vms| - 1 && x in vms[v].nics
    ensures NicsApart(vms) <==>
            NicsApart(vms[..|vms| - 1]) && ListApart(vms[|vms| - 1].nics) && CrossApart(a, vms[|vms| - 1].nics)
  {
    var n := |vms| - 1;
    var b := vms[n].nics;
    assert forall v :: 0 <= v < n ==> vms[..n][v] == vms[v];
    if NicsApart(vms) {
      forall i, j | 0 <= i < j < |b| ensures b[i].bridge != b[j].bridge || b[i].ip != b[j].ip { assert (n, i) != (n, j); }
      forall i, j | 0 <= i < |a| && 0 <= j < |b| ensures a[i].bridge != b[j].bridge || a[i].ip != b[j].ip {
        assert a[i] in a;
        var v :| 0 <= v < n && a[i] in vms[v].nics;
        var k :| 0 <= k < |vms[v].nics| && vms[v].nics[k] == a[i];
        assert (v, k) != (n, j);
      }
      ApartFront(vms);
    }
    if NicsApart(vms[..n]) && ListApart(b) && CrossApart(a, b) {
      ApartSnoc(vms, a);
    }
  }

  lemma ApartFront(vms: seq<Vm>)
    requires vms != [] && NicsApart(vms)
    ensures NicsApart(vms[..|vms| - 1])
  {}

  lemma ApartSnoc(vms: seq<Vm>, a: seq<Nic>)
    requires vms != [] && forall x :: x in a <==> exists v :: 0 <= v < |vms| - 1 && x in vms[v].nics
    requires NicsApart(vms[..|vms| - 1]) && ListApart(vms[|vms| - 1].nics) && CrossApart(a, vms[|vms| - 1].nics)
    ensures NicsApart(vms)
  {
    var n := |vms| - 1;
    forall u, i, v, j | 0 <= u < |vms| && 0 <= i < |vms[u].nics| && 0 <= v < |vms| && 0 <= j < |vms[v].nics| && (u, i) != (v, j)
      ensures vms[u].nics[i].bridge != vms[v].nics[j].bridge || vms[u].nics[i].ip != vms[v].nics[j].ip
    {
      if u < n { InFront(vms, a, u, i); }
      if v < n { InFront(vms, a, v, j); }
      if u < n && v < n { assert vms[..n][u] == vms[u] && vms[..n][v] == vms[v]; }
    }
  }

  lemma InFront(vms: seq<Vm>, a: seq<Nic>, u: nat, i: nat)
    requires vms != [] && (forall x :: x in a <==> exists v :: 0 <= v < |vms| - 1 && x in vms[v].nics)
    requires u < |vms| - 1 && i < |vms[u].nics|
    ensures exists k :: 0 <= k < |a| && a[k] == vms[u].nics[i]
  {
    assert vms[u].nics[i] in vms[u].nics;
    assert vms[u].nics[i] in a;
  }

  /** A manifest of different machines, none a template of another, each with contiguous interfaces of which the
      first is its management interface, and no address twice on one bridge. */
  ghost predicate GoodManifest(vms: seq<Vm>) {
    && (forall v :: 0 <= v < |vms| ==>
          vms[v].nics != [] && vms[v].ip == vms[v].nics[0].ip && vms[v].bridge == vms[v].nics[0].bridge)
    && (forall v, i :: 0 <= v < |vms| && 0 <= i < |vms[v].nics| ==> vms[v].nics[i].index == i)
    && (forall u, v :: 0 <= u < v < |vms| ==> vms[u].vmid != vms[v].vmid && vms[u].name != vms[v].name)
    && (forall u, v :: 0 <= u < |vms| && 0 <= v < |vms| ==> vms[u].template != Some(vms[v].vmid))
    && NicsApart(vms)
  }

  lemma ManifestExactly(vms: seq<Vm>)
    ensures ManifestOk(vms) <==> GoodManifest(vms)
  {
    NicsExactly(vms);
    hide AllNics, NicsApart;
  }

  ghost predicate HasMachine(d: Document, x: nat) { exists i :: i in d.instances && i.vmid == x }
  ghost predicate HasVm(vms: seq<Vm>, x: nat) { exists v :: v in vms && v.vmid == x }

  /** Every instance is a machine of the manifest and the other way round, one to one. */
  ghost predicate SameMachines(d: Document, vms: seq<Vm>) {
    |vms| == |d.instances| && forall x :: HasMachine(d, x) <==> HasVm(vms, x)
  }

  lemma MachineExactly(d: Document, vms: seq<Vm>, x: nat)
    ensures x in MachineIds(d) <==> HasMachine(d, x)
    ensures x in VmIds(vms) <==> HasVm(vms, x)
  {
    if i :| i in d.instances && i.vmid == x { var k :| 0 <= k < |d.instances| && d.instances[k] == i; }
    if v :| v in vms && v.vmid == x { var k :| 0 <= k < |vms| && vms[k] == v; }
    if k :| 0 <= k < |d.instances| && d.instances[k].vmid == x { assert d.instances[k] in d.instances; }
    if k :| 0 <= k < |vms| && vms[k].vmid == x { assert vms[k] in vms; }
  }

  lemma MachinesExactly(d: Document, vms: seq<Vm>)
    ensures MachinesOk(d, vms) <==> SameMachines(d, vms)
  {
    forall x ensures x in MachineIds(d) <==> HasMachine(d, x) { MachineExactly(d, vms, x); }
    forall x ensures x in VmIds(vms) <==> HasVm(vms, x) { MachineExactly(d, vms, x); }
    hide MachineIds, VmIds, HasMachine, HasVm;
    if SameMachines(d, vms) { assert MachineIds(d) == VmIds(vms); }
  }

  // ---------------------------------------------------------------- networks

  /** One network ends before the other begins. */
  predicate Clear(a: Subnet, b: Subnet) { a.base + Size(a) <= b.base || b.base + Size(b) <= a.base }

  /** Networks of different names on ranges that do not meet. */
  ghost predicate NetworksApart(d: Document) {
    forall i, j :: 0 <= i < j < |d.networks| ==>
      d.networks[i].vnet != d.networks[j].vnet && Clear(d.networks[i].subnet, d.networks[j].subnet)
  }

  /** The document declares this network, field by field. */
  ghost predicate Declares(d: Document, v: VNet) {
    exists n :: n in d.networks && n.vnet == v.vnet && n.subnet == v.subnet && n.gateway == v.gateway && n.snat == v.snat
  }

  ghost predicate DeclaresName(d: Document, name: string) { exists n :: n in d.networks && n.vnet == name }

  /** The network manifest declares exactly the document's networks: with all their fields when they are managed,
      by name and without managed address translation when they are bridges that exist already. */
  ghost predicate SamePlan(d: Document, plan: NetworkPlan) {
    match plan
    case Sdn(vnets) =>
      && (forall i, j :: 0 <= i < j < |vnets| ==> vnets[i].vnet != vnets[j].vnet && Clear(vnets[i].subnet, vnets[j].subnet))
      && |vnets| == |d.networks| && forall v: VNet :: v in vnets <==> Declares(d, v)
    case Bridges(bridges) =>
      && |bridges| == |d.networks| && (forall b: string :: b in bridges <==> DeclaresName(d, b))
      && forall n :: n in d.networks ==> !n.snat
  }

  lemma NetworksExactly(d: Document)
    ensures NetworksOk(d) <==> NetworksApart(d)
  {}

  lemma DeclaresExactly(d: Document, v: VNet)
    ensures Declares(d, v) <==> exists i | 0 <= i < |d.networks| :: Declared(d.networks[i]) == v
    ensures DeclaresName(d, v.vnet) <==> exists i | 0 <= i < |d.networks| :: d.networks[i].vnet == v.vnet
  {
    if n :| n in d.networks && n.vnet == v.vnet && n.subnet == v.subnet && n.gateway == v.gateway && n.snat == v.snat {
      var i :| 0 <= i < |d.networks| && d.networks[i] == n;
      assert Declared(d.networks[i]) == v;
    }
    if n :| n in d.networks && n.vnet == v.vnet { var i :| 0 <= i < |d.networks| && d.networks[i] == n; }
    if i :| 0 <= i < |d.networks| && Declared(d.networks[i]) == v { assert d.networks[i] in d.networks; }
    if i :| 0 <= i < |d.networks| && d.networks[i].vnet == v.vnet { assert d.networks[i] in d.networks; }
  }

  lemma PlanExactly(d: Document, plan: NetworkPlan)
    ensures PlanOk(d, plan) <==> SamePlan(d, plan)
  {
    hide Overlaps, Clear;
    forall a, b ensures Overlaps(a, b) <==> !Clear(a, b) { ClearExactly(a, b); }
    forall v ensures Declares(d, v) <==> exists i | 0 <= i < |d.networks| :: Declared(d.networks[i]) == v { DeclaresExactly(d, v); }
    match plan
    case Sdn(vnets) => hide Declares, Declared;
    case Bridges(bridges) =>
      forall b ensures DeclaresName(d, b) <==> exists i | 0 <= i < |d.networks| :: d.networks[i].vnet == b {
        DeclaresExactly(d, VNet(b, Subnet(0, 0), None, false));
      }
      hide Declares, DeclaresName;
  }

  lemma ClearExactly(a: Subnet, b: Subnet)
    ensures Overlaps(a, b) <==> !Clear(a, b)
  {}

  // ---------------------------------------------------------------- instances

  /** The interface of the manifest is where the link says: on that network of the instance's own team and user, with
      its name, prefix and an inner address, and with its gateway on the management interface alone. */
  ghost predicate LinkFits(n: NetworkRow, x: Instance, link: NicLink, nic: Nic, management: bool) {
    && n.key == link.network
    && (n.id.team.None? || n.id.team == x.id.team) && (n.id.user.None? || n.id.user == x.id.user)
    && nic.bridge == n.vnet && nic.prefix == Some(n.subnet.prefix)
    && n.subnet.base < nic.ip && nic.ip + 1 < n.subnet.base + Size(n.subnet) && n.gateway != Some(nic.ip)
    && nic.gateway == if management then n.gateway else None
  }

  ghost predicate Linked(d: Document, x: Instance, k: nat, nic: Nic)
    requires k < |x.nics|
  {
    exists n :: n in d.networks && LinkFits(n, x, x.nics[k], nic, k == 0)
  }

  /** The instance is this machine: by identifier and name, with as many interfaces, each under its own key and
      linked as declared. */
  ghost predicate IsMachine(d: Document, x: Instance, vm: Vm) {
    && vm.vmid == x.vmid && vm.name == x.hostname && |x.nics| == |vm.nics|
    && (forall k :: 0 <= k < |x.nics| ==> x.nics[k].index == k)
    && (forall k, m :: 0 <= k < m < |x.nics| ==> x.nics[k].key != x.nics[m].key)
    && forall k :: 0 <= k < |x.nics| ==> Linked(d, x, k, vm.nics[k])
  }

  ghost predicate Fits(d: Document, vms: seq<Vm>, x: Instance) { exists vm :: vm in vms && IsMachine(d, x, vm) }

  ghost predicate OneKeyEach(d: Document) {
    forall i, j :: 0 <= i < j < |d.networks| ==> d.networks[i].key != d.networks[j].key
  }

  ghost predicate OneIdEach(vms: seq<Vm>) { forall u, v :: 0 <= u < v < |vms| ==> vms[u].vmid != vms[v].vmid }

  lemma OnlyNetwork(d: Document, a: NetworkRow, b: NetworkRow)
    requires OneKeyEach(d) && a in d.networks && b in d.networks && a.key == b.key
    ensures a == b
  {
    var i :| 0 <= i < |d.networks| && d.networks[i] == a;
    var j :| 0 <= j < |d.networks| && d.networks[j] == b;
    assert !(i < j) && !(j < i);
  }

  lemma OnlyVm(vms: seq<Vm>, a: Vm, b: Vm)
    requires OneIdEach(vms) && a in vms && b in vms && a.vmid == b.vmid
    ensures a == b
  {
    var i :| 0 <= i < |vms| && vms[i] == a;
    var j :| 0 <= j < |vms| && vms[j] == b;
    assert !(i < j) && !(j < i);
  }

  lemma LinkExactly(d: Document, x: Instance, k: nat, nic: Nic)
    requires OneKeyEach(d) && k < |x.nics| && x.nics[k].index == k
    ensures NicOk(d, x, x.nics[k], nic) <==> Linked(d, x, k, nic)
  {
    var found := NetworkByKey(d.networks, x.nics[k].network);
    hide Size;
    if n :| n in d.networks && LinkFits(n, x, x.nics[k], nic, k == 0) {
      assert found.Some?;
      OnlyNetwork(d, n, found.value);
    }
    if NicOk(d, x, x.nics[k], nic) { assert LinkFits(found.value, x, x.nics[k], nic, k == 0); }
  }

  lemma InstanceExactly(d: Document, vms: seq<Vm>, i: nat)
    requires i < |d.instances| && OneKeyEach(d) && OneIdEach(vms)
    ensures InstanceOk(d, vms, i) <==> Fits(d, vms, d.instances[i])
  {
    var x := d.instances[i];
    var found := VmById(vms, x.vmid);
    forall k, nic | 0 <= k < |x.nics| && x.nics[k].index == k ensures NicOk(d, x, x.nics[k], nic) <==> Linked(d, x, k, nic) {
      LinkExactly(d, x, k, nic);
    }
    hide NicOk, Linked, OneKeyEach, VmById;
    if vm :| vm in vms && IsMachine(d, x, vm) {
      FoundVm(vms, x.vmid, vm);
    }
    if InstanceOk(d, vms, i) {
      FoundIn(vms, x.vmid);
      assert IsMachine(d, x, found.value);
    }
  }

  lemma FoundVm(vms: seq<Vm>, vmid: nat, vm: Vm)
    requires OneIdEach(vms) && vm in vms && vm.vmid == vmid
    ensures VmById(vms, vmid) == Some(vm)
  {
    OnlyVm(vms, vm, VmById(vms, vmid).value);
  }

  lemma FoundIn(vms: seq<Vm>, vmid: nat)
    requires VmById(vms, vmid).Some?
    ensures VmById(vms, vmid).value in vms
  {}

  /** The source that the link's network was spread from. */
  ghost predicate FromSource(d: Document, link: NicLink, source: string) {
    exists n :: n in d.networks && n.key == link.network && n.id.source == source
  }

  /** Two links of one interface and one network source. */
  ghost predicate SameLink(d: Document, a: NicLink, b: NicLink) {
    a.index == b.index && a.key == b.key && exists source :: FromSource(d, a, source) && FromSource(d, b, source)
  }

  /** Replicas of one source have the same interfaces, connected to networks of the same sources. */
  ghost predicate ReplicasEqual(d: Document) {
    forall i, j :: 0 <= i < j < |d.instances| && d.instances[i].id.source == d.instances[j].id.source ==>
      SameLinks(d, d.instances[i].nics, d.instances[j].nics)
  }

  ghost predicate SameLinks(d: Document, a: seq<NicLink>, b: seq<NicLink>) {
    |a| == |b| && forall k :: 0 <= k < |a| ==> SameLink(d, a[k], b[k])
  }

  lemma SameLinkExactly(d: Document, a: NicLink, b: NicLink)
    requires OneKeyEach(d) && NetworkByKey(d.networks, a.network).Some? && NetworkByKey(d.networks, b.network).Some?
    ensures SourceLink(d, a) == SourceLink(d, b) <==> SameLink(d, a, b)
  {
    var m, n := NetworkByKey(d.networks, a.network).value, NetworkByKey(d.networks, b.network).value;
    assert FromSource(d, a, m.id.source) && FromSource(d, b, n.id.source);
    if source :| FromSource(d, a, source) && FromSource(d, b, source) {
      var p :| p in d.networks && p.key == a.network && p.id.source == source;
      var q :| q in d.networks && q.key == b.network && q.id.source == source;
      OnlyNetwork(d, m, p);
      OnlyNetwork(d, n, q);
    }
  }

  /** Every link of every instance names a network. */
  ghost predicate AllLinked(d: Document) {
    forall i, k :: 0 <= i < |d.instances| && 0 <= k < |d.instances[i].nics| ==>
      NetworkByKey(d.networks, d.instances[i].nics[k].network).Some?
  }

  lemma SameLinksExactly(d: Document, i: nat, j: nat)
    requires OneKeyEach(d) && AllLinked(d) && i < |d.instances| && j < |d.instances|
    ensures SourceLinks(d, i) == SourceLinks(d, j) <==> SameLinks(d, d.instances[i].nics, d.instances[j].nics)
  {
    var a, b := d.instances[i].nics, d.instances[j].nics;
    if |a| == |b| {
      forall k | 0 <= k < |a| ensures SourceLink(d, a[k]) == SourceLink(d, b[k]) <==> SameLink(d, a[k], b[k]) {
        SameLinkExactly(d, a[k], b[k]);
      }
      hide SourceLink, SameLink;
      assert forall k :: 0 <= k < |a| ==> SourceLinks(d, i)[k] == SourceLink(d, a[k]) && SourceLinks(d, j)[k] == SourceLink(d, b[k]);
      if SameLinks(d, a, b) { assert SourceLinks(d, i) == SourceLinks(d, j); }
    }
  }

  lemma ReplicasExactly(d: Document)
    requires OneKeyEach(d) && AllLinked(d)
    ensures ReplicasAlike(d) <==> ReplicasEqual(d)
  {
    forall i, j | 0 <= i < |d.instances| && 0 <= j < |d.instances|
      ensures SourceLinks(d, i) == SourceLinks(d, j) <==> SameLinks(d, d.instances[i].nics, d.instances[j].nics)
    {
      SameLinksExactly(d, i, j);
    }
    hide SourceLinks, SameLinks, AllLinked, OneKeyEach;
  }

  // ---------------------------------------------------------------- the whole agreement

  /** A roster of at most sixty-four users, with different teams and different users within each, and no source
      that is both a machine and a network. */
  ghost predicate GoodRoster(d: Document) {
    && Users(d.teams) <= 64
    && (forall i, j :: 0 <= i < j < |d.teams| ==> d.teams[i].id != d.teams[j].id)
    && (forall i, j, k :: 0 <= i < |d.teams| && 0 <= j < k < |d.teams[i].users| ==> d.teams[i].users[j] != d.teams[i].users[k])
    && forall a, b :: a in d.nodeScopes && b in d.networkScopes ==> a.0 != b.0
  }

  ghost predicate NamedByIdentity(d: Document) {
    && (forall x :: x in d.instances ==> x.key == VmKey(d.scenario, x.id))
    && forall n :: n in d.networks ==> n.key == NetKey(d.scenario, n.id)
  }

  /** All that an accepted replicated scenario agrees on. */
  ghost predicate Agrees(d: Document, vms: seq<Vm>, plan: NetworkPlan) {
    && GoodRoster(d)
    && SpreadExactly(d.teams, d.nodeScopes, InstanceIds(d), 64) && SpreadExactly(d.teams, d.networkScopes, NetworkIds(d), 32)
    && NamedByIdentity(d) && TotalNics(d.instances) <= 256 && GoodManifest(vms) && SameMachines(d, vms)
    && NetworksApart(d) && SamePlan(d, plan)
    && (forall x :: x in d.instances ==> Fits(d, vms, x)) && ReplicasEqual(d)
  }

  lemma RosterExactly(d: Document)
    ensures RosterOk(d) <==> GoodRoster(d)
  {}

  lemma KeysExactly(d: Document)
    ensures KeysOk(d) <==> NamedByIdentity(d)
  {
    assert (forall x :: x in d.instances ==> x.key == VmKey(d.scenario, x.id))
      <==> forall i :: 0 <= i < |d.instances| ==> d.instances[i].key == VmKey(d.scenario, d.instances[i].id);
    assert (forall n :: n in d.networks ==> n.key == NetKey(d.scenario, n.id))
      <==> forall i :: 0 <= i < |d.networks| ==> d.networks[i].key == NetKey(d.scenario, d.networks[i].id);
  }

  lemma KeysDiffer(d: Document)
    requires KeysOk(d) && SpreadExactly(d.teams, d.networkScopes, NetworkIds(d), 32)
    ensures OneKeyEach(d)
  {
    forall i, j | 0 <= i < j < |d.networks| ensures d.networks[i].key != d.networks[j].key {
      assert NetworkIds(d)[i] != NetworkIds(d)[j];
    }
  }

  lemma FitIsLinked(d: Document, vms: seq<Vm>)
    requires forall i :: 0 <= i < |d.instances| ==> InstanceOk(d, vms, i)
    ensures AllLinked(d)
  {
    forall i, k | 0 <= i < |d.instances| && 0 <= k < |d.instances[i].nics|
      ensures NetworkByKey(d.networks, d.instances[i].nics[k].network).Some?
    {
      assert InstanceOk(d, vms, i);
    }
  }

  lemma InstancesExactly(d: Document, vms: seq<Vm>)
    requires OneKeyEach(d) && OneIdEach(vms)
    ensures (forall i :: 0 <= i < |d.instances| ==> InstanceOk(d, vms, i)) <==> forall x :: x in d.instances ==> Fits(d, vms, x)
  {
    forall i | 0 <= i < |d.instances| ensures InstanceOk(d, vms, i) <==> Fits(d, vms, d.instances[i]) { InstanceExactly(d, vms, i); }
    hide InstanceOk, Fits;
  }

  /** The validator's checks, taken together, accept exactly the scenarios that agree in these plain terms. */
  lemma AcceptedExactly(d: Document, vms: seq<Vm>, plan: NetworkPlan)
    ensures Accepted(d, vms, plan) <==> Agrees(d, vms, plan)
  {
    hide RosterOk, IdentitiesOk, KeysOk, ManifestOk, MachinesOk, NetworksOk, PlanOk, InstanceOk, ReplicasAlike, TotalNics;
    hide GoodRoster, SpreadExactly, NamedByIdentity, GoodManifest, SameMachines, NetworksApart, SamePlan, Fits, ReplicasEqual;
    hide InstanceIds, NetworkIds;
    RosterExactly(d);
    IdentitiesExactly(d.teams, d.nodeScopes, InstanceIds(d), 64);
    IdentitiesExactly(d.teams, d.networkScopes, NetworkIds(d), 32);
    KeysExactly(d);
    ManifestExactly(vms);
    MachinesExactly(d, vms);
    NetworksExactly(d);
    PlanExactly(d, plan);
    if KeysOk(d) && SpreadExactly(d.teams, d.networkScopes, NetworkIds(d), 32) && GoodManifest(vms) {
      KeysDiffer(d);
      IdsDiffer(vms);
      InstancesExactly(d, vms);
      if forall i :: 0 <= i < |d.instances| ==> InstanceOk(d, vms, i) {
        FitIsLinked(d, vms);
        ReplicasExactly(d);
      }
    }
  }

  lemma IdsDiffer(vms: seq<Vm>)
    requires GoodManifest(vms)
    ensures OneIdEach(vms)
  {
    hide NicsApart;
  }
}
