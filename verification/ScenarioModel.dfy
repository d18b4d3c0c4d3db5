/** Replicated scenarios: the authored roster and scopes, the declared instances and networks, the literal
    VM and network manifests, and what it means for them to agree. */
module ScenarioModel {
  import opened Wrappers
  import opened VmAllocationModel

  datatype Scope = Shared | PerTeam | PerUser
  datatype Team = Team(id: string, users: seq<string>)

  /** A dict of the document, in its order, keys unique. */
  type Scopes = seq<(string, Scope)>

  datatype Identity = Identity(source: string, team: Option<string>, user: Option<string>)

  /** The digest of scenario and identity; digests are injective, so the key is what they cover. */
  datatype InstanceKey = VmKey(scenario: string, id: Identity) | NetKey(scenario: string, id: Identity)

  datatype NicLink = NicLink(index: nat, key: string, network: InstanceKey)
  datatype Instance = Instance(key: InstanceKey, id: Identity, vmid: nat, hostname: string, nics: seq<NicLink>)
  datatype NetworkRow = NetworkRow(key: InstanceKey, id: Identity, vnet: string, subnet: Subnet, gateway: Option<Ip>, snat: bool)
  datatype Document = Document(scenario: string, teams: seq<Team>, nodeScopes: Scopes, networkScopes: Scopes,
                               instances: seq<Instance>, networks: seq<NetworkRow>)

  datatype Nic = Nic(index: nat, bridge: string, ip: Ip, prefix: Option<nat>, gateway: Option<Ip>)
  datatype Vm = Vm(vmid: nat, name: string, template: Option<nat>, ip: Ip, bridge: string, nics: seq<Nic>, sshUser: Option<string>)

  datatype VNet = VNet(vnet: string, subnet: Subnet, gateway: Option<Ip>, snat: bool)
  datatype NetworkPlan = Sdn(vnets: seq<VNet>) | Bridges(bridges: seq<string>)

  // ---------------------------------------------------------------- roster

  function Cohorts(teams: seq<Team>, scope: Scope): set<(Option<string>, Option<string>)> {
    match scope
    case Shared => {(None, None)}
    case PerTeam => set i | 0 <= i < |teams| :: (Some(teams[i].id), None)
    case PerUser => set i, j | 0 <= i < |teams| && 0 <= j < |teams[i].users| :: (Some(teams[i].id), Some(teams[i].users[j]))
  }

  function Replicas(teams: seq<Team>, entry: (string, Scope)): set<Identity> {
    set c | c in Cohorts(teams, entry.1) :: Identity(entry.0, c.0, c.1)
  }

  function Expected(teams: seq<Team>, scopes: Scopes): set<Identity> {
    if scopes == [] then {} else
    Expected(teams, scopes[..|scopes| - 1]) + Replicas(teams, scopes[|scopes| - 1])
  }

  function Users(teams: seq<Team>): nat {
    if teams == [] then 0 else Users(teams[..|teams| - 1]) + |teams[|teams| - 1].users|
  }

  predicate DistinctStrings(s: seq<string>) { forall i | 0 <= i < |s| :: forall j | i < j < |s| :: s[i] != s[j] }

  predicate RosterOk(d: Document) {
    && Users(d.teams) <= 64
    && (forall i | 0 <= i < |d.teams| :: forall j | i < j < |d.teams| :: d.teams[i].id != d.teams[j].id)
    && (forall i | 0 <= i < |d.teams| :: DistinctStrings(d.teams[i].users))
    && (forall i | 0 <= i < |d.nodeScopes| :: forall j | 0 <= j < |d.networkScopes| :: d.nodeScopes[i].0 != d.networkScopes[j].0)
  }

  /** The schema's own promise about dicts. */
  predicate DictKeys(scopes: Scopes) { forall i | 0 <= i < |scopes| :: forall j | i < j < |scopes| :: scopes[i].0 != scopes[j].0 }

  function IdSet(ids: seq<Identity>): set<Identity> { set i | 0 <= i < |ids| :: ids[i] }

  predicate IdentitiesOk(teams: seq<Team>, scopes: Scopes, ids: seq<Identity>, limit: nat) {
    && (forall i | 0 <= i < |scopes| :: Cohorts(teams, scopes[i].1) != {})
    && |Expected(teams, scopes)| <= limit
    && IdSet(ids) == Expected(teams, scopes) && |ids| == |Expected(teams, scopes)|
  }

  function InstanceIds(d: Document): seq<Identity> { seq(|d.instances|, i requires 0 <= i < |d.instances| => d.instances[i].id) }
  function NetworkIds(d: Document): seq<Identity> { seq(|d.networks|, i requires 0 <= i < |d.networks| => d.networks[i].id) }

  predicate KeysOk(d: Document) {
    && (forall i | 0 <= i < |d.instances| :: d.instances[i].key == VmKey(d.scenario, d.instances[i].id))
    && (forall i | 0 <= i < |d.networks| :: d.networks[i].key == NetKey(d.scenario, d.networks[i].id))
  }

  // ---------------------------------------------------------------- literal manifests

  predicate ManagementNic(vm: Vm) {
    && vm.nics != [] && (forall i | 0 <= i < |vm.nics| :: vm.nics[i].index == i)
    && vm.ip == vm.nics[0].ip && vm.bridge == vm.nics[0].bridge
  }

  /** Every interface of a manifest, machine by machine. */
  function AllNics(vms: seq<Vm>): seq<Nic> {
    if vms == [] then [] else AllNics(vms[..|vms| - 1]) + vms[|vms| - 1].nics
  }

  predicate ManifestOk(vms: seq<Vm>) {
    && (forall i | 0 <= i < |vms| :: ManagementNic(vms[i]))
    && (forall i | 0 <= i < |vms| :: forall j | i < j < |vms| :: vms[i].vmid != vms[j].vmid && vms[i].name != vms[j].name)
    && (forall i | 0 <= i < |vms| :: forall j | 0 <= j < |vms| :: vms[i].template != Some(vms[j].vmid))
    && (forall i | 0 <= i < |AllNics(vms)| :: forall j | i < j < |AllNics(vms)| ::
          AllNics(vms)[i].bridge != AllNics(vms)[j].bridge || AllNics(vms)[i].ip != AllNics(vms)[j].ip)
  }

  predicate Overlaps(a: Subnet, b: Subnet) { a.base < b.base + Size(b) && b.base < a.base + Size(a) }

  predicate NetworksOk(d: Document) {
    forall i | 0 <= i < |d.networks| :: forall j | i < j < |d.networks| ::
      d.networks[i].vnet != d.networks[j].vnet && !Overlaps(d.networks[i].subnet, d.networks[j].subnet)
  }

  function Declared(n: NetworkRow): VNet { VNet(n.vnet, n.subnet, n.gateway, n.snat) }

  /** Sorted by name and compared, which for unique names is equality as sets. */
  predicate PlanOk(d: Document, plan: NetworkPlan) {
    match plan
    case Sdn(vnets) =>
      && (forall i | 0 <= i < |vnets| :: forall j | i < j < |vnets| ::
            vnets[i].vnet != vnets[j].vnet && !Overlaps(vnets[i].subnet, vnets[j].subnet))
      && |vnets| == |d.networks| && (forall v | v in vnets :: exists i | 0 <= i < |d.networks| :: Declared(d.networks[i]) == v)
      && (forall i | 0 <= i < |d.networks| :: Declared(d.networks[i]) in vnets)
    case Bridges(bridges) =>
      && |bridges| == |d.networks| && (forall b | b in bridges :: exists i | 0 <= i < |d.networks| :: d.networks[i].vnet == b)
      && (forall i | 0 <= i < |d.networks| :: d.networks[i].vnet in bridges && !d.networks[i].snat)
  }

  function MachineIds(d: Document): set<nat> { set i | 0 <= i < |d.instances| :: d.instances[i].vmid }
  function VmIds(vms: seq<Vm>): set<nat> { set i | 0 <= i < |vms| :: vms[i].vmid }

  predicate MachinesOk(d: Document, vms: seq<Vm>) {
    && |vms| == |d.instances|
    && MachineIds(d) == VmIds(vms)
  }

  // ---------------------------------------------------------------- interfaces

  function VmById(vms: seq<Vm>, vmid: nat): (vm: Option<Vm>)
    ensures vm.Some? ==> vm.value in vms && vm.value.vmid == vmid
    ensures vm.None? ==> forall v :: v in vms ==> v.vmid != vmid
  {
    if vms == [] then None else if vms[0].vmid == vmid then Some(vms[0]) else VmById(vms[1..], vmid)
  }

  function NetworkByKey(networks: seq<NetworkRow>, key: InstanceKey): (n: Option<NetworkRow>)
    ensures n.Some? ==> n.value in networks && n.value.key == key
    ensures n.None? ==> forall x :: x in networks ==> x.key != key
  {
    if networks == [] then None else if networks[0].key == key then Some(networks[0]) else NetworkByKey(networks[1..], key)
  }

  predicate Reaches(network: Identity, machine: Identity) {
    (network.team.None? || network.team == machine.team) && (network.user.None? || network.user == machine.user)
  }

  predicate NicOk(d: Document, instance: Instance, link: NicLink, literal: Nic) {
    var n := NetworkByKey(d.networks, link.network);
    && n.Some? && Reaches(n.value.id, instance.id)
    && literal.bridge == n.value.vnet && literal.prefix == Some(n.value.subnet.prefix)
    && Usable(literal.ip, n.value.subnet) && Some(literal.ip) != n.value.gateway
    && literal.gateway == (if link.index == 0 then n.value.gateway else None)
  }

  function SourceLink(d: Document, link: NicLink): (nat, string, string) {
    var n := NetworkByKey(d.networks, link.network);
    (link.index, link.key, if n.Some? then n.value.id.source else "")
  }

  function SourceLinks(d: Document, i: nat): seq<(nat, string, string)>
    requires i < |d.instances|
  {
    seq(|d.instances[i].nics|, k requires 0 <= k < |d.instances[i].nics| => SourceLink(d, d.instances[i].nics[k]))
  }

  predicate InstanceOk(d: Document, vms: seq<Vm>, i: nat)
    requires i < |d.instances|
  {
    var instance := d.instances[i];
    var vm := VmById(vms, instance.vmid);
    && vm.Some? && vm.value.name == instance.hostname && |instance.nics| == |vm.value.nics|
    && (forall k | 0 <= k < |instance.nics| :: instance.nics[k].index == k)
    && (forall k | 0 <= k < |instance.nics| :: forall m | k < m < |instance.nics| :: instance.nics[k].key != instance.nics[m].key)
    && forall k | 0 <= k < |instance.nics| :: NicOk(d, instance, instance.nics[k], vm.value.nics[k])
  }

  predicate ReplicasAlike(d: Document) {
    forall i | 0 <= i < |d.instances| :: forall j | i < j < |d.instances| ::
      d.instances[i].id.source == d.instances[j].id.source ==> SourceLinks(d, i) == SourceLinks(d, j)
  }

  function TotalNics(instances: seq<Instance>): nat {
    if instances == [] then 0 else TotalNics(instances[..|instances| - 1]) + |instances[|instances| - 1].nics|
  }

  /** Everything the validator asks of a replicated scenario, its inventory apart. */
  predicate Accepted(d: Document, vms: seq<Vm>, plan: NetworkPlan) {
    && RosterOk(d)
    && IdentitiesOk(d.teams, d.nodeScopes, InstanceIds(d), 64) && IdentitiesOk(d.teams, d.networkScopes, NetworkIds(d), 32)
    && KeysOk(d) && TotalNics(d.instances) <= 256 && ManifestOk(vms) && MachinesOk(d, vms) && NetworksOk(d) && PlanOk(d, plan)
    && (forall i | 0 <= i < |d.instances| :: InstanceOk(d, vms, i)) && ReplicasAlike(d)
  }
}
