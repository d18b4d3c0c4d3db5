/** What an accepted replicated scenario guarantees. */
module ScenarioTheorems {
  import opened Wrappers
  import opened VmAllocationModel
  import opened ScenarioModel

  // ---------------------------------------------------------------- the roster expansion

  function CountScopes(scopes: Scopes, scope: Scope): nat {
    if scopes == [] then 0 else
    CountScopes(scopes[..|scopes| - 1], scope) + (if scopes[|scopes| - 1].1 == scope then 1 else 0)
  }

  /** The number of copies the roster asks for. */
  function Expansion(teams: seq<Team>, scopes: Scopes): nat {
    CountScopes(scopes, Shared) + CountScopes(scopes, PerTeam) * |teams| + CountScopes(scopes, PerUser) * Users(teams)
  }

  ghost predicate DistinctTeams(teams: seq<Team>) {
    && (forall i, j :: 0 <= i < j < |teams| ==> teams[i].id != teams[j].id)
    && forall i :: 0 <= i < |teams| ==> DistinctStrings(teams[i].users)
  }

  lemma {:induction false} TeamCohorts(teams: seq<Team>)
    requires DistinctTeams(teams)
    ensures |Cohorts(teams, PerTeam)| == |teams|
  {
    if teams == [] {
      assert Cohorts(teams, PerTeam) == {};
    } else {
      var n := |teams| - 1;
      TeamCohorts(teams[..n]);
      TeamCohortsSnoc(teams);
      assert (Some(teams[n].id), None) !in Cohorts(teams[..n], PerTeam);
    }
  }

  lemma TeamCohortsSnoc(teams: seq<Team>)
    requires teams != []
    ensures Cohorts(teams, PerTeam) == Cohorts(teams[..|teams| - 1], PerTeam) + {(Some(teams[|teams| - 1].id), None)}
  {
    var n := |teams| - 1;
    forall c | c in Cohorts(teams, PerTeam) ensures c in Cohorts(teams[..n], PerTeam) || c == (Some(teams[n].id), None) {
      var i :| 0 <= i < |teams| && c == (Some(teams[i].id), None);
      if i < n { assert teams[..n][i] == teams[i]; }
    }
    forall c | c in Cohorts(teams[..n], PerTeam) ensures c in Cohorts(teams, PerTeam) {
      var i :| 0 <= i < n && c == (Some(teams[..n][i].id), None);
      assert teams[..n][i] == teams[i];
    }
  }

  function UsersOf(team: string, users: seq<string>): set<(Option<string>, Option<string>)> {
    set j | 0 <= j < |users| :: (Some(team), Some(users[j]))
  }

  lemma {:induction false} UserCount(team: string, users: seq<string>)
    requires DistinctStrings(users)
    ensures |UsersOf(team, users)| == |users|
  {
    if users == [] {
      assert UsersOf(team, users) == {};
    } else {
      var n := |users| - 1;
      assert DistinctStrings(users[..n]);
      UserCount(team, users[..n]);
      assert UsersOf(team, users) == UsersOf(team, users[..n]) + {(Some(team), Some(users[n]))};
      assert (Some(team), Some(users[n])) !in UsersOf(team, users[..n]);
    }
  }

  lemma {:induction false} UserCohorts(teams: seq<Team>)
    requires DistinctTeams(teams)
    ensures |Cohorts(teams, PerUser)| == Users(teams)
  {
    if teams == [] {
      assert Cohorts(teams, PerUser) == {};
    } else {
      var n := |teams| - 1;
      UserCohorts(teams[..n]);
      UserCount(teams[n].id, teams[n].users);
      UserCohortsSnoc(teams);
      var before, last := Cohorts(teams[..n], PerUser), UsersOf(teams[n].id, teams[n].users);
      assert before !! last;
    }
  }

  lemma UserCohortsSnoc(teams: seq<Team>)
    requires teams != []
    ensures Cohorts(teams, PerUser)
      == Cohorts(teams[..|teams| - 1], PerUser) + UsersOf(teams[|teams| - 1].id, teams[|teams| - 1].users)
  {
    var n := |teams| - 1;
    forall c | c in Cohorts(teams, PerUser) ensures c in Cohorts(teams[..n], PerUser) + UsersOf(teams[n].id, teams[n].users) {
      var i, j :| 0 <= i < |teams| && 0 <= j < |teams[i].users| && c == (Some(teams[i].id), Some(teams[i].users[j]));
      if i < n { assert teams[..n][i] == teams[i]; }
    }
    forall c | c in Cohorts(teams[..n], PerUser) ensures c in Cohorts(teams, PerUser) {
      var i, j :| 0 <= i < n && 0 <= j < |teams[..n][i].users| && c == (Some(teams[..n][i].id), Some(teams[..n][i].users[j]));
      assert teams[..n][i] == teams[i];
    }
    forall c | c in UsersOf(teams[n].id, teams[n].users) ensures c in Cohorts(teams, PerUser) {
      var j :| 0 <= j < |teams[n].users| && c == (Some(teams[n].id), Some(teams[n].users[j]));
    }
  }

  lemma ImageSize(cohorts: set<(Option<string>, Option<string>)>, source: string)
    ensures |set c | c in cohorts :: Identity(source, c.0, c.1)| == |cohorts|
    decreases |cohorts|
  {
    var image := set c | c in cohorts :: Identity(source, c.0, c.1);
    if cohorts == {} {
      assert image == {};
    } else {
      var c :| c in cohorts;
      var rest := cohorts - {c};
      ImageSize(rest, source);
      assert image == (set d | d in rest :: Identity(source, d.0, d.1)) + {Identity(source, c.0, c.1)};
    }
  }

  lemma ReplicaCount(teams: seq<Team>, entry: (string, Scope))
    requires DistinctTeams(teams)
    ensures |Replicas(teams, entry)|
      == match entry.1 case Shared => 1 case PerTeam => |teams| case PerUser => Users(teams)
  {
    ImageSize(Cohorts(teams, entry.1), entry.0);
    TeamCohorts(teams);
    UserCohorts(teams);
  }

  /** The expansion has one member per source and cohort. */
  lemma {:induction false} ExpectedCount(teams: seq<Team>, scopes: Scopes)
    requires DistinctTeams(teams) && DictKeys(scopes)
    ensures |Expected(teams, scopes)| == Expansion(teams, scopes)
    ensures forall x :: x in Expected(teams, scopes) ==> exists i :: 0 <= i < |scopes| && scopes[i].0 == x.source
  {
    if scopes != [] {
      var n := |scopes| - 1;
      assert DictKeys(scopes[..n]);
      ExpectedCount(teams, scopes[..n]);
      ReplicaCount(teams, scopes[n]);
      var before, last := Expected(teams, scopes[..n]), Replicas(teams, scopes[n]);
      hide Cohorts, DistinctTeams, Users;
      forall x | x in before ensures x !in last {
        var i :| 0 <= i < n && scopes[..n][i].0 == x.source;
        assert scopes[i].0 != scopes[n].0;
      }
      assert |before + last| == |before| + |last|;
      ExpansionSnoc(teams, scopes);
      forall x | x in Expected(teams, scopes) ensures exists i :: 0 <= i < |scopes| && scopes[i].0 == x.source {
        if x in before {
          var i :| 0 <= i < n && scopes[..n][i].0 == x.source;
          assert scopes[i].0 == x.source;
        } else {
          assert scopes[n].0 == x.source;
        }
      }
    }
  }

  lemma ExpansionSnoc(teams: seq<Team>, scopes: Scopes)
    requires scopes != []
    ensures Expansion(teams, scopes) == Expansion(teams, scopes[..|scopes| - 1])
      + (match scopes[|scopes| - 1].1 case Shared => 1 case PerTeam => |teams| case PerUser => Users(teams))
  {
    var t, u := CountScopes(scopes[..|scopes| - 1], PerTeam), CountScopes(scopes[..|scopes| - 1], PerUser);
    assert (t + 1) * |teams| == t * |teams| + |teams| && (u + 1) * Users(teams) == u * Users(teams) + Users(teams);
  }

  /** A list with as many entries as its set has no repetitions. */
  lemma {:induction false} NoRepeats(ids: seq<Identity>)
    requires |IdSet(ids)| == |ids|
    ensures forall i, j :: 0 <= i < j < |ids| ==> ids[i] != ids[j]
  {
    if ids != [] {
      var n := |ids| - 1;
      IdSetSnoc(ids);
      SetAtMost(ids[..n]);
      NoRepeats(ids[..n]);
      forall i | 0 <= i < n ensures ids[i] != ids[n] { assert ids[..n][i] in IdSet(ids[..n]); }
      assert forall i, j :: 0 <= i < j < n ==> ids[..n][i] != ids[..n][j];
    }
  }

  lemma IdSetSnoc(ids: seq<Identity>)
    requires ids != []
    ensures IdSet(ids) == IdSet(ids[..|ids| - 1]) + {ids[|ids| - 1]}
  {
    var n := |ids| - 1;
    forall x | x in IdSet(ids[..n]) ensures x in IdSet(ids) {
      var i :| 0 <= i < n && ids[..n][i] == x;
      assert ids[i] == x;
    }
    forall x | x in IdSet(ids) ensures x in IdSet(ids[..n]) || x == ids[n] {
      var i :| 0 <= i < |ids| && ids[i] == x;
      if i < n { assert ids[..n][i] == x; }
    }
  }

  lemma {:induction false} SetAtMost(ids: seq<Identity>)
    ensures |IdSet(ids)| <= |ids|
  {
    if ids == [] {
      assert IdSet(ids) == {};
    } else {
      SetAtMost(ids[..|ids| - 1]);
      IdSetSnoc(ids);
    }
  }

  lemma ExactIds(teams: seq<Team>, scopes: Scopes, ids: seq<Identity>, limit: nat)
    requires DistinctTeams(teams) && DictKeys(scopes) && IdentitiesOk(teams, scopes, ids, limit)
    ensures |ids| == Expansion(teams, scopes)
    ensures forall i, j :: 0 <= i < j < |ids| ==> ids[i] != ids[j]
    ensures forall x :: x in Expected(teams, scopes) <==> exists i :: 0 <= i < |ids| && ids[i] == x
  {
    hide Cohorts, Expansion, Expected, DistinctTeams, DictKeys;
    ExpectedCount(teams, scopes);
    NoRepeats(ids);
    assert forall x :: x in IdSet(ids) <==> exists i :: 0 <= i < |ids| && ids[i] == x;
  }

  lemma RosterMeansDistinct(d: Document)
    requires RosterOk(d)
    ensures DistinctTeams(d.teams)
  {}

  /** Instances and networks are in bijection with the roster expansion: as many as it counts, one each, keys
      distinct. */
  lemma ReplicationIsExact(d: Document, vms: seq<Vm>, plan: NetworkPlan)
    requires Accepted(d, vms, plan) && DictKeys(d.nodeScopes) && DictKeys(d.networkScopes)
    ensures |d.instances| == Expansion(d.teams, d.nodeScopes) && |d.networks| == Expansion(d.teams, d.networkScopes)
    ensures forall i, j :: 0 <= i < j < |d.instances| ==> d.instances[i].id != d.instances[j].id && d.instances[i].key != d.instances[j].key
    ensures forall i, j :: 0 <= i < j < |d.networks| ==> d.networks[i].id != d.networks[j].id && d.networks[i].key != d.networks[j].key
    ensures forall x :: x in Expected(d.teams, d.nodeScopes) <==> exists i :: 0 <= i < |d.instances| && InstanceIds(d)[i] == x
    ensures forall x :: x in Expected(d.teams, d.networkScopes) <==> exists i :: 0 <= i < |d.networks| && NetworkIds(d)[i] == x
  {
    assert RosterOk(d) && KeysOk(d) && IdentitiesOk(d.teams, d.nodeScopes, InstanceIds(d), 64)
      && IdentitiesOk(d.teams, d.networkScopes, NetworkIds(d), 32) by { hide RosterOk, KeysOk, IdentitiesOk, InstanceOk, ManifestOk, PlanOk; }
    hide Accepted, Expansion, Expected, RosterOk, DictKeys, IdentitiesOk;
    RosterMeansDistinct(d);
    ExactIds(d.teams, d.nodeScopes, InstanceIds(d), 64);
    ExactIds(d.teams, d.networkScopes, NetworkIds(d), 32);
    hide DistinctTeams;
    forall i, j | 0 <= i < j < |d.instances| ensures d.instances[i].id != d.instances[j].id { assert InstanceIds(d)[i] != InstanceIds(d)[j]; }
    forall i, j | 0 <= i < j < |d.networks| ensures d.networks[i].id != d.networks[j].id { assert NetworkIds(d)[i] != NetworkIds(d)[j]; }
  }

  // ---------------------------------------------------------------- addresses

  /** The interface is on a declared network: its bridge, an address of its subnet. */
  ghost predicate OnNetwork(d: Document, nic: Nic, n: nat) {
    n < |d.networks| && nic.bridge == d.networks[n].vnet && Usable(nic.ip, d.networks[n].subnet)
  }

  lemma NicHasNetwork(d: Document, instance: Instance, link: NicLink, literal: Nic) returns (n: nat)
    requires NicOk(d, instance, link, literal)
    ensures OnNetwork(d, literal, n) && d.networks[n].key == link.network && Reaches(d.networks[n].id, instance.id)
  {
    var row := NetworkByKey(d.networks, link.network).value;
    n :| 0 <= n < |d.networks| && d.networks[n] == row;
  }

  /** One address on two declared networks is one network. */
  lemma SameIpSameNetwork(d: Document, a: Nic, b: Nic, m: nat, n: nat)
    requires NetworksOk(d) && OnNetwork(d, a, m) && OnNetwork(d, b, n) && a.ip == b.ip
    ensures m == n && a.bridge == b.bridge
  {
    assert forall i, j :: 0 <= i < j < |d.networks| ==> !Overlaps(d.networks[i].subnet, d.networks[j].subnet);
  }

  /** Every machine of the manifest is some instance's. */
  lemma VmHasInstance(d: Document, vms: seq<Vm>, v: nat) returns (i: nat)
    requires MachinesOk(d, vms) && ManifestOk(vms) && v < |vms| && forall i :: 0 <= i < |d.instances| ==> InstanceOk(d, vms, i)
    ensures i < |d.instances| && d.instances[i].vmid == vms[v].vmid && VmById(vms, d.instances[i].vmid) == Some(vms[v])
  {
    hide InstanceOk, ManagementNic;
    assert vms[v].vmid in VmIds(vms);
    assert vms[v].vmid in MachineIds(d);
    i :| 0 <= i < |d.instances| && d.instances[i].vmid == vms[v].vmid;
    var found := VmById(vms, vms[v].vmid);
    assert vms[v] in vms;
    var u :| 0 <= u < |vms| && vms[u] == found.value;
    assert forall a, b :: 0 <= a < b < |vms| ==> vms[a].vmid != vms[b].vmid;
  }

  lemma {:induction false} NicIsSomeVms(vms: seq<Vm>, p: nat) returns (v: nat, k: nat)
    requires p < |AllNics(vms)|
    ensures v < |vms| && k < |vms[v].nics| && vms[v].nics[k] == AllNics(vms)[p]
  {
    var n := |vms| - 1;
    var before := AllNics(vms[..n]);
    if p < |before| {
      v, k := NicIsSomeVms(vms[..n], p);
    } else {
      v, k := n, p - |before|;
    }
  }

  lemma LiteralOnNetwork(d: Document, vms: seq<Vm>, plan: NetworkPlan, p: nat) returns (n: nat)
    requires Accepted(d, vms, plan) && p < |AllNics(vms)|
    ensures OnNetwork(d, AllNics(vms)[p], n)
  {
    assert MachinesOk(d, vms) && ManifestOk(vms) && forall i :: 0 <= i < |d.instances| ==> InstanceOk(d, vms, i);
    hide Accepted, MachinesOk, ManifestOk, OnNetwork;
    var v, k := NicIsSomeVms(vms, p);
    var i := VmHasInstance(d, vms, v);
    assert InstanceOk(d, vms, i);
    hide AllNics;
    n := NicHasNetwork(d, d.instances[i], d.instances[i].nics[k], vms[v].nics[k]);
  }

  /** No two interfaces anywhere share an address, not even on different bridges. */
  lemma AddressesUnique(d: Document, vms: seq<Vm>, plan: NetworkPlan, p: nat, q: nat)
    requires Accepted(d, vms, plan) && p < q < |AllNics(vms)|
    ensures AllNics(vms)[p].ip != AllNics(vms)[q].ip
  {
    var m := LiteralOnNetwork(d, vms, plan, p);
    var n := LiteralOnNetwork(d, vms, plan, q);
    assert NetworksOk(d) && ManifestOk(vms) by { hide RosterOk, KeysOk, IdentitiesOk, InstanceOk, ManifestOk, PlanOk; }
    assert AllNics(vms)[p].bridge != AllNics(vms)[q].bridge || AllNics(vms)[p].ip != AllNics(vms)[q].ip by { hide Accepted, ManagementNic; }
    hide *;
    if AllNics(vms)[p].ip == AllNics(vms)[q].ip { SameIpSameNetwork(d, AllNics(vms)[p], AllNics(vms)[q], m, n); }
  }

  // ---------------------------------------------------------------- cohorts

  /** The literal interface of an instance. */
  function Literal(vms: seq<Vm>, vmid: nat, k: nat): Option<Nic> {
    var vm := VmById(vms, vmid);
    if vm.Some? && k < |vm.value.nics| then Some(vm.value.nics[k]) else None
  }

  lemma SameNameSameNetwork(d: Document, m: nat, n: nat)
    requires NetworksOk(d) && m < |d.networks| && n < |d.networks| && d.networks[m].vnet == d.networks[n].vnet
    ensures m == n
  {
    assert forall i, j :: 0 <= i < j < |d.networks| ==> d.networks[i].vnet != d.networks[j].vnet;
  }

  /** Two machines on one bridge belong to that network's team and user, unless the network has none. */
  lemma CohortsIsolated(d: Document, vms: seq<Vm>, plan: NetworkPlan, i: nat, k: nat, j: nat, m: nat) returns (n: nat)
    requires Accepted(d, vms, plan) && i < |d.instances| && j < |d.instances|
    requires Literal(vms, d.instances[i].vmid, k).Some? && Literal(vms, d.instances[j].vmid, m).Some?
    requires Literal(vms, d.instances[i].vmid, k).value.bridge == Literal(vms, d.instances[j].vmid, m).value.bridge
    ensures n < |d.networks| && d.networks[n].vnet == Literal(vms, d.instances[i].vmid, k).value.bridge
    ensures d.networks[n].id.team.None? || d.networks[n].id.team == d.instances[i].id.team == d.instances[j].id.team
    ensures d.networks[n].id.user.None? || d.networks[n].id.user == d.instances[i].id.user == d.instances[j].id.user
  {
    assert NetworksOk(d) && InstanceOk(d, vms, i) && InstanceOk(d, vms, j);
    hide Accepted;
    n := NicHasNetwork(d, d.instances[i], d.instances[i].nics[k], Literal(vms, d.instances[i].vmid, k).value);
    var other := NicHasNetwork(d, d.instances[j], d.instances[j].nics[m], Literal(vms, d.instances[j].vmid, m).value);
    hide InstanceOk, NicOk;
    SameNameSameNetwork(d, n, other);
  }
}
