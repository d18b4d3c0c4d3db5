/** What an accepted inventory is, over its groups: which hosts it defines, where the guests stand, and that they
    are the machines. */
module InventoryMeaning {
  import opened Wrappers
  import opened VmAllocationModel
  import opened ScenarioModel
  import opened ScenarioValidator

  /** The host is defined in the group, or in a group below it. */
  ghost predicate Within(g: Group, h: (string, HostVars))
    decreases g
  {
    h in g.hosts || exists i :: 0 <= i < |g.children| && Within(g.children[i].1, h)
  }

  lemma {:induction false} HostsExactly(g: Group, h: (string, HostVars))
    ensures h in HostsOf(g) <==> Within(g, h)
    decreases g, 1
  {
    ChildrenExactly(g, |g.children|, h);
  }

  lemma {:induction false} ChildrenExactly(g: Group, k: nat, h: (string, HostVars))
    requires k <= |g.children|
    ensures h in HostsOfAll(g, k) <==> exists i :: 0 <= i < k && Within(g.children[i].1, h)
    decreases g, 0, k
  {
    hide HostsOf, Within;
    if k > 0 {
      ChildrenExactly(g, k - 1, h);
      HostsExactly(g.children[k - 1].1, h);
    }
  }

  /** There are n groups below this one, each in the one before. */
  ghost predicate Nests(g: Group, n: nat)
    decreases n
  {
    n == 0 || exists i :: 0 <= i < |g.children| && Nests(g.children[i].1, n - 1)
  }

  /** A group stands below at most sixteen others. */
  lemma {:induction false} ShallowExactly(g: Group, depth: nat)
    requires depth <= 17
    ensures Shallow(g, depth) <==> !Nests(g, 17 - depth)
    decreases 17 - depth
  {
    if depth <= 16 {
      forall i | 0 <= i < |g.children| ensures Shallow(g.children[i].1, depth + 1) <==> !Nests(g.children[i].1, 16 - depth) {
        ShallowExactly(g.children[i].1, depth + 1);
      }
    }
  }

  /** The first group of this name. */
  ghost predicate IsChild(groups: seq<(string, Group)>, name: string, g: Group) {
    exists i :: 0 <= i < |groups| && groups[i] == (name, g) && forall k :: 0 <= k < i ==> groups[k].0 != name
  }

  lemma {:induction false} ChildExactly(groups: seq<(string, Group)>, name: string)
    ensures Child(groups, name).None? <==> forall i :: 0 <= i < |groups| ==> groups[i].0 != name
    ensures forall g :: IsChild(groups, name, g) <==> Child(groups, name) == Some(g)
  {
    if groups != [] {
      var rest := groups[1..];
      ChildExactly(rest, name);
      assert forall i :: 0 <= i < |rest| ==> rest[i] == groups[i + 1];
      if groups[0].0 != name {
        forall g ensures IsChild(groups, name, g) <==> IsChild(rest, name, g) { ChildLater(groups, name, g); }
        assert forall i :: 0 < i < |groups| ==> groups[i] == rest[i - 1];
      }
    }
  }

  lemma ChildLater(groups: seq<(string, Group)>, name: string, g: Group)
    requires groups != [] && groups[0].0 != name
    ensures IsChild(groups, name, g) <==> IsChild(groups[1..], name, g)
  {
    var rest := groups[1..];
    if IsChild(groups, name, g) {
      var i :| 0 <= i < |groups| && groups[i] == (name, g) && forall k :: 0 <= k < i ==> groups[k].0 != name;
      assert rest[i - 1] == (name, g) && forall k :: 0 <= k < i - 1 ==> rest[k] == groups[k + 1];
    }
    if IsChild(rest, name, g) {
      var i :| 0 <= i < |rest| && rest[i] == (name, g) && forall k :: 0 <= k < i ==> rest[k].0 != name;
      assert groups[i + 1] == (name, g) && forall k :: 0 < k < i + 1 ==> groups[k] == rest[k - 1];
    }
  }

  /** The group of guests: below the top-level group all. */
  ghost predicate GuestGroup(inventory: Group, g: Group) {
    exists all :: IsChild(inventory.children, "all", all) && IsChild(all.children, "scenario_guests", g)
  }

  lemma GuestsExactly(inventory: Group)
    ensures forall g :: GuestGroup(inventory, g) ==> Guests(inventory) == g.hosts
    ensures (forall g :: !GuestGroup(inventory, g)) ==> Guests(inventory) == []
  {
    ChildExactly(inventory.children, "all");
    var all := Child(inventory.children, "all");
    if all.Some? {
      ChildExactly(all.value.children, "scenario_guests");
      var guests := Child(all.value.children, "scenario_guests");
      if guests.Some? { assert IsChild(inventory.children, "all", all.value) && GuestGroup(inventory, guests.value); }
    }
  }

  /** The machine's own definition: its address, and its user where the machine names one. */
  ghost predicate Describes(h: (string, HostVars), vm: Vm) {
    h.0 == vm.name && h.1.address == Some(vm.ip) && (vm.sshUser.Some? ==> h.1.user == vm.sshUser)
  }

  ghost predicate OneNameEach(hosts: Hosts) { forall i, j :: 0 <= i < j < |hosts| ==> hosts[i].0 != hosts[j].0 }

  lemma {:induction false} GuestExactly(guests: Hosts, vm: Vm)
    requires OneNameEach(guests)
    ensures GuestOk(guests, vm) <==> exists h :: h in guests && Describes(h, vm)
  {
    LookupExactly(guests, vm.name);
    if h :| h in guests && Describes(h, vm) { assert Lookup(guests, vm.name) == Some(h.1); }
    if GuestOk(guests, vm) {
      var h := (vm.name, Lookup(guests, vm.name).value);
      assert h in guests && Describes(h, vm);
    }
  }

  lemma {:induction false} LookupExactly(hosts: Hosts, name: string)
    requires OneNameEach(hosts)
    ensures forall v :: Lookup(hosts, name) == Some(v) <==> (name, v) in hosts
  {
    if hosts != [] {
      var rest := hosts[1..];
      assert forall i, j :: 0 <= i < j < |rest| ==> rest[i] == hosts[i + 1] && rest[j] == hosts[j + 1];
      LookupExactly(rest, name);
      forall v ensures Lookup(hosts, name) == Some(v) <==> (name, v) in hosts {
        if (name, v) in rest {
          var k :| 0 < k < |hosts| && hosts[k] == (name, v);
          assert hosts[0].0 != hosts[k].0;
        }
      }
    }
  }

  ghost predicate IsVm(vms: seq<Vm>, name: string) { exists vm :: vm in vms && vm.name == name }

  /** Some group of the inventory defines this name. */
  ghost predicate Defines(inventory: Group, name: string) { exists v, i :: InGroup(inventory, i, (name, v)) }

  ghost predicate InGroup(inventory: Group, i: int, h: (string, HostVars)) {
    0 <= i < |inventory.children| && Within(inventory.children[i].1, h)
  }

  /** The inventory binds the machines: no group lies deeper than sixteen others, no name is defined twice, there is
      room for two more hosts, the guests are the machines with their addresses and users, and every other
      definition is a control host. */
  ghost predicate Binds(vms: seq<Vm>, inventory: Group) {
    var hosts := HostsOfAll(inventory, |inventory.children|);
    var guests := Guests(inventory);
    && !Nests(inventory, 18)
    && |hosts| <= |vms| + 2 && OneNameEach(hosts)
    && GuestsAre(vms, guests) && NamesAre(vms, inventory)
  }

  ghost predicate GuestsAre(vms: seq<Vm>, guests: Hosts) {
    (forall h :: h in guests ==> IsVm(vms, h.0)) && forall vm :: vm in vms ==> Described(guests, vm)
  }

  ghost predicate NamesAre(vms: seq<Vm>, inventory: Group) {
    forall name :: IsVm(vms, name) <==> Defines(inventory, name) && name != "r42-proxmox" && name != "r42-proxmox-cli"
  }

  ghost predicate Described(guests: Hosts, vm: Vm) { exists h :: h in guests && Describes(h, vm) }

  lemma NamesExactly(hosts: Hosts, name: string)
    ensures name in Names(hosts) <==> exists v :: (name, v) in hosts
  {
    if name in Names(hosts) {
      var k :| 0 <= k < |hosts| && hosts[k].0 == name;
      assert (name, hosts[k].1) in hosts;
    }
    if v :| (name, v) in hosts {
      var k :| 0 <= k < |hosts| && hosts[k] == (name, v);
    }
  }

  lemma VmNamesExactly(vms: seq<Vm>, name: string)
    ensures name in VmNames(vms) <==> IsVm(vms, name)
  {
    if IsVm(vms, name) {
      var vm :| vm in vms && vm.name == name;
      var k :| 0 <= k < |vms| && vms[k] == vm;
    }
  }

  lemma DefinesExactly(inventory: Group, name: string)
    ensures name in Names(HostsOfAll(inventory, |inventory.children|)) <==> Defines(inventory, name)
  {
    var hosts := HostsOfAll(inventory, |inventory.children|);
    NamesExactly(hosts, name);
    forall v ensures (name, v) in hosts <==> exists i :: InGroup(inventory, i, (name, v)) {
      ChildrenExactly(inventory, |inventory.children|, (name, v));
      if i :| 0 <= i < |inventory.children| && Within(inventory.children[i].1, (name, v)) { assert InGroup(inventory, i, (name, v)); }
    }
    hide HostsOfAll, InGroup;
  }

  lemma NamesAgree(vms: seq<Vm>, inventory: Group)
    ensures (Names(HostsOfAll(inventory, |inventory.children|)) - CONTROL == VmNames(vms)) <==> NamesAre(vms, inventory)
  {
    forall name
      ensures IsVm(vms, name) <==> name in VmNames(vms)
      ensures Defines(inventory, name) <==> name in Names(HostsOfAll(inventory, |inventory.children|))
    {
      VmNamesExactly(vms, name);
      DefinesExactly(inventory, name);
    }
    hide IsVm, VmNames, Defines, Names, HostsOfAll;
  }

  lemma PartsApart(a: Hosts, b: Hosts)
    requires OneNameEach(a + b)
    ensures OneNameEach(a) && OneNameEach(b)
  {
    forall i, j | 0 <= i < j < |a| ensures a[i].0 != a[j].0 { assert (a + b)[i].0 != (a + b)[j].0; }
    forall i, j | 0 <= i < j < |b| ensures b[i].0 != b[j].0 { assert (a + b)[|a| + i].0 != (a + b)[|a| + j].0; }
  }

  lemma {:induction false} ChildApart(g: Group, k: nat, i: nat)
    requires i < k <= |g.children| && OneNameEach(HostsOfAll(g, k))
    ensures OneNameEach(HostsOf(g.children[i].1))
  {
    hide HostsOf, OneNameEach;
    PartsApart(HostsOfAll(g, k - 1), HostsOf(g.children[k - 1].1));
    if i < k - 1 { ChildApart(g, k - 1, i); }
  }

  /** No two guests have a name in common when no two hosts have. */
  lemma GuestsApart(inventory: Group)
    requires OneNameEach(HostsOfAll(inventory, |inventory.children|))
    ensures OneNameEach(Guests(inventory))
  {
    GuestsExactly(inventory);
    if g :| GuestGroup(inventory, g) {
      var all :| IsChild(inventory.children, "all", all) && IsChild(all.children, "scenario_guests", g);
      var i: nat :| i < |inventory.children| && inventory.children[i] == ("all", all);
      var k: nat :| k < |all.children| && all.children[k] == ("scenario_guests", g);
      ChildApart(inventory, |inventory.children|, i);
      PartsApart(all.hosts, HostsOfAll(all, |all.children|));
      ChildApart(all, |all.children|, k);
      PartsApart(g.hosts, HostsOfAll(g, |g.children|));
    }
  }

  lemma GuestNames(vms: seq<Vm>, guests: Hosts)
    requires OneNameEach(guests)
    ensures Names(guests) == VmNames(vms) && (forall i :: 0 <= i < |vms| ==> GuestOk(guests, vms[i])) <==> GuestsAre(vms, guests)
  {
    forall vm ensures GuestOk(guests, vm) <==> Described(guests, vm) { GuestExactly(guests, vm); }
    forall name ensures name in VmNames(vms) <==> IsVm(vms, name) { VmNamesExactly(vms, name); }
    forall vm ensures Described(guests, vm) ==> vm.name in Names(guests) {
      NamesExactly(guests, vm.name);
      if h :| h in guests && Describes(h, vm) { assert (vm.name, h.1) in guests; }
    }
    forall h | h in guests ensures h.0 in Names(guests) { assert (h.0, h.1) in guests; NamesExactly(guests, h.0); }
    hide GuestOk, Described;
    forall name | name in Names(guests) && forall h :: h in guests ==> IsVm(vms, h.0) ensures name in VmNames(vms) {
      NamesExactly(guests, name);
    }
  }

  lemma NestsExactly(inventory: Group)
    ensures (forall i :: 0 <= i < |inventory.children| ==> Shallow(inventory.children[i].1, 0)) <==> !Nests(inventory, 18)
  {
    forall i | 0 <= i < |inventory.children| ensures Shallow(inventory.children[i].1, 0) <==> !Nests(inventory.children[i].1, 17) {
      ShallowExactly(inventory.children[i].1, 0);
    }
    NestsStep(inventory, 18);
    hide Shallow, Nests;
  }

  lemma NestsStep(g: Group, n: nat)
    requires n > 0
    ensures Nests(g, n) <==> exists i :: 0 <= i < |g.children| && Nests(g.children[i].1, n - 1)
  {}

  /** The inventory check accepts exactly the inventories that bind the machines. */
  lemma BindsExactly(vms: seq<Vm>, inventory: Group)
    ensures InventoryOk(vms, inventory) <==> Binds(vms, inventory)
  {
    hide Literal, Shallow, Nests, HostsOfAll, Guests, GuestOk, GuestsAre, NamesAre, OneNameEach, Names, VmNames;
    NestsExactly(inventory);
    NamesAgree(vms, inventory);
    LiteralExactly(HostsOfAll(inventory, |inventory.children|), |vms| + 2);
    if OneNameEach(HostsOfAll(inventory, |inventory.children|)) {
      GuestsApart(inventory);
      GuestNames(vms, Guests(inventory));
    }
  }

  lemma LiteralExactly(hosts: Hosts, limit: nat)
    ensures Literal(hosts, limit) <==> |hosts| <= limit && OneNameEach(hosts)
  {}
}
