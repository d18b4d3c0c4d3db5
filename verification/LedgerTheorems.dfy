/** Consequences over whole runs: expiry is final, claims last until released, and a transfer
    conserves exactly the identifiers and addresses that were owned. */
module LedgerTheorems {
  import opened Wrappers
  import opened FirstFit
  import opened VmAllocationModel
  import opened VmAllocationSoundness
  import opened VmAllocationTheorems
  import opened VmAllocationRenewal
  import opened LedgerModel
  import opened LedgerSafety

  ghost predicate LiveId(l: Ledger, id: nat) { exists x :: Live(l, x) && x.id == id }

  /** No step makes a lease identifier live that was used before and is not live. */
  lemma NextRevivesNothing(l: Ledger, e: Event, id: nat)
    requires KeysOk(l) && id < l.nextId && !LiveId(l, id)
    ensures id < Next(l, e).nextId && !LiveId(Next(l, e), id)
  {
    hide PlanRequest, Pending, ValidRequest, Plannable, AllTaken, OthersFor, Conflicts, AnyProtected, NoDuplicates, DraftLease, ValidOverrides;
    var l' := Next(l, e);
    forall x | Live(l', x) && x.id == id ensures false {}
  }

  /** An expired or removed lease stays dead in every continuation of the run. */
  lemma {:induction false} ExpiredStaysExpired(l: Ledger, events: seq<Event>, id: nat)
    requires Inv(l) && id < l.nextId && !LiveId(l, id)
    ensures Inv(Run(l, events)) && id < Run(l, events).nextId && !LiveId(Run(l, events), id)
  {
    hide Inv, LiveId;
    if events != [] {
      ExpiredStaysExpired(l, events[..|events| - 1], id);
      var before := Run(l, events[..|events| - 1]);
      assert KeysOk(before) by { InvMeansKeys(before); }
      NextKeeps(before, events[|events| - 1]);
      NextRevivesNothing(before, events[|events| - 1], id);
    }
  }

  lemma InvMeansKeys(l: Ledger)
    requires Inv(l)
    ensures KeysOk(l)
  {}

  lemma NextKeepsClaim(l: Ledger, e: Event, c: Claim)
    requires c in l.claims && !(e.DoUnbind? && e.d.id == c.deployment)
    ensures c in Next(l, e).claims
  {
    hide PlanRequest, Pending, ValidRequest, Plannable, AllTaken, OthersFor, Conflicts, AnyProtected, NoDuplicates, DraftLease, ValidOverrides;
  }

  /** A committed claim outlives everything but its own release. */
  lemma {:induction false} ClaimLasts(l: Ledger, events: seq<Event>, c: Claim)
    requires c in l.claims
    requires forall e :: e in events && e.DoUnbind? ==> e.d.id != c.deployment
    ensures c in Run(l, events).claims
  {
    hide Next;
    if events != [] {
      var e := events[|events| - 1];
      assert forall b :: b in events[..|events| - 1] ==> b in events;
      ClaimLasts(l, events[..|events| - 1], c);
      assert e in events;
      NextKeepsClaim(Run(l, events[..|events| - 1]), e, c);
    }
  }

  /** Not the lease's own owner asking for it, and not its host being forgotten. */
  ghost predicate ByAnother(e: Event, x: Lease) {
    match e
    case DoReserve(host, r, owner, _, _) => !(owner == x.owner && host.id == x.host && r.project == x.project)
    case DoRelease(id, owner, hostId) => !(id == x.id && owner == x.owner && hostId == x.host)
    case DoBind(_, _, draft) => draft.None? || draft.value.id != x.id || draft.value.token != Some(x.owner)
    case Forget(hostId) => hostId != x.host
    case _ => true
  }

  lemma NextLeavesLease(l: Ledger, e: Event, x: Lease)
    requires KeysOk(l) && Live(l, x) && ByAnother(e, x) && x.expires > Next(l, e).now
    ensures Live(Next(l, e), x)
  {
    hide PlanRequest, Pending, ValidRequest, Plannable, AllTaken, OthersFor, Conflicts, AnyProtected, NoDuplicates, Mapping, ValidOverrides;
  }

  lemma ClockStep(l: Ledger, e: Event)
    ensures l.now <= Next(l, e).now
  {
    hide PlanRequest, Pending, ValidRequest, Plannable, AllTaken, OthersFor, Conflicts, AnyProtected, NoDuplicates, DraftLease, ValidOverrides;
  }

  /** Until it expires a lease stays exactly as it is, whatever other authors do. */
  lemma {:induction false} LeaseLasts(l: Ledger, events: seq<Event>, x: Lease)
    requires Inv(l) && Live(l, x) && x.expires > Run(l, events).now && forall e :: e in events ==> ByAnother(e, x)
    ensures Inv(Run(l, events)) && Live(Run(l, events), x)
  {
    hide Inv, Next, ByAnother, Live;
    if events != [] {
      var n := |events| - 1;
      var before := Run(l, events[..n]);
      assert forall e :: e in events[..n] ==> e in events;
      ClockStep(before, events[n]);
      LeaseLasts(l, events[..n], x);
      NextKeeps(before, events[n]);
      InvMeansKeys(before);
      assert events[n] in events;
      NextLeavesLease(before, events[n], x);
    }
  }

  // ---------------------------------------------------------------- transfer

  /** Equal mappings own equal identifiers and addresses. */
  lemma MappingOwns(a: seq<VmRow>, b: seq<VmRow>)
    requires Mapping(a) == Mapping(b)
    ensures Ids(a) == Ids(b) && Ips(a) == Ips(b)
  {
    MappingCovers(a, b);
    MappingCovers(b, a);
  }

  lemma MappingCovers(a: seq<VmRow>, b: seq<VmRow>)
    requires Mapping(a) == Mapping(b)
    ensures Ids(a) <= Ids(b) && Ips(a) <= Ips(b)
  {
    forall v | 0 <= v < |a|
      ensures exists u :: 0 <= u < |b| && b[u].vmid == a[v].vmid && Plugs(b[u].nics) == Plugs(a[v].nics)
    {
      MappingAt(a, v);
      MappingFrom(b, (a[v].vmid, Plugs(a[v].nics)));
    }
    hide Mapping;
    forall c | c in Ids(a) ensures c in Ids(b) {
      var v :| 0 <= v < |a| && c == ("", a[v].vmid);
      var u :| 0 <= u < |b| && b[u].vmid == a[v].vmid && Plugs(b[u].nics) == Plugs(a[v].nics);
    }
    forall c | c in Ips(a) ensures c in Ips(b) {
      var v, j :| 0 <= v < |a| && 0 <= j < |a[v].nics| && c == (a[v].nics[j].bridge, a[v].nics[j].ip);
      var u :| 0 <= u < |b| && b[u].vmid == a[v].vmid && Plugs(b[u].nics) == Plugs(a[v].nics);
      PlugsCover(a[v].nics, b[u].nics, j);
      IpsHas(b, u);
    }
  }

  lemma MappingAt(a: seq<VmRow>, v: nat)
    requires v < |a|
    ensures (a[v].vmid, Plugs(a[v].nics)) in Mapping(a)
  {
    var s := seq(|a|, v requires 0 <= v < |a| => (a[v].vmid, Plugs(a[v].nics)));
    assert s[v] in multiset(s);
  }

  lemma MappingFrom(b: seq<VmRow>, m: (nat, multiset<Plug>))
    requires m in Mapping(b)
    ensures exists u :: 0 <= u < |b| && b[u].vmid == m.0 && Plugs(b[u].nics) == m.1
  {
    var s := seq(|b|, v requires 0 <= v < |b| => (b[v].vmid, Plugs(b[v].nics)));
    assert m in s;
    var u :| 0 <= u < |s| && s[u] == m;
  }

  lemma PlugsCover(a: seq<NicRow>, b: seq<NicRow>, j: nat)
    requires Plugs(a) == Plugs(b) && j < |a|
    ensures (a[j].bridge, a[j].ip) in NicPairs(b)
  {
    var s := seq(|a|, j requires 0 <= j < |a| => (a[j].index, a[j].bridge, a[j].ip));
    var t := seq(|b|, j requires 0 <= j < |b| => (b[j].index, b[j].bridge, b[j].ip));
    assert s[j] in multiset(s) && s[j] in t;
    var i :| 0 <= i < |t| && t[i] == s[j];
    assert (b[i].bridge, b[i].ip) == (a[j].bridge, a[j].ip);
  }

  /** Somebody owns the identifier, or the bridge address. */
  ghost predicate OwnsId(l: Ledger, c: (string, nat)) {
    (exists x :: Live(l, x) && c in Ids(x.rows)) || (exists c' :: c' in l.claims && c in Ids(c'.rows))
  }

  ghost predicate OwnsIp(l: Ledger, c: (string, nat)) {
    (exists x :: Live(l, x) && c in Ips(x.rows)) || (exists c' :: c' in l.claims && c in Ips(c'.rows))
  }

  ghost predicate Transfers(l: Ledger, l': Ledger, x: Lease, c: Claim) {
    && Live(l, x) && c !in l.claims && c in l'.claims && Mapping(c.rows) == Mapping(x.rows) && c.source == Some(x.rows)
    && (forall y :: y in l'.leases <==> y in l.leases && y.id != x.id)
    && (forall b :: b in l'.claims <==> b in l.claims || b == c)
    && l'.now == l.now
  }

  /** A first binding with a draft either changes nothing and says why, or turns exactly that live
      lease into the claim. */
  lemma BindTransfers(l: Ledger, d: Deployment, rows: seq<VmRow>, draft: Draft)
    requires ClaimOf(l.claims, d.id).None?
    ensures BindTx(l, d, rows, Some(draft)).1.Some? ==> BindTx(l, d, rows, Some(draft)).0 == l
    ensures BindTx(l, d, rows, Some(draft)).1.None? ==>
              exists x: Lease, c: Claim :: x.id == draft.id && c.deployment == d.id && c.rows == rows
                             && Transfers(l, BindTx(l, d, rows, Some(draft)).0, x, c)
  {
    hide NoDuplicates, AnyProtected, Conflicts, ValidOverrides, Mapping;
    var (l', refused) := BindTx(l, d, rows, Some(draft));
    if refused.None? {
      var x := ById(l.leases, draft.id).value;
      var c := l'.claims[|l.claims|];
      assert Transfers(l, l', x, c);
    }
  }

  /** A transfer conserves exactly what is owned, machine by machine and address by address, and a
      consumed lease is no longer live. */
  lemma TransferConserves(l: Ledger, l': Ledger, x: Lease, c: Claim)
    requires KeysOk(l) && Transfers(l, l', x, c)
    ensures Ids(c.rows) == Ids(x.rows) && Ips(c.rows) == Ips(x.rows) && !LiveId(l', x.id)
    ensures forall p :: OwnsId(l, p) <==> OwnsId(l', p)
    ensures forall p :: OwnsIp(l, p) <==> OwnsIp(l', p)
  {
    hide Ids, Ips, Mapping;
    MappingOwns(c.rows, x.rows);
    assert forall y :: Live(l, y) <==> Live(l', y) || y == x;
  }

  // ---------------------------------------------------------------- renewal against a moving ledger

  lemma {:induction false} AllTakenFrom(occupied: Taken, others: seq<seq<VmRow>>, mine: seq<VmRow>)
    requires Ids(mine) !! occupied.ids && Ips(mine) !! occupied.ips
    requires forall rows :: rows in others ==> !Overlap(mine, rows)
    ensures Ids(mine) !! AllTaken(occupied, others).ids && Ips(mine) !! AllTaken(occupied, others).ips
  {
    hide Ids, Ips;
    if others != [] {
      var n := |others| - 1;
      assert others[n] in others;
      AllTakenFrom(occupied, others[..n], mine);
      assert forall c :: c in Ids(mine) && c in Ids(others[n]) ==> c in Ids(mine) * Ids(others[n]);
      assert forall c :: c in Ips(mine) && c in Ips(others[n]) ==> c in Ips(mine) * Ips(others[n]);
    }
  }

  lemma OthersDisjoint(l: Ledger, x: Lease)
    requires Inv(l) && Live(l, x)
    ensures forall rows :: rows in OthersFor(l, Some(x)) ==> !Overlap(x.rows, rows)
  {
    hide Ids, Ips, Overlap, Solid;
    forall rows | rows in OthersFor(l, Some(x)) ensures !Overlap(x.rows, rows) {
      var rest := Without(Unexpired(l.leases, l.now), x.id);
      if rows in RowsOfLeases(rest) {
        var y :| y in rest && y.rows == rows;
      } else {
        var c :| c in l.claims && c.rows == rows;
      }
    }
  }

  /** Whatever the others committed meanwhile: renewing an unchanged request for a live lease keeps every
      identifier and address, unless the audit itself finds one of them in use. */
  lemma RenewalKeepsRows(l: Ledger, x: Lease, host: Host, r: Request, occupied: Taken, free: set<nat>,
                         taken0: Taken, current0: seq<VmRow>)
    requires Inv(l) && Live(l, x) && x.project == r.project && x.host == host.id && x.node == host.node
    requires ValidRequest(r) && Plannable(r) && host.id in l.hosts && l.hosts[host.id] == host
    requires PlanRequest(r, host.overrides, taken0, current0) == Ok(x.rows)
    requires Ids(x.rows) !! occupied.ids && Ips(x.rows) !! occupied.ips
    ensures var outcome := ReserveTx(l, host, r, x.owner, occupied, free).1;
            && (outcome.Saved? ==> outcome.lease.rows == x.rows && outcome.lease.id == x.id)
            && (outcome.Unproven? ==> outcome.pending == Pending(x.rows, free))
            && !outcome.Refused?
  {
    var current := OfProject(Unexpired(l.leases, l.now), r.project);
    assert current == Some(x) by { hide Disjoint, Solid; }
    hide Inv, PlanRequest, AllTaken, OthersFor, Ids, Ips, Overlap, ValidRequest, Plannable, NetworkMap;
    OthersDisjoint(l, x);
    AllTakenFrom(occupied, OthersFor(l, current), x.rows);
    ValidMeansAllValid(r);
    RenewalFixedPoint(r, host.overrides, taken0, current0, AllTaken(occupied, OthersFor(l, current)));
  }
}
