/** What the ledger's transactions answer and write, over the plain fields of leases, claims and hosts. */
module LedgerAnswers {
  import opened Wrappers
  import opened FirstFit
  import opened VmAllocationModel
  import opened VmAllocationSoundness
  import opened VmAllocationTheorems
  import opened LedgerModel
  import opened LedgerSafety
  import VmAllocationMeaning

  // ---------------------------------------------------------------- who holds what

  /** The two assignments share an identifier, or an address on one bridge. */
  ghost predicate Share(a: seq<VmRow>, b: seq<VmRow>) {
    (exists u, v :: 0 <= u < |a| && 0 <= v < |b| && a[u].vmid == b[v].vmid)
    || exists u, i, v, j :: 0 <= u < |a| && 0 <= i < |a[u].nics| && 0 <= v < |b| && 0 <= j < |b[v].nics|
                            && a[u].nics[i].bridge == b[v].nics[j].bridge && a[u].nics[i].ip == b[v].nics[j].ip
  }

  lemma ShareIds(a: seq<VmRow>, b: seq<VmRow>)
    ensures Ids(a) * Ids(b) != {} <==> exists u, v :: 0 <= u < |a| && 0 <= v < |b| && a[u].vmid == b[v].vmid
  {
    if c :| c in Ids(a) * Ids(b) {
      var u :| 0 <= u < |a| && c == ("", a[u].vmid);
      var v :| 0 <= v < |b| && c == ("", b[v].vmid);
    }
    if u, v :| 0 <= u < |a| && 0 <= v < |b| && a[u].vmid == b[v].vmid {
      assert ("", a[u].vmid) in Ids(a) && ("", b[v].vmid) in Ids(b);
      assert ("", a[u].vmid) in Ids(a) * Ids(b);
    }
  }

  lemma ShareIps(a: seq<VmRow>, b: seq<VmRow>)
    ensures Ips(a) * Ips(b) != {} <==>
            exists u, i, v, j :: 0 <= u < |a| && 0 <= i < |a[u].nics| && 0 <= v < |b| && 0 <= j < |b[v].nics|
                                 && a[u].nics[i].bridge == b[v].nics[j].bridge && a[u].nics[i].ip == b[v].nics[j].ip
  {
    if c :| c in Ips(a) * Ips(b) {
      var u, i :| 0 <= u < |a| && 0 <= i < |a[u].nics| && c == (a[u].nics[i].bridge, a[u].nics[i].ip);
      var v, j :| 0 <= v < |b| && 0 <= j < |b[v].nics| && c == (b[v].nics[j].bridge, b[v].nics[j].ip);
    }
    if u, i, v, j :| 0 <= u < |a| && 0 <= i < |a[u].nics| && 0 <= v < |b| && 0 <= j < |b[v].nics|
                     && a[u].nics[i].bridge == b[v].nics[j].bridge && a[u].nics[i].ip == b[v].nics[j].ip {
      var c := (a[u].nics[i].bridge, a[u].nics[i].ip);
      assert c in Ips(a) && c in Ips(b);
      assert c in Ips(a) * Ips(b);
    }
  }

  lemma ShareExactly(a: seq<VmRow>, b: seq<VmRow>)
    ensures Overlap(a, b) <==> Share(a, b)
  {
    ShareIds(a, b);
    ShareIps(a, b);
    hide Ids, Ips;
  }

  /** In every run no two different live leases, no two claims, and no live lease and claim share an
      identifier or an address on one bridge; and none holds one twice. */
  lemma NobodyShares(events: seq<Event>)
    ensures var l := Run(EMPTY_LEDGER, events);
            && (forall x, y :: x in l.leases && y in l.leases && x.expires > l.now && y.expires > l.now && x != y ==> !Share(x.rows, y.rows))
            && (forall x, c :: x in l.leases && x.expires > l.now && c in l.claims ==> !Share(x.rows, c.rows))
            && (forall c, d :: c in l.claims && d in l.claims && c != d ==> !Share(c.rows, d.rows))
            && (forall x :: x in l.leases && x.expires > l.now ==> Single(x.rows)) && (forall c :: c in l.claims ==> Single(c.rows))
  {
    RunDisjoint(events);
    hide Run, KeysOk, Overlap, Share, Exclusive, Single;
    forall a, b ensures Overlap(a, b) <==> Share(a, b) { ShareExactly(a, b); }
    forall a ensures Exclusive(a) ==> Single(a) { if Exclusive(a) { SingleIfExclusive(a); } }
  }

  /** No identifier and no address on one bridge appears twice. */
  ghost predicate Single(rows: seq<VmRow>) {
    && (forall u, v :: 0 <= u < v < |rows| ==> rows[u].vmid != rows[v].vmid)
    && forall u, i, v, j :: 0 <= u < |rows| && 0 <= i < |rows[u].nics| && 0 <= v < |rows| && 0 <= j < |rows[v].nics| && (u, i) != (v, j) ==>
         rows[u].nics[i].bridge != rows[v].nics[j].bridge || rows[u].nics[i].ip != rows[v].nics[j].ip
  }

  lemma SingleIfExclusive(rows: seq<VmRow>)
    requires Exclusive(rows)
    ensures Single(rows)
  {
    VmAllocationMeaning.PairsDiffer(rows);
  }

  lemma ExclusiveIfSingle(rows: seq<VmRow>)
    requires Single(rows)
    ensures Exclusive(rows)
  {
    forall u, i, v, j | 0 <= u < v < |rows| && 0 <= i < |rows[u].nics| && 0 <= j < |rows[v].nics|
      ensures (rows[u].nics[i].bridge, rows[u].nics[i].ip) != (rows[v].nics[j].bridge, rows[v].nics[j].ip)
    {
      assert (u, i) != (v, j);
    }
    forall v, i, j | 0 <= v < |rows| && 0 <= i < j < |rows[v].nics|
      ensures (rows[v].nics[i].bridge, rows[v].nics[i].ip) != (rows[v].nics[j].bridge, rows[v].nics[j].ip)
    {
      assert (v, i) != (v, j);
    }
  }

  // ---------------------------------------------------------------- reserving

  /** A live lease of the project in other hands, or for another host. */
  ghost predicate Foreign(l: Ledger, project: string, owner: string, host: string) {
    exists x :: x in l.leases && x.expires > l.now && x.project == project && (x.owner != owner || x.host != host)
  }

  ghost predicate OwnLease(l: Ledger, x: Lease, project: string) { x in l.leases && x.expires > l.now && x.project == project }

  /** What a reserve transaction answers, check by check. */
  ghost predicate Decides(l: Ledger, host: Host, r: Request, owner: string, occupied: Taken, free: set<nat>, l': Ledger, o: Outcome)
    requires Plannable(r)
  {
    if Foreign(l, r.project, owner, host.id) then l' == l && o == Refused(Ownership)
    else if exists x :: OwnLease(l, x, r.project) && x.node != host.node then l' == l && o == Refused(BadTarget)
    else if (forall x :: !OwnLease(l, x, r.project)) && |Unexpired(l.leases, l.now)| >= 1000 then l' == l && o == Refused(TooManyLeases)
    else if host.id !in l.hosts || l.hosts[host.id] != host then l' == l && o == Refused(BadTarget)
    else
      exists others: seq<seq<VmRow>>, stored: seq<VmRow> :: Considered(l, r.project, others, stored) &&
        match PlanRequest(r, host.overrides, AllTaken(occupied, others), stored)
        case Err(e) => l' == l && o == Refused(Planning(e))
        case Ok(rows) =>
          if exists v :: 0 <= v < |rows| && rows[v].vmid !in free
          then l' == l && o.Unproven? && o.pending != [] && forall v :: v in o.pending <==> v !in free && exists k :: 0 <= k < |rows| && rows[k].vmid == v
          else o.Saved? && Writes(l, l', o.lease, host, r, owner, rows)
  }

  /** What the planner is told: the rows of every claim and of every live lease of another project, and those
      of the project's own live lease. */
  ghost predicate Considered(l: Ledger, project: string, others: seq<seq<VmRow>>, stored: seq<VmRow>) {
    && (forall rows :: rows in others <==> (exists c :: c in l.claims && c.rows == rows)
                                           || exists x :: x in l.leases && x.expires > l.now && x.project != project && x.rows == rows)
    && (forall x :: OwnLease(l, x, project) ==> stored == x.rows) && ((forall x :: !OwnLease(l, x, project)) ==> stored == [])
  }

  /** The saved lease and everything else that the transaction writes. */
  ghost predicate Writes(l: Ledger, l': Ledger, x: Lease, host: Host, r: Request, owner: string, rows: seq<VmRow>) {
    && x.project == r.project && x.owner == owner && x.host == host.id && x.node == host.node && x.apiUrl == host.apiUrl
    && x.rows == rows && x.expires == l.now + r.leaseSeconds
    && (forall y :: OwnLease(l, y, r.project) ==> x.id == y.id && l'.nextId == l.nextId)
    && ((forall y :: !OwnLease(l, y, r.project)) ==> x.id == l.nextId && l'.nextId == l.nextId + 1)
    && (forall y :: y in l'.leases <==> y == x || (y in l.leases && y.expires > l.now && y.project != r.project))
    && l'.claims == l.claims && l'.hosts == l.hosts && l'.now == l.now
  }

  lemma OwnIsFound(l: Ledger, project: string)
    requires KeysOk(l)
    ensures var found := OfProject(Unexpired(l.leases, l.now), project);
            && (found.Some? <==> exists x :: OwnLease(l, x, project)) && (found.Some? ==> OwnLease(l, found.value, project))
            && forall x :: OwnLease(l, x, project) ==> found == Some(x)
  {
    var live := Unexpired(l.leases, l.now);
    var found := OfProject(live, project);
    assert forall x :: OwnLease(l, x, project) ==> x in live && x.project == project;
    if found.Some? { assert OwnLease(l, found.value, project); }
  }

  lemma OthersConsidered(l: Ledger, project: string)
    requires KeysOk(l)
    ensures var current := OfProject(Unexpired(l.leases, l.now), project);
            Considered(l, project, OthersFor(l, current), StoredRows(current))
  {
    var current := OfProject(Unexpired(l.leases, l.now), project);
    var rest := RestOf(l, current);
    RestMeans(l, project);
    OthersAre(l, current);
    StoredMeans(l, project);
    hide StoredRows, OwnLease, KeysOk, Unexpired, Without, OfProject, OthersFor, RestOf;
    forall rows ensures rows in OthersFor(l, current) <==>
        (exists c :: c in l.claims && c.rows == rows)
        || exists x :: x in l.leases && x.expires > l.now && x.project != project && x.rows == rows {
      assert rows in OthersFor(l, current) <==> rows in RowsOfLeases(rest) || rows in RowsOfClaims(l.claims);
    }
  }

  lemma StoredMeans(l: Ledger, project: string)
    requires KeysOk(l)
    ensures var stored := StoredRows(OfProject(Unexpired(l.leases, l.now), project));
            && (forall x :: OwnLease(l, x, project) ==> stored == x.rows) && ((forall x :: !OwnLease(l, x, project)) ==> stored == [])
  {
    OwnIsFound(l, project);
    hide KeysOk, OwnLease, Unexpired, OfProject;
  }

  function RestOf(l: Ledger, current: Option<Lease>): seq<Lease> {
    var live := Unexpired(l.leases, l.now);
    if current.Some? then Without(live, current.value.id) else live
  }

  lemma OthersAre(l: Ledger, current: Option<Lease>)
    ensures OthersFor(l, current) == RowsOfLeases(RestOf(l, current)) + RowsOfClaims(l.claims)
  {}

  lemma RestMeans(l: Ledger, project: string)
    requires KeysOk(l)
    ensures forall x :: x in RestOf(l, OfProject(Unexpired(l.leases, l.now), project)) <==>
              x in l.leases && x.expires > l.now && x.project != project
  {
    OwnIsFound(l, project);
  }

  /** The planner's answer in this transaction. */
  function PlanFor(l: Ledger, host: Host, r: Request, occupied: Taken, current: Option<Lease>): Result<seq<VmRow>, AllocError>
    requires Plannable(r)
  {
    PlanRequest(r, host.overrides, AllTaken(occupied, OthersFor(l, current)), StoredRows(current))
  }

  function Saving(l: Ledger, host: Host, r: Request, owner: string, current: Option<Lease>, rows: seq<VmRow>): (Ledger, Lease) {
    var live := Unexpired(l.leases, l.now);
    if current.Some? then
      var x := current.value.(rows := rows, apiUrl := host.apiUrl, expires := l.now + r.leaseSeconds);
      (l.(leases := Without(live, x.id) + [x]), x)
    else
      var x := Lease(l.nextId, r.project, host.id, host.node, host.apiUrl, owner, rows, l.now + r.leaseSeconds);
      (l.(leases := live + [x], nextId := l.nextId + 1), x)
  }

  lemma ReserveIs(l: Ledger, host: Host, r: Request, owner: string, occupied: Taken, free: set<nat>)
    requires Plannable(r)
    ensures var current := OfProject(Unexpired(l.leases, l.now), r.project);
            var plan := PlanFor(l, host, r, occupied, current);
            ReserveTx(l, host, r, owner, occupied, free) ==
              if current.Some? && (current.value.owner != owner || current.value.host != host.id) then (l, Refused(Ownership))
              else if current.Some? && current.value.node != host.node then (l, Refused(BadTarget))
              else if current.None? && |Unexpired(l.leases, l.now)| >= 1000 then (l, Refused(TooManyLeases))
              else if host.id !in l.hosts || l.hosts[host.id] != host then (l, Refused(BadTarget))
              else if plan.Err? then (l, Refused(Planning(plan.error)))
              else if Pending(plan.value, free) != [] then (l, Unproven(Pending(plan.value, free)))
              else var (l', x) := Saving(l, host, r, owner, current, plan.value); (l', Saved(x))
  {
    hide PlanRequest, AllTaken, OthersFor, Plannable, Pending, Unexpired, OfProject, Without;
  }

  lemma SavingWrites(l: Ledger, host: Host, r: Request, owner: string, rows: seq<VmRow>)
    requires KeysOk(l)
    requires var current := OfProject(Unexpired(l.leases, l.now), r.project);
             current.Some? ==> current.value.owner == owner && current.value.host == host.id && current.value.node == host.node
    ensures var current := OfProject(Unexpired(l.leases, l.now), r.project);
            var (l', x) := Saving(l, host, r, owner, current, rows);
            Writes(l, l', x, host, r, owner, rows)
  {
    OwnIsFound(l, r.project);
  }

  lemma PendingMeans(rows: seq<VmRow>, free: set<nat>)
    ensures Pending(rows, free) != [] <==> exists v :: 0 <= v < |rows| && rows[v].vmid !in free
  {
    if v :| 0 <= v < |rows| && rows[v].vmid !in free { assert rows[v].vmid in Pending(rows, free); }
    if Pending(rows, free) != [] { assert Pending(rows, free)[0] in Pending(rows, free); }
  }

  /** Every reserve transaction answers check by check, and a saved lease says exactly whose it is, what it
      holds and until when; nothing but expired leases and the project's own is touched. */
  lemma ReserveDecides(l: Ledger, host: Host, r: Request, owner: string, occupied: Taken, free: set<nat>)
    requires KeysOk(l) && Plannable(r)
    ensures Decides(l, host, r, owner, occupied, free, ReserveTx(l, host, r, owner, occupied, free).0, ReserveTx(l, host, r, owner, occupied, free).1)
  {
    hide KeysOk, ReserveTx, PlanRequest, AllTaken, OthersFor, StoredRows, Plannable, Considered, Writes, Saving, Unexpired, OfProject, Pending, OwnLease;
    var current := OfProject(Unexpired(l.leases, l.now), r.project);
    OwnIsFound(l, r.project);
    ForeignIsFound(l, r.project, owner, host.id);
    OthersConsidered(l, r.project);
    ReserveIs(l, host, r, owner, occupied, free);
    var plan := PlanFor(l, host, r, occupied, current);
    if plan.Ok? { PendingMeans(plan.value, free); }
    if current.Some? ==> current.value.owner == owner && current.value.host == host.id && current.value.node == host.node {
      if plan.Ok? { SavingWrites(l, host, r, owner, plan.value); }
    }
  }

  lemma ForeignIsFound(l: Ledger, project: string, owner: string, host: string)
    requires KeysOk(l)
    ensures var found := OfProject(Unexpired(l.leases, l.now), project);
            Foreign(l, project, owner, host) <==> found.Some? && (found.value.owner != owner || found.value.host != host)
  {
    OwnIsFound(l, project);
    hide KeysOk, Unexpired, OfProject;
    if x :| x in l.leases && x.expires > l.now && x.project == project && (x.owner != owner || x.host != host) {
      assert OwnLease(l, x, project);
    }
  }

  // ---------------------------------------------------------------- binding

  /** The draft lease that a binding may consume: live, of this owner, host and target, with this mapping. */
  ghost predicate Consumable(l: Ledger, x: Lease, draft: Draft, host: Host, rows: seq<VmRow>) {
    && x in l.leases && x.id == draft.id && x.expires > l.now && draft.token == Some(x.owner) && x.host == host.id
    && x.apiUrl == host.apiUrl && x.node == host.node && Mapping(x.rows) == Mapping(rows)
  }

  /** The rows meet a protected identifier, somebody's claim, or another live lease. */
  ghost predicate Blocked(l: Ledger, host: Host, rows: seq<VmRow>, draft: Option<Draft>) {
    || (exists v :: 0 <= v < |rows| && VmAllocationMeaning.Barred(rows[v].vmid, host.overrides))
    || (exists c :: c in l.claims && Share(rows, c.rows))
    || exists x :: x in l.leases && x.expires > l.now && (draft.None? || x.id != draft.value.id) && Share(rows, x.rows)
  }

  /** Exactly when a deployment may be bound to these rows: for a deployment with a claim, when its target and
      its rows are those of the claim; for a new one, when its draft, if any, can be consumed and nothing blocks. */
  ghost predicate MayBind(l: Ledger, d: Deployment, rows: seq<VmRow>, draft: Option<Draft>) {
    && Single(rows) && d.host in l.hosts
    && var host := l.hosts[d.host];
    if exists c :: c in l.claims && c.deployment == d.id then
      forall c :: c in l.claims && c.deployment == d.id ==>
        c.host == d.host && c.apiUrl == host.apiUrl && c.node == host.node && c.sha == d.sha && c.rows == rows
    else
      && (draft.Some? ==> exists x :: Consumable(l, x, draft.value, host, rows))
      && ValidOverrides(host.overrides) && !Blocked(l, host, rows, draft)
  }

  /** What a binding leaves behind. */
  ghost predicate Bound(l: Ledger, l': Ledger, d: Deployment, rows: seq<VmRow>, draft: Option<Draft>)
    requires d.host in l.hosts
  {
    var host := l.hosts[d.host];
    if exists c :: c in l.claims && c.deployment == d.id then l' == l
    else
      && l'.now == l.now && l'.hosts == l.hosts && l'.nextId == l.nextId
      && (forall x :: x in l'.leases <==> x in l.leases && (draft.None? || x.id != draft.value.id))
      && exists c :: (forall b :: b in l'.claims <==> b in l.claims || b == c)
           && c.deployment == d.id && c.sha == d.sha && c.host == host.id && c.apiUrl == host.apiUrl && c.node == host.node && c.rows == rows
           && (draft.None? ==> c.source.None?)
           && (draft.Some? ==> exists x :: Consumable(l, x, draft.value, host, rows) && c.source == Some(x.rows))
  }

  lemma ClaimIsFound(l: Ledger, d: Deployment)
    requires KeysOk(l)
    ensures var found := ClaimOf(l.claims, d.id);
            && (found.Some? <==> exists c :: c in l.claims && c.deployment == d.id)
            && forall c :: c in l.claims && c.deployment == d.id ==> found == Some(c)
  {
    var found := ClaimOf(l.claims, d.id);
    if found.Some? { assert found.value in l.claims && found.value.deployment == d.id; }
  }

  lemma DraftIsFound(l: Ledger, draft: Option<Draft>, host: Host, rows: seq<VmRow>)
    requires KeysOk(l)
    ensures var lease := DraftLease(l, draft, host, rows);
            && (lease.Ok? <==> draft.None? || exists x :: Consumable(l, x, draft.value, host, rows))
            && (lease.Ok? ==> (lease.value.Some? <==> draft.Some?))
            && (lease.Ok? && draft.Some? ==> Consumable(l, lease.value.value, draft.value, host, rows))
  {
    hide Mapping;
    if draft.Some? {
      var found := ById(l.leases, draft.value.id);
      if x :| Consumable(l, x, draft.value, host, rows) { assert found == Some(x); }
      if DraftLease(l, draft, host, rows).Ok? { assert Consumable(l, found.value, draft.value, host, rows); }
    }
  }

  lemma NothingBlocks(l: Ledger, host: Host, rows: seq<VmRow>, draft: Option<Draft>, lease: Option<Lease>)
    requires lease.Some? == draft.Some? && (lease.Some? ==> lease.value.id == draft.value.id)
    ensures Blocked(l, host, rows, draft) <==>
            AnyProtected(rows, DEFAULT_PROTECTED + host.overrides) || Conflicts(l, rows, lease)
  {
    forall b ensures Overlap(rows, b) <==> Share(rows, b) { ShareExactly(rows, b); }
    forall v ensures VmAllocationMeaning.Barred(v, host.overrides) <==> InRanges(v, DEFAULT_PROTECTED + host.overrides) {
      VmAllocationMeaning.BarredExactly(v, host.overrides);
    }
    hide Overlap, Share, VmAllocationMeaning.Barred, InRanges;
  }

  lemma SingleExactly(rows: seq<VmRow>)
    ensures NoDuplicates(rows) <==> Single(rows)
  {
    hide NoDuplicates, Single, Exclusive;
    NoDuplicatesIsExclusive(rows);
    if Exclusive(rows) { SingleIfExclusive(rows); }
    if Single(rows) { ExclusiveIfSingle(rows); }
  }

  /** The claim of a first binding. */
  function NewClaim(d: Deployment, host: Host, rows: seq<VmRow>, lease: Option<Lease>): Claim {
    Claim(d.id, d.sha, host.id, host.apiUrl, host.node, rows, if lease.Some? then Some(lease.value.rows) else None)
  }

  lemma BindIs(l: Ledger, d: Deployment, rows: seq<VmRow>, draft: Option<Draft>)
    requires NoDuplicates(rows) && d.host in l.hosts
    ensures var host, found := l.hosts[d.host], ClaimOf(l.claims, d.id);
            var lease := DraftLease(l, draft, host, rows);
            && (found.Some? ==>
                  && BindTx(l, d, rows, draft).0 == l
                  && (BindTx(l, d, rows, draft).1.None? <==>
                        var c := found.value;
                        c.host == d.host && c.apiUrl == host.apiUrl && c.node == host.node && c.sha == d.sha && c.rows == rows))
            && (found.None? ==>
                  if lease.Ok? && ValidOverrides(host.overrides) && !AnyProtected(rows, DEFAULT_PROTECTED + host.overrides) && !Conflicts(l, rows, lease.value)
                  then BindTx(l, d, rows, draft) ==
                    (l.(claims := l.claims + [NewClaim(d, host, rows, lease.value)],
                        leases := if lease.value.Some? then Without(l.leases, lease.value.value.id) else l.leases), None)
                  else BindTx(l, d, rows, draft).0 == l && BindTx(l, d, rows, draft).1.Some?)
  {
    hide NoDuplicates, ClaimOf, DraftLease, AnyProtected, Conflicts, ValidOverrides, Without;
  }

  lemma BindAlreadyBound(l: Ledger, d: Deployment, rows: seq<VmRow>, draft: Option<Draft>)
    requires KeysOk(l) && NoDuplicates(rows) && d.host in l.hosts && ClaimOf(l.claims, d.id).Some?
    ensures BindTx(l, d, rows, draft).1.None? <==> MayBind(l, d, rows, draft)
    ensures BindTx(l, d, rows, draft).1.Some? ==> BindTx(l, d, rows, draft).0 == l
    ensures MayBind(l, d, rows, draft) ==> Bound(l, BindTx(l, d, rows, draft).0, d, rows, draft)
  {
    SingleExactly(rows);
    ClaimIsFound(l, d);
    BindIs(l, d, rows, draft);
    hide KeysOk, NoDuplicates, Single, ClaimOf, BindTx, DraftLease, Consumable, Blocked, ValidOverrides, AnyProtected, Conflicts;
  }

  lemma BindFirst(l: Ledger, d: Deployment, rows: seq<VmRow>, draft: Option<Draft>)
    requires KeysOk(l) && NoDuplicates(rows) && d.host in l.hosts && ClaimOf(l.claims, d.id).None?
    ensures BindTx(l, d, rows, draft).1.None? <==> MayBind(l, d, rows, draft)
    ensures BindTx(l, d, rows, draft).1.Some? ==> BindTx(l, d, rows, draft).0 == l
    ensures MayBind(l, d, rows, draft) ==> Bound(l, BindTx(l, d, rows, draft).0, d, rows, draft)
  {
    hide KeysOk, NoDuplicates, Single, ClaimOf, BindTx, DraftLease, Blocked, ValidOverrides, AnyProtected, Conflicts, Consumable, Bound, Without;
    SingleExactly(rows);
    ClaimIsFound(l, d);
    BindIs(l, d, rows, draft);
    var host := l.hosts[d.host];
    DraftIsFound(l, draft, host, rows);
    var lease := DraftLease(l, draft, host, rows);
    if lease.Ok? {
      DraftId(l, draft, host, rows);
      NothingBlocks(l, host, rows, draft, lease.value);
      FirstBound(l, d, host, rows, draft, lease.value);
    }
  }

  lemma FirstBound(l: Ledger, d: Deployment, host: Host, rows: seq<VmRow>, draft: Option<Draft>, lease: Option<Lease>)
    requires d.host in l.hosts && host == l.hosts[d.host] && !exists c :: c in l.claims && c.deployment == d.id
    requires lease.Some? == draft.Some?
    requires lease.Some? ==> lease.value.id == draft.value.id && Consumable(l, lease.value, draft.value, host, rows)
    ensures Bound(l, l.(claims := l.claims + [NewClaim(d, host, rows, lease)],
                        leases := if lease.Some? then Without(l.leases, lease.value.id) else l.leases), d, rows, draft)
  {
    hide Consumable;
    var c := NewClaim(d, host, rows, lease);
    assert forall b :: b in l.claims + [c] <==> b in l.claims || b == c;
  }

  lemma DraftId(l: Ledger, draft: Option<Draft>, host: Host, rows: seq<VmRow>)
    requires DraftLease(l, draft, host, rows).Ok?
    ensures DraftLease(l, draft, host, rows).value.Some? == draft.Some?
    ensures draft.Some? ==> DraftLease(l, draft, host, rows).value.value.id == draft.value.id
  {
    hide Mapping;
  }

  /** A binding is accepted exactly when it may be made, and then leaves exactly the claim behind; a refused one
      leaves everything as it was. */
  lemma BindExactly(l: Ledger, d: Deployment, rows: seq<VmRow>, draft: Option<Draft>)
    requires KeysOk(l)
    ensures BindTx(l, d, rows, draft).1.None? <==> MayBind(l, d, rows, draft)
    ensures BindTx(l, d, rows, draft).1.Some? ==> BindTx(l, d, rows, draft).0 == l
    ensures MayBind(l, d, rows, draft) ==> Bound(l, BindTx(l, d, rows, draft).0, d, rows, draft)
  {
    if !NoDuplicates(rows) || d.host !in l.hosts {
      SingleExactly(rows);
      hide KeysOk, NoDuplicates, Single, ClaimOf, DraftLease, Blocked, Bound;
    } else {
      hide KeysOk, BindTx, MayBind, Bound, NoDuplicates;
      if ClaimOf(l.claims, d.id).Some? { BindAlreadyBound(l, d, rows, draft); } else { BindFirst(l, d, rows, draft); }
    }
  }

  /** After an accepted binding the deployment has a claim on exactly these rows, at its own revision and on its
      own registered target. */
  lemma BoundHasClaim(l: Ledger, d: Deployment, rows: seq<VmRow>, draft: Option<Draft>)
    requires KeysOk(l) && BindTx(l, d, rows, draft).1.None?
    requires forall h :: h in l.hosts ==> l.hosts[h].id == h
    ensures d.host in l.hosts
    ensures exists c :: c in BindTx(l, d, rows, draft).0.claims && c.deployment == d.id && c.rows == rows && c.sha == d.sha
                        && c.host == d.host && c.apiUrl == l.hosts[d.host].apiUrl && c.node == l.hosts[d.host].node
  {
    BindExactly(l, d, rows, draft);
    hide KeysOk, BindTx, Single, Consumable, Blocked;
  }

  // ---------------------------------------------------------------- giving back

  /** A lease is released exactly for its identifier, its owner and its host; nothing else goes with it. */
  ghost predicate Releases(l: Ledger, l': Ledger, id: nat, owner: string, host: string, refused: Option<LedgerError>) {
    && (refused.None? <==> exists x :: x in l.leases && x.id == id && x.owner == owner && x.host == host)
    && (refused.None? ==> (forall x :: x in l'.leases <==> x in l.leases && x.id != id)
                          && l'.claims == l.claims && l'.hosts == l.hosts && l'.now == l.now && l'.nextId == l.nextId)
    && (refused.Some? ==> l' == l)
    && (refused == Some(LedgerError.Expired) <==> forall x :: x in l.leases ==> x.id != id)
    && (refused == Some(Ownership) <==> exists x :: x in l.leases && x.id == id && (x.owner != owner || x.host != host))
  }

  lemma ReleaseExactly(l: Ledger, id: nat, owner: string, host: string)
    requires KeysOk(l)
    ensures Releases(l, ReleaseLease(l, id, owner, host).0, id, owner, host, ReleaseLease(l, id, owner, host).1)
  {
    var row := ById(l.leases, id);
    assert forall x :: x in l.leases && x.id == id ==> row == Some(x);
    if row.Some? { assert row.value in l.leases && row.value.id == id; }
  }

  /** A claim is released exactly for its deployment on its unchanged target and revision, once everything of it
      is gone; nothing else goes with it. */
  lemma UnbindExactly(l: Ledger, d: Deployment, idle: bool)
    requires KeysOk(l)
    ensures var (l', refused) := ReleaseClaim(l, d, idle);
            && (refused.None? <==>
                  && idle && d.host in l.hosts
                  && (exists c :: c in l.claims && c.deployment == d.id && c.host == d.host
                                  && c.apiUrl == l.hosts[d.host].apiUrl && c.node == l.hosts[d.host].node && c.sha == d.sha))
            && (refused.Some? ==> l' == l)
            && (refused.None? ==> (forall c :: c in l'.claims <==> c in l.claims && c.deployment != d.id)
                                  && l'.leases == l.leases && l'.hosts == l.hosts && l'.now == l.now && l'.nextId == l.nextId)
  {
    ClaimIsFound(l, d);
    var found := ClaimOf(l.claims, d.id);
    hide KeysOk;
    if found.Some? { assert found.value in l.claims && found.value.deployment == d.id; }
  }
}
