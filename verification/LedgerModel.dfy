/** The resource ledger: expiring authoring leases and lasting deployment claims, one serialised
    transaction at a time. */
module LedgerModel {
  import opened Wrappers
  import opened FirstFit
  import opened VmAllocationModel
  import opened VmAllocationSoundness

  datatype Host = Host(id: string, apiUrl: string, node: string, overrides: Ranges)
  datatype Lease = Lease(id: nat, project: string, host: string, node: string, apiUrl: string, owner: string,
                         rows: seq<VmRow>, expires: nat)
  datatype Claim = Claim(deployment: string, sha: string, host: string, apiUrl: string, node: string,
                         rows: seq<VmRow>, source: Option<seq<VmRow>>)
  datatype Deployment = Deployment(id: string, host: string, sha: string)
  datatype Ledger = Ledger(leases: seq<Lease>, claims: seq<Claim>, hosts: map<string, Host>, now: nat, nextId: nat)

  datatype LedgerError = Ownership | BadTarget | TooManyLeases | Planning(why: AllocError) | ProbesExhausted
                       | ManifestInvalid | TargetChanged | MappingChanged | Expired | ProtectedId | Held | NotFound | Busy

  const MAX_ACTIVE_LEASES: nat := 1000
  const MAX_PROBES: nat := 4096

  // ---------------------------------------------------------------- table reads

  function Unexpired(leases: seq<Lease>, now: nat): (live: seq<Lease>)
    ensures forall x :: x in live <==> x in leases && x.expires > now
  {
    if leases == [] then [] else
    (if leases[0].expires > now then [leases[0]] else []) + Unexpired(leases[1..], now)
  }

  function Without(leases: seq<Lease>, id: nat): (rest: seq<Lease>)
    ensures forall x :: x in rest <==> x in leases && x.id != id
  {
    if leases == [] then [] else
    (if leases[0].id != id then [leases[0]] else []) + Without(leases[1..], id)
  }

  function WithoutHost(leases: seq<Lease>, host: string): (rest: seq<Lease>)
    ensures forall x :: x in rest <==> x in leases && x.host != host
  {
    if leases == [] then [] else
    (if leases[0].host != host then [leases[0]] else []) + WithoutHost(leases[1..], host)
  }

  function OfProject(leases: seq<Lease>, project: string): (found: Option<Lease>)
    ensures found.Some? ==> found.value in leases && found.value.project == project
    ensures found.None? ==> forall x :: x in leases ==> x.project != project
  {
    if leases == [] then None
    else if leases[0].project == project then Some(leases[0]) else OfProject(leases[1..], project)
  }

  function ById(leases: seq<Lease>, id: nat): (found: Option<Lease>)
    ensures found.Some? ==> found.value in leases && found.value.id == id
    ensures found.None? ==> forall x :: x in leases ==> x.id != id
  {
    if leases == [] then None
    else if leases[0].id == id then Some(leases[0]) else ById(leases[1..], id)
  }

  function ClaimOf(claims: seq<Claim>, deployment: string): (found: Option<Claim>)
    ensures found.Some? ==> found.value in claims && found.value.deployment == deployment
    ensures found.None? ==> forall c :: c in claims ==> c.deployment != deployment
  {
    if claims == [] then None
    else if claims[0].deployment == deployment then Some(claims[0]) else ClaimOf(claims[1..], deployment)
  }

  function Unclaim(claims: seq<Claim>, deployment: string): (rest: seq<Claim>)
    ensures forall c :: c in rest <==> c in claims && c.deployment != deployment
  {
    if claims == [] then [] else
    (if claims[0].deployment != deployment then [claims[0]] else []) + Unclaim(claims[1..], deployment)
  }

  function RowsOfLeases(leases: seq<Lease>): (rows: seq<seq<VmRow>>)
    ensures forall x :: x in leases ==> x.rows in rows
    ensures forall r :: r in rows ==> exists x :: x in leases && x.rows == r
  {
    if leases == [] then [] else [leases[0].rows] + RowsOfLeases(leases[1..])
  }

  function RowsOfClaims(claims: seq<Claim>): (rows: seq<seq<VmRow>>)
    ensures forall c :: c in claims ==> c.rows in rows
    ensures forall r :: r in rows ==> exists c :: c in claims && c.rows == r
  {
    if claims == [] then [] else [claims[0].rows] + RowsOfClaims(claims[1..])
  }

  // ---------------------------------------------------------------- reserve and renew

  datatype Outcome = Refused(error: LedgerError) | Unproven(pending: seq<nat>) | Saved(lease: Lease)

  /** The VMIDs of a plan that no probe of this call has confirmed free. */
  function Pending(rows: seq<VmRow>, free: set<nat>): (pending: seq<nat>)
    ensures forall v :: v in pending <==> v !in free && exists i :: 0 <= i < |rows| && rows[i].vmid == v
  {
    if rows == [] then [] else
    (if rows[0].vmid in free then [] else [rows[0].vmid]) + Pending(rows[1..], free)
  }

  predicate Plannable(r: Request) {
    && Networked(r.vms, NetworkMap(r.networks))
    && forall v :: 0 <= v < |r.vms| ==> Indexed(r.vms[v], NetworkMap(r.networks))
  }

  /** Everything the writer reads for its plan: unexpired leases but the caller's own, and all claims. */
  function OthersFor(l: Ledger, current: Option<Lease>): seq<seq<VmRow>> {
    var live := Unexpired(l.leases, l.now);
    RowsOfLeases(if current.Some? then Without(live, current.value.id) else live) + RowsOfClaims(l.claims)
  }

  function StoredRows(current: Option<Lease>): seq<VmRow> { if current.Some? then current.value.rows else [] }

  /** One writer transaction of the reserve loop; nothing is written unless the outcome is Saved. */
  function ReserveTx(l: Ledger, host: Host, r: Request, owner: string, occupied: Taken, free: set<nat>): (Ledger, Outcome)
    requires Plannable(r)
  {
    var live := Unexpired(l.leases, l.now);
    var current := OfProject(live, r.project);
    if current.Some? && (current.value.owner != owner || current.value.host != host.id) then (l, Refused(Ownership))
    else if current.Some? && current.value.node != host.node then (l, Refused(BadTarget))
    else if current.None? && |live| >= MAX_ACTIVE_LEASES then (l, Refused(TooManyLeases))
    else if host.id !in l.hosts || l.hosts[host.id] != host then (l, Refused(BadTarget))
    else
      var plan := PlanRequest(r, host.overrides, AllTaken(occupied, OthersFor(l, current)), StoredRows(current));
      if plan.Err? then (l, Refused(Planning(plan.error)))
      else if Pending(plan.value, free) != [] then (l, Unproven(Pending(plan.value, free)))
      else if current.Some? then
        var lease := current.value.(rows := plan.value, apiUrl := host.apiUrl, expires := l.now + r.leaseSeconds);
        (l.(leases := Without(live, lease.id) + [lease]), Saved(lease))
      else
        var lease := Lease(l.nextId, r.project, host.id, host.node, host.apiUrl, owner, plan.value, l.now + r.leaseSeconds);
        (l.(leases := live + [lease], nextId := l.nextId + 1), Saved(lease))
  }

  function ReleaseLease(l: Ledger, id: nat, owner: string, host: string): (Ledger, Option<LedgerError>) {
    var row := ById(l.leases, id);
    if row.None? then (l, Some(LedgerError.Expired))
    else if row.value.owner != owner || row.value.host != host then (l, Some(Ownership))
    else (l.(leases := Without(l.leases, id)), None)
  }

  // ---------------------------------------------------------------- binding

  type Plug = (nat, string, Ip)

  function Plugs(nics: seq<NicRow>): multiset<Plug> {
    multiset(seq(|nics|, j requires 0 <= j < |nics| => (nics[j].index, nics[j].bridge, nics[j].ip)))
  }

  /** The reviewed identity of a set of machines, whatever the order of machines and interfaces. */
  function Mapping(rows: seq<VmRow>): multiset<(nat, multiset<Plug>)> {
    multiset(seq(|rows|, v requires 0 <= v < |rows| => (rows[v].vmid, Plugs(rows[v].nics))))
  }

  function CountNics(rows: seq<VmRow>): nat {
    if rows == [] then 0 else CountNics(rows[..|rows| - 1]) + |rows[|rows| - 1].nics|
  }

  /** The manifest check: as many identifiers and addresses as machines and interfaces. */
  predicate NoDuplicates(rows: seq<VmRow>) {
    |Ids(rows)| == |rows| && |Ips(rows)| == CountNics(rows)
  }

  predicate Overlap(a: seq<VmRow>, b: seq<VmRow>) {
    Ids(a) * Ids(b) != {} || Ips(a) * Ips(b) != {}
  }

  predicate Conflicts(l: Ledger, rows: seq<VmRow>, lease: Option<Lease>) {
    || (exists c | c in l.claims :: Overlap(rows, c.rows))
    || (exists x | x in Unexpired(l.leases, l.now) :: !(lease.Some? && x.id == lease.value.id) && Overlap(rows, x.rows))
  }

  predicate AnyProtected(rows: seq<VmRow>, ranges: Ranges) {
    exists i | 0 <= i < |rows| :: InRanges(rows[i].vmid, ranges)
  }

  datatype Draft = Draft(id: nat, token: Option<string>)

  /** The draft a binding wants to consume, or why it may not. */
  function DraftLease(l: Ledger, draft: Option<Draft>, host: Host, rows: seq<VmRow>): Result<Option<Lease>, LedgerError> {
    if draft.None? then Ok(None)
    else if draft.value.token.None? then Err(Ownership)
    else
      var lease := ById(l.leases, draft.value.id);
      if lease.None? || lease.value.expires <= l.now then Err(LedgerError.Expired)
      else if lease.value.owner != draft.value.token.value || lease.value.host != host.id then Err(Ownership)
      else if (lease.value.apiUrl, lease.value.node) != (host.apiUrl, host.node) then Err(TargetChanged)
      else if Mapping(lease.value.rows) != Mapping(rows) then Err(MappingChanged)
      else Ok(lease)
  }

  /** Bind a deployment to literal identities, consuming its draft lease when one is given. */
  function BindTx(l: Ledger, d: Deployment, rows: seq<VmRow>, draft: Option<Draft>): (Ledger, Option<LedgerError>) {
    if !NoDuplicates(rows) then (l, Some(ManifestInvalid)) else
    if d.host !in l.hosts then (l, Some(TargetChanged)) else
    var host := l.hosts[d.host];
    var existing := ClaimOf(l.claims, d.id);
    if existing.Some? then
      var c := existing.value;
      if (c.host, c.apiUrl, c.node, c.sha) != (d.host, host.apiUrl, host.node, d.sha) then (l, Some(TargetChanged))
      else if c.rows != rows then (l, Some(MappingChanged)) else (l, None)
    else
      var lease := DraftLease(l, draft, host, rows);
      if lease.Err? then (l, Some(lease.error))
      else if !ValidOverrides(host.overrides) then (l, Some(Planning(Invalid)))
      else if AnyProtected(rows, DEFAULT_PROTECTED + host.overrides) then (l, Some(ProtectedId))
      else if Conflicts(l, rows, lease.value) then (l, Some(Held))
      else
        var source := if lease.value.Some? then Some(lease.value.value.rows) else None;
        (l.(claims := l.claims + [Claim(d.id, d.sha, host.id, host.apiUrl, host.node, rows, source)],
            leases := if lease.value.Some? then Without(l.leases, lease.value.value.id) else l.leases), None)
  }

  /** Give a deployment's claim back; idle says that its attempts, lock and guests were found gone. */
  function ReleaseClaim(l: Ledger, d: Deployment, idle: bool): (Ledger, Option<LedgerError>) {
    var claim := ClaimOf(l.claims, d.id);
    if claim.None? then (l, Some(NotFound))
    else if d.host !in l.hosts || (claim.value.host, claim.value.apiUrl, claim.value.node, claim.value.sha)
                                  != (d.host, l.hosts[d.host].apiUrl, l.hosts[d.host].node, d.sha) then (l, Some(TargetChanged))
    else if !idle then (l, Some(Busy))
    else (l.(claims := Unclaim(l.claims, d.id)), None)
  }

  // ---------------------------------------------------------------- runs

  /** What any author, deployment, operator or the clock may do to the ledger next. */
  datatype Event =
    | DoReserve(host: Host, r: Request, owner: string, occupied: Taken, free: set<nat>)
    | DoRelease(id: nat, owner: string, hostId: string)
    | DoBind(d: Deployment, rows: seq<VmRow>, draft: Option<Draft>)
    | DoUnbind(d: Deployment, idle: bool)
    | Register(host: Host)
    | Forget(hostId: string)
    | Tick(seconds: nat)

  /** One committed transaction, or the passage of time. Requests refused by the schema change nothing. */
  function Next(l: Ledger, e: Event): Ledger {
    match e
    case DoReserve(host, r, owner, occupied, free) => if ValidRequest(r) && Plannable(r) then ReserveTx(l, host, r, owner, occupied, free).0 else l
    case DoRelease(id, owner, hostId) => ReleaseLease(l, id, owner, hostId).0
    case DoBind(d, rows, draft) => BindTx(l, d, rows, draft).0
    case DoUnbind(d, idle) => ReleaseClaim(l, d, idle).0
    case Register(host) => l.(hosts := l.hosts[host.id := host])
    case Forget(hostId) => l.(hosts := l.hosts - {hostId}, leases := WithoutHost(l.leases, hostId))
    case Tick(seconds) => l.(now := l.now + seconds)
  }

  function Run(l: Ledger, events: seq<Event>): Ledger {
    if events == [] then l else Next(Run(l, events[..|events| - 1]), events[|events| - 1])
  }

  const EMPTY_LEDGER: Ledger := Ledger([], [], map[], 0, 0)
}
