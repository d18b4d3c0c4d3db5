/** Native snapshot sets: the durable records, and one total transition per committed transaction,
    native write, crash or environment change.  A refused request leaves the world as it was. */
module SnapshotModel {
  import opened Wrappers

  type Id = string

  /** What a target digest covers; digests are injective, so the digest is the record itself. */
  datatype Host = Host(id: Id, url: string, node: string, token: string, protectedRanges: string)
  datatype Deployment = Deployment(sha: string, hostId: Id, current: Option<Id>)

  datatype Kind = Create | Rollback | Delete
  datatype Proof = Proof(snaptime: nat, configDigest: string)
  datatype Member = Member(vm: nat, uuid: string, restoreDigest: string, proof: Option<Proof>)

  datatype SetState = SetPlanned | Creating | RollingBack | Deleting | SetReview
                    | Complete | SetPartial | SetFailed | Deleted
  datatype SnapshotSet = SnapshotSet(deployment: Id, sha: string, host: Host, state: SetState, members: seq<Member>)

  /** A native task identifier: one the dispatcher can parse, or any other text. */
  datatype Upid = Task(node: string, worker: Kind, vm: nat, serial: nat) | Foreign(text: string)
  datatype RowState = Planned | NotStarted | Dispatching | Accepted | Unconfirmed | Succeeded | Failed
  datatype Row = Row(vm: nat, state: RowState, upid: Option<Upid>, snapshot: Option<Proof>)

  datatype Plan = Plan(id: Id, set_: Id, kind: Kind, host: Host, sha: string, members: seq<Member>,
                       snapshots: map<nat, Proof>, retention: Option<string>)
  datatype OpState = OpPlanned | Running | NeedsReview | OpSucceeded | OpPartial | OpFailed | Cancelled | Superseded
  datatype Operation = Operation(plan: Plan, digest: Plan, state: OpState, rows: seq<Row>,
                                 attempt: Option<Id>, expires: int)

  datatype Attempt = Attempt(deployment: Id, snapshotSet: bool, terminal: bool, rc: Option<int>)
  datatype Lock = Lock(owner: Id, heartbeat: int, interval: nat)

  datatype Db = Db(deployments: map<Id, Deployment>, hosts: map<Id, Host>, sets: map<Id, SnapshotSet>,
                   ops: map<Id, Operation>, attempts: map<Id, Attempt>, locks: map<Id, Lock>)

  /** The one process that holds the provisioning lock for a dispatch, and how far it has got. */
  datatype Phase = Ready | Intended | Sent
  datatype Dispatcher = Dispatcher(op: Id, index: nat, phase: Phase)

  /** issued counts the native writes ever sent, per operation and member index. */
  datatype World = World(db: Db, clock: int, dispatcher: Option<Dispatcher>, issued: multiset<(Id, nat)>)

  // ---------------------------------------------------------------- guards

  predicate Active(o: Operation) { o.state.Running? || o.state.NeedsReview? }

  predicate Bound(db: Db, s: SnapshotSet) {
    s.deployment in db.deployments &&
    var d := db.deployments[s.deployment];
    s.sha == d.sha && s.host.id == d.hostId && d.hostId in db.hosts && db.hosts[d.hostId] == s.host
  }

  predicate ValidTask(upid: Option<Upid>, node: string, vm: nat, kind: Kind) {
    upid.Some? && upid.value.Task? && upid.value.node == node && upid.value.vm == vm && upid.value.worker == kind
  }

  predicate Stale(l: Lock, now: int) { now - l.heartbeat > 3 * l.interval }

  /** A snapshot attempt is alive exactly while its operation is active; any other attempt is
      alive when its recorded process still is, which is the environment's answer. */
  predicate RunnerAlive(db: Db, deployment: Id, l: Lock, processAlive: bool) {
    l.owner in db.attempts && db.attempts[l.owner].deployment == deployment &&
    if db.attempts[l.owner].snapshotSet
    then exists o | o in db.ops :: db.ops[o].attempt == Some(l.owner) && Active(db.ops[o])
    else processAlive
  }

  predicate LockFree(db: Db, now: int, deployment: Id, processAlive: bool) {
    deployment in db.locks ==>
      Stale(db.locks[deployment], now) && !RunnerAlive(db, deployment, db.locks[deployment], processAlive)
  }

  // ---------------------------------------------------------------- planning

  function FreshRows(members: seq<Member>): seq<Row> {
    seq(|members|, i requires 0 <= i < |members| => Row(members[i].vm, Planned, None, None))
  }

  function NewOperation(plan: Plan, now: int): Operation {
    Operation(plan, plan, OpPlanned, FreshRows(plan.members), None, now + 300)
  }

  predicate DistinctVms(members: seq<Member>) {
    forall i | 0 <= i < |members| :: forall j | i < j < |members| :: members[i].vm != members[j].vm
  }

  function PlanCreate(w: World, deployment: Id, setId: Id, opId: Id, observed: seq<Member>): World {
    if deployment in w.db.deployments && w.db.deployments[deployment].hostId in w.db.hosts
       && setId !in w.db.sets && opId !in w.db.ops && 1 <= |observed| <= 64 && DistinctVms(observed)
       && (forall m | m in observed :: m.proof.None?) then
      var d := w.db.deployments[deployment];
      var host := w.db.hosts[d.hostId];
      var s := SnapshotSet(deployment, d.sha, host, SetPlanned, observed);
      var plan := Plan(opId, setId, Create, host, d.sha, observed, map[], None);
      w.(db := w.db.(sets := w.db.sets[setId := s], ops := w.db.ops[opId := NewOperation(plan, w.clock)]))
    else w
  }

  predicate Plannable(kind: Kind, state: SetState) {
    state.Complete? || (kind.Delete? && (state.SetPartial? || state.SetFailed?))
  }

  /** The members that still carry an owned native snapshot, as just observed. */
  function Remaining(members: seq<Member>, proofs: map<nat, Proof>): seq<Member> {
    if members == [] then [] else
    (if members[0].vm in proofs then [members[0]] else []) + Remaining(members[1..], proofs)
  }

  /** The proofs a plan keeps: those found for guests of the set. */
  function Kept(s: SnapshotSet, found: map<nat, Proof>): map<nat, Proof> {
    map m | m in found && FindMember(s.members, m).Some? :: found[m]
  }

  /** The registered guests, read back in the stored order, are still the reviewed ones. */
  predicate SameGuests(observed: seq<Member>, members: seq<Member>) {
    |observed| == |members|
    && forall i | 0 <= i < |members| :: observed[i].vm == members[i].vm && observed[i].uuid == members[i].uuid
  }

  function PlanExisting(w: World, deployment: Id, setId: Id, opId: Id, kind: Kind, observed: seq<Member>,
                        found: map<nat, Proof>, retention: Option<string>, eligible: bool): World {
    if kind.Create? || setId !in w.db.sets || opId in w.db.ops then w else
    var s := w.db.sets[setId];
    var proofs := Kept(s, found);
    var members := Remaining(observed, proofs);
    if s.deployment != deployment || !Plannable(kind, s.state) || !Bound(w.db, s)
       || (retention.Some? && !eligible) || !SameGuests(observed, s.members) || members == []
       || (kind.Rollback? && exists m | m in s.members :: m.vm !in proofs || m.proof != Some(proofs[m.vm])) then w
    else
      var plan := Plan(opId, setId, kind, s.host, s.sha, members, proofs, retention);
      w.(db := w.db.(ops := w.db.ops[opId := NewOperation(plan, w.clock)]))
  }

  function CancelPlan(w: World, setId: Id, opId: Id): World {
    if opId in w.db.ops && w.db.ops[opId].plan.set_ == setId
       && w.db.ops[opId].state.OpPlanned? && w.db.ops[opId].attempt.None? then
      w.(db := w.db.(ops := w.db.ops[opId := w.db.ops[opId].(state := Cancelled)]))
    else w
  }

  // ---------------------------------------------------------------- execution

  function BusyState(kind: Kind): SetState {
    match kind case Create => Creating case Rollback => RollingBack case Delete => Deleting
  }

  /** Every other plan on the set stops being executable in the transaction that starts this one. */
  function SupersedeOthers(ops: map<Id, Operation>, setId: Id, opId: Id): map<Id, Operation> {
    map id | id in ops ::
      if id != opId && ops[id].plan.set_ == setId && ops[id].state.OpPlanned?
      then ops[id].(state := Superseded) else ops[id]
  }

  predicate Executable(w: World, deployment: Id, setId: Id, digest: Plan, attempt: Id, guards: bool, processAlive: bool) {
    var opId := digest.id;
    w.dispatcher.None? && setId in w.db.sets && w.db.sets[setId].deployment == deployment
    && opId in w.db.ops && w.db.ops[opId].plan.set_ == setId && w.db.ops[opId].digest == digest
    && w.db.ops[opId].state.OpPlanned? && w.clock < w.db.ops[opId].expires && w.db.ops[opId].digest == w.db.ops[opId].plan
    && Bound(w.db, w.db.sets[setId]) && guards
    && (var current := w.db.deployments[deployment].current;
        current.Some? && current.value in w.db.attempts ==> w.db.attempts[current.value].terminal)
    && attempt !in w.db.attempts
    && LockFree(w.db, w.clock, deployment, processAlive)
  }

  function Begin(w: World, deployment: Id, setId: Id, digest: Plan, attempt: Id, guards: bool, processAlive: bool): World {
    if !Executable(w, deployment, setId, digest, attempt, guards, processAlive) then w else
    var opId := digest.id;
    var o := w.db.ops[opId];
    var started := o.(state := Running, attempt := Some(attempt));
    World(
      Db(w.db.deployments[deployment := w.db.deployments[deployment].(current := Some(attempt))],
         w.db.hosts,
         w.db.sets[setId := w.db.sets[setId].(state := BusyState(o.plan.kind))],
         SupersedeOthers(w.db.ops, setId, opId)[opId := started],
         w.db.attempts[attempt := Attempt(deployment, true, false, None)],
         w.db.locks[deployment := Lock(attempt, w.clock, 30)]),
      w.clock, Some(Dispatcher(opId, 0, Ready)), w.issued)
  }

  function Abandon(rows: seq<Row>, from: nat): seq<Row>
    requires from <= |rows|
  {
    rows[..from] + seq(|rows| - from, i requires 0 <= i < |rows| - from => rows[from + i].(state := NotStarted))
  }

  function PutOp(w: World, opId: Id, o: Operation, d: Option<Dispatcher>): World {
    w.(db := w.db.(ops := w.db.ops[opId := o]), dispatcher := d)
  }

  /** Re-check the binding and this member, then commit the intent to write; or stop, committing
      that nothing from here on was started. */
  function Intend(w: World, guard: bool): World {
    if w.dispatcher.None? || !w.dispatcher.value.phase.Ready? || w.dispatcher.value.op !in w.db.ops then w else
    var d := w.dispatcher.value;
    var o := w.db.ops[d.op];
    if d.index >= |o.rows| || o.plan.set_ !in w.db.sets then w else
    if !Bound(w.db, w.db.sets[o.plan.set_]) || !guard then
      PutOp(w, d.op, o.(rows := Abandon(o.rows, d.index)), None)
    else
      PutOp(w, d.op, o.(rows := o.rows[d.index := o.rows[d.index].(state := Dispatching)]), Some(d.(phase := Intended)))
  }

  /** The native write itself leaves the process. */
  function Issue(w: World): World {
    if w.dispatcher.None? || !w.dispatcher.value.phase.Intended? then w else
    var d := w.dispatcher.value;
    w.(dispatcher := Some(d.(phase := Sent)), issued := w.issued + multiset{(d.op, d.index)})
  }

  datatype Answer = Lost | Reply(upid: Upid)

  /** Commit what came back: a task that names this member, or an outcome nobody can vouch for. */
  function Conclude(w: World, answer: Answer): World {
    if w.dispatcher.None? || w.dispatcher.value.phase.Ready? || w.dispatcher.value.op !in w.db.ops then w else
    var d := w.dispatcher.value;
    var o := w.db.ops[d.op];
    if d.index >= |o.rows| || o.plan.set_ !in w.db.sets || (answer.Reply? && !d.phase.Sent?) then w else
    var row := o.rows[d.index];
    if answer.Reply? && ValidTask(Some(answer.upid), o.plan.host.node, row.vm, o.plan.kind) then
      PutOp(w, d.op, o.(rows := o.rows[d.index := row.(state := Accepted, upid := Some(answer.upid))]),
            if d.index + 1 < |o.rows| then Some(Dispatcher(d.op, d.index + 1, Ready)) else None)
    else
      var rows := Abandon(o.rows[d.index := row.(state := Unconfirmed)], d.index + 1);
      var w' := PutOp(w, d.op, o.(rows := rows, state := NeedsReview), None);
      w'.(db := w'.db.(sets := w'.db.sets[o.plan.set_ := w'.db.sets[o.plan.set_].(state := SetReview)]))
  }

  /** The dispatching process dies or is cancelled; the kernel drops its lock, the rows stay. */
  function Crash(w: World): World { w.(dispatcher := None) }

  // ---------------------------------------------------------------- reconciliation

  /** What one read-only inspection of a member's saved task can find. */
  datatype Observation =
    | Unreadable
    | StillRunning
    | TaskFailed
    | Stopped(uuid: string, restoreDigest: string, guestStopped: bool, present: Option<Proof>)

  function FindMember(members: seq<Member>, vm: nat): Option<Member> {
    if members == [] then None
    else if members[0].vm == vm then Some(members[0]) else FindMember(members[1..], vm)
  }

  predicate ReadbackMatches(plan: Plan, expected: Member, seen: Observation)
    requires seen.Stopped?
  {
    seen.uuid == expected.uuid &&
    match plan.kind
    case Create => seen.present.Some? && seen.present.value.configDigest == expected.restoreDigest
    case Delete => seen.present.None?
    case Rollback =>
      seen.present.Some? && expected.vm in plan.snapshots && seen.present.value == plan.snapshots[expected.vm]
      && seen.restoreDigest == seen.present.value.configDigest && seen.guestStopped
  }

  function ReconcileRow(row: Row, plan: Plan, members: seq<Member>, seen: Observation): Row {
    if row.state.Planned? then row.(state := NotStarted)
    else if !row.state.Accepted? && !row.state.Dispatching? then row
    else if !ValidTask(row.upid, plan.host.node, row.vm, plan.kind) then row.(state := Unconfirmed)
    else match seen
      case Unreadable => row
      case StillRunning => row
      case TaskFailed => row.(state := Failed)
      case Stopped(_, _, _, present) =>
        var expected := FindMember(members, row.vm);
        if expected.None? || !ReadbackMatches(plan, expected.value, seen) then row
        else if plan.kind.Create? then row.(state := Succeeded, snapshot := present)
        else row.(state := Succeeded)
  }

  function ReconcileRows(rows: seq<Row>, plan: Plan, members: seq<Member>, seen: seq<Observation>): seq<Row>
    requires |seen| == |rows|
  {
    seq(|rows|, i requires 0 <= i < |rows| => ReconcileRow(rows[i], plan, members, seen[i]))
  }

  predicate Final(s: RowState) { s.Succeeded? || s.Failed? || s.NotStarted? }

  predicate AllFinal(rows: seq<Row>) { forall r | r in rows :: Final(r.state) }

  predicate Ambiguous(rows: seq<Row>) { exists r | r in rows :: r.state.Unconfirmed? || r.state.Dispatching? }

  function OutcomeOf(rows: seq<Row>): OpState {
    if forall r | r in rows :: r.state.Succeeded? then OpSucceeded
    else if exists r | r in rows :: r.state.Succeeded? then OpPartial
    else OpFailed
  }

  function FindRow(rows: seq<Row>, vm: nat): Option<Row> {
    if rows == [] then None
    else if rows[0].vm == vm then Some(rows[0]) else FindRow(rows[1..], vm)
  }

  /** The set's members after a create, each carrying what its row read back. */
  function Recorded(members: seq<Member>, rows: seq<Row>): seq<Member> {
    seq(|members|, i requires 0 <= i < |members| =>
      var r := FindRow(rows, members[i].vm);
      if r.Some? && r.value.snapshot.Some? then members[i].(proof := r.value.snapshot) else members[i])
  }

  function Settled(s: SnapshotSet, kind: Kind, outcome: OpState, rows: seq<Row>): SnapshotSet {
    match kind
    case Create =>
      s.(state := if outcome.OpSucceeded? then Complete else if outcome.OpPartial? then SetPartial else SetFailed,
         members := Recorded(s.members, rows))
    case Delete => s.(state := if outcome.OpSucceeded? then Deleted else SetPartial)
    case Rollback => s.(state := Complete)
  }

  function ReleaseLock(locks: map<Id, Lock>, deployment: Id, owner: Id): map<Id, Lock> {
    if deployment in locks && locks[deployment].owner == owner then locks - {deployment} else locks
  }

  function Reconcile(w: World, opId: Id, seen: seq<Observation>): World {
    if w.dispatcher.Some? || opId !in w.db.ops || !Active(w.db.ops[opId]) then w else
    var o := w.db.ops[opId];
    if o.plan.set_ !in w.db.sets || |seen| != |o.rows| || o.attempt.None? || o.attempt.value !in w.db.attempts then w else
    var s := w.db.sets[o.plan.set_];
    if !Bound(w.db, s) then w else
    var rows := ReconcileRows(o.rows, o.plan, s.members, seen);
    if AllFinal(rows) then
      var outcome := OutcomeOf(rows);
      var a := w.db.attempts[o.attempt.value];
      w.(db := w.db.(
           ops := w.db.ops[opId := o.(rows := rows, state := outcome)],
           sets := w.db.sets[o.plan.set_ := Settled(s, o.plan.kind, outcome, rows)],
           attempts := w.db.attempts[o.attempt.value :=
                         a.(terminal := true, rc := Some(if outcome.OpSucceeded? then 0 else 1))],
           locks := ReleaseLock(w.db.locks, s.deployment, o.attempt.value)))
    else if Ambiguous(rows) then
      w.(db := w.db.(
           ops := w.db.ops[opId := o.(rows := rows, state := NeedsReview)],
           sets := w.db.sets[o.plan.set_ := s.(state := SetReview)]))
    else
      w.(db := w.db.(ops := w.db.ops[opId := o.(rows := rows)]))
  }

  // ---------------------------------------------------------------- environment

  /** An ordinary request makes its new attempt the deployment's current one, sweeping a stale lock. */
  function OtherReserve(w: World, deployment: Id, attempt: Id, processAlive: bool): World {
    if deployment !in w.db.deployments || attempt in w.db.attempts || !LockFree(w.db, w.clock, deployment, processAlive) then w
    else
      var d := w.db.deployments[deployment];
      if d.current.Some? && d.current.value in w.db.attempts && !w.db.attempts[d.current.value].terminal then w
      else w.(db := w.db.(attempts := w.db.attempts[attempt := Attempt(deployment, false, false, None)],
                          deployments := w.db.deployments[deployment := d.(current := Some(attempt))],
                          locks := w.db.locks - {deployment}))
  }

  predicate Ordinary(db: Db, attempt: Id, deployment: Id) {
    attempt in db.attempts ==> !db.attempts[attempt].snapshotSet && db.attempts[attempt].deployment == deployment
  }

  /** An ordinary runner, of a reserved attempt or of one not recorded here, takes the workspace lock. */
  function OtherAcquire(w: World, deployment: Id, attempt: Id, interval: nat, processAlive: bool): World {
    if deployment in w.db.deployments && Ordinary(w.db, attempt, deployment) && LockFree(w.db, w.clock, deployment, processAlive) then
      var a := if attempt in w.db.attempts then w.db.attempts[attempt] else Attempt(deployment, false, false, None);
      w.(db := w.db.(attempts := w.db.attempts[attempt := a],
                     locks := w.db.locks[deployment := Lock(attempt, w.clock, interval)]))
    else w
  }

  function OtherFinish(w: World, attempt: Id, rc: int): World {
    if attempt in w.db.attempts && !w.db.attempts[attempt].snapshotSet then
      var a := w.db.attempts[attempt];
      w.(db := w.db.(attempts := w.db.attempts[attempt := a.(terminal := true, rc := Some(rc))],
                     locks := ReleaseLock(w.db.locks, a.deployment, attempt)))
    else w
  }

  function CleanupStale(w: World, deployment: Id, processAlive: bool): World {
    if deployment in w.db.locks && LockFree(w.db, w.clock, deployment, processAlive)
    then w.(db := w.db.(locks := w.db.locks - {deployment})) else w
  }

  function Heartbeat(w: World, deployment: Id, owner: Id): World {
    if deployment in w.db.locks && w.db.locks[deployment].owner == owner
    then w.(db := w.db.(locks := w.db.locks[deployment := w.db.locks[deployment].(heartbeat := w.clock)])) else w
  }

  /** What the rest of the installation does meanwhile. */
  datatype Change =
    | Reserve(deployment: Id, attempt: Id, processAlive: bool)
    | Acquire(deployment: Id, attempt: Id, interval: nat, processAlive: bool)
    | Finish(attempt: Id, rc: int)
    | Cleanup(deployment: Id, processAlive: bool)
    | Beat(deployment: Id, owner: Id)
    | Tick(elapsed: nat)
    | Register(host: Host)
    | Unregister(hostId: Id)
    | Repin(deployment: Id, sha: string, hostId: Id)

  function Repinned(w: World, d: Id, sha: string, hostId: Id): World {
    var was := if d in w.db.deployments then w.db.deployments[d].current else None;
    w.(db := w.db.(deployments := w.db.deployments[d := Deployment(sha, hostId, was)]))
  }

  /** A host row goes only while no deployment and no set refers to it. */
  function Unregistered(w: World, hostId: Id): World {
    if (exists d | d in w.db.deployments :: w.db.deployments[d].hostId == hostId)
       || (exists s | s in w.db.sets :: w.db.sets[s].host.id == hostId) then w
    else w.(db := w.db.(hosts := w.db.hosts - {hostId}))
  }

  function Happen(w: World, c: Change): World {
    match c
    case Reserve(d, a, alive) => OtherReserve(w, d, a, alive)
    case Acquire(d, a, interval, alive) => OtherAcquire(w, d, a, interval, alive)
    case Finish(a, rc) => OtherFinish(w, a, rc)
    case Cleanup(d, alive) => CleanupStale(w, d, alive)
    case Beat(d, owner) => Heartbeat(w, d, owner)
    case Tick(elapsed) => w.(clock := w.clock + elapsed)
    case Register(host) => w.(db := w.db.(hosts := w.db.hosts[host.id := host]))
    case Unregister(hostId) => Unregistered(w, hostId)
    case Repin(d, sha, hostId) => Repinned(w, d, sha, hostId)
  }

  // ---------------------------------------------------------------- runs

  datatype Label =
    | LPlanCreate(deployment: Id, setId: Id, opId: Id, observed: seq<Member>)
    | LPlanExisting(deployment: Id, setId: Id, opId: Id, kind: Kind, observed: seq<Member>,
                    found: map<nat, Proof>, retention: Option<string>, eligible: bool)
    | LCancelPlan(setId: Id, opId: Id)
    | LBegin(deployment: Id, setId: Id, digest: Plan, attempt: Id, guards: bool, processAlive: bool)
    | LIntend(guard: bool)
    | LIssue
    | LConclude(answer: Answer)
    | LCrash
    | LReconcile(opId: Id, seen: seq<Observation>)
    | LEnvironment(change: Change)

  function Step(w: World, l: Label): World {
    match l
    case LPlanCreate(d, s, o, observed) => PlanCreate(w, d, s, o, observed)
    case LPlanExisting(d, s, o, kind, observed, found, retention, eligible) =>
      PlanExisting(w, d, s, o, kind, observed, found, retention, eligible)
    case LCancelPlan(s, o) => CancelPlan(w, s, o)
    case LBegin(d, s, digest, attempt, guards, alive) => Begin(w, d, s, digest, attempt, guards, alive)
    case LIntend(guard) => Intend(w, guard)
    case LIssue => Issue(w)
    case LConclude(answer) => Conclude(w, answer)
    case LCrash => Crash(w)
    case LReconcile(o, seen) => Reconcile(w, o, seen)
    case LEnvironment(change) => Happen(w, change)
  }

  function Run(w: World, labels: seq<Label>): World
    decreases |labels|
  {
    if labels == [] then w else Run(Step(w, labels[0]), labels[1..])
  }

  const EMPTY_WORLD: World :=
    World(Db(map[], map[], map[], map[], map[], map[]), 0, None, multiset{})
}
