/** Runner attempts: reservation, start, progress, cancellation, completion, adoption and recovery,
    with the workspace lock and the identity of the runner process. */
module LifecycleModel {
  import opened Wrappers

  type Id = string

  datatype Outcome = Succeeded | Completed | Partial | Failed | Cancelled | Unknown
  datatype State = Pending | Running | Deploying | Ended(outcome: Outcome)
  datatype Reason = NoReason | CancelRequested | Code(text: string)
  datatype Attempt = Attempt(deployment: Id, state: State, reason: Reason, rc: Option<int>, cursor: nat, pid: Option<nat>)
  datatype Deployment = Deployment(current: Option<Id>, state: State)

  datatype Owner = ByAttempt(id: Id) | Foreign(name: string)
  datatype Lock = Lock(owner: Owner, heartbeat: nat, interval: nat)

  /** A process is known by its PID, its start time and the boot it belongs to. */
  datatype Identity = Identity(pid: nat, start: nat, boot: nat)

  /** recorded is each attempt's identity file; live maps PIDs to start times, which begin again with every
      boot; starts counts the processes of this boot, and born remembers, for the proofs, whose runner each
      boot and start was. */
  datatype World = World(attempts: map<Id, Attempt>, deployments: map<Id, Deployment>, locks: map<Id, Lock>,
                         recorded: map<Id, Identity>, live: map<nat, nat>, boot: nat, starts: nat, now: nat,
                         born: map<(nat, nat), Option<Id>>)

  // ---------------------------------------------------------------- locks

  predicate Stale(l: Lock, now: nat) { now - l.heartbeat > 3 * l.interval }

  /** The identity file names the very process that now has the PID. */
  predicate ProcessMatches(w: World, id: Id, pid: nat) {
    id in w.recorded && pid in w.live && w.recorded[id] == Identity(pid, w.live[pid], w.boot)
  }

  function PidOf(w: World, id: Id): Option<nat>
    requires id in w.attempts
  {
    if w.attempts[id].pid.Some? then w.attempts[id].pid
    else if id in w.recorded then Some(w.recorded[id].pid) else None
  }

  predicate RunnerAlive(w: World, deployment: Id, l: Lock) {
    && l.owner.ByAttempt? && l.owner.id in w.attempts && w.attempts[l.owner.id].deployment == deployment
    && PidOf(w, l.owner.id).Some? && ProcessMatches(w, l.owner.id, PidOf(w, l.owner.id).value)
  }

  predicate Removable(w: World, deployment: Id)
    requires deployment in w.locks
  {
    Stale(w.locks[deployment], w.now) && !RunnerAlive(w, deployment, w.locks[deployment])
  }

  function Acquire(w: World, deployment: Id, owner: Owner, interval: nat): (World, bool) {
    if deployment in w.locks && !Removable(w, deployment) then (w, false)
    else (w.(locks := w.locks[deployment := Lock(owner, w.now, interval)]), true)
  }

  function Release(w: World, deployment: Id, owner: Owner): World {
    if deployment in w.locks && w.locks[deployment].owner == owner then w.(locks := w.locks - {deployment}) else w
  }

  function Heartbeat(w: World, deployment: Id, owner: Owner): World {
    if deployment in w.locks && w.locks[deployment].owner == owner
    then w.(locks := w.locks[deployment := w.locks[deployment].(heartbeat := w.now)]) else w
  }

  /** The stale locks without a live runner, of one deployment or of all. */
  function StaleLocks(w: World, only: Option<Id>): set<Id> {
    set d | d in w.locks && (only.None? || only == Some(d)) && Removable(w, d)
  }

  function Cleanup(w: World, only: Option<Id>): World { w.(locks := w.locks - StaleLocks(w, only)) }

  // ---------------------------------------------------------------- attempts

  predicate Terminal(a: Attempt) { a.state.Ended? }

  predicate ActiveCurrent(w: World, d: Deployment) {
    d.current.Some? && d.current.value in w.attempts && !Terminal(w.attempts[d.current.value])
  }

  /** Make a new attempt the deployment's current one; refused while one is active or locked. */
  function Reserve(w: World, deployment: Id, id: Id): World {
    if deployment !in w.deployments || id in w.attempts then w else
    var w1 := Cleanup(w, Some(deployment));
    if ActiveCurrent(w, w.deployments[deployment]) || deployment in w1.locks then w else
    w1.(attempts := w.attempts[id := Attempt(deployment, Pending, NoReason, None, 0, None)],
        deployments := w.deployments[deployment := Deployment(Some(id), Pending)])
  }

  function SetDeployment(w: World, id: Id, state: State): World
    requires id in w.attempts
  {
    var d := w.attempts[id].deployment;
    if d in w.deployments && w.deployments[d].current == Some(id)
    then w.(deployments := w.deployments[d := w.deployments[d].(state := state)]) else w
  }

  function MarkRunning(w: World, id: Id, pid: Option<nat>): (World, bool) {
    if id !in w.attempts || Terminal(w.attempts[id]) || w.attempts[id].reason == CancelRequested then (w, false) else
    var w1 := w.(attempts := w.attempts[id := w.attempts[id].(state := Deploying, pid := pid)]);
    (SetDeployment(w1, id, Deploying), true)
  }

  /** A PID that is reported for an attempt is that of the process its identity file was written for. */
  predicate NamesRunner(w: World, id: Id, pid: Option<nat>) {
    pid.Some? ==> id in w.recorded && w.recorded[id].pid == pid.value
  }

  datatype Report = Report(rc: Option<int>, cursor: Option<nat>, error: Option<string>, warning: Option<string>,
                           cancelled: bool, unknown: bool, partial: bool)

  function Verdict(r: Report): Outcome {
    if r.cancelled then Cancelled else if r.unknown then Unknown else if r.partial then Partial
    else if r.rc == Some(0) && r.error.None? then Succeeded else Failed
  }

  function ReasonOf(r: Report): Reason {
    if r.error.Some? && r.error.value != "" then Code(r.error.value) else if r.warning.Some? then Code(r.warning.value) else NoReason
  }

  /** The attempt after a completion callback. */
  function Finished(a: Attempt, r: Report): Attempt {
    var b := if Terminal(a) then a
             else if a.reason == CancelRequested then a.(state := Ended(Cancelled), rc := r.rc)
             else a.(state := Ended(Verdict(r)), rc := r.rc, reason := ReasonOf(r));
    var c := if b.rc.None? then b.(rc := r.rc) else b;
    if r.cursor.Some? && c.cursor < r.cursor.value then c.(cursor := r.cursor.value) else c
  }

  function Finish(w: World, id: Id, r: Report): World {
    if id !in w.attempts then w else
    var a := Finished(w.attempts[id], r);
    Release(SetDeployment(w.(attempts := w.attempts[id := a]), id, a.state), a.deployment, ByAttempt(id))
  }

  function Advance(w: World, id: Id, cursor: nat): World {
    if id in w.attempts && w.attempts[id].cursor < cursor
    then w.(attempts := w.attempts[id := w.attempts[id].(cursor := cursor)]) else w
  }

  /** The cancel endpoint: claim the current attempt, then signal; tracked is whether a local task is starting it. */
  function Cancel(w: World, deployment: Id, signalled: bool, tracked: bool): World {
    if deployment !in w.deployments || w.deployments[deployment].current.None? then w else
    var id := w.deployments[deployment].current.value;
    if id !in w.attempts || Terminal(w.attempts[id]) then w
    else if !signalled && !(w.attempts[id].state.Pending? && tracked) then w
    else w.(attempts := w.attempts[id := w.attempts[id].(reason := CancelRequested)])
  }

  // ---------------------------------------------------------------- recovery after a restart

  predicate NeedsRecovery(w: World, id: Id)
    requires id in w.attempts
  {
    var a := w.attempts[id];
    || !Terminal(a)
    || (a.state == Ended(Cancelled) && a.deployment in w.locks && w.locks[a.deployment].owner == ByAttempt(id))
  }

  function Lost(rc: Option<int>): Report {
    Report(rc, None, if rc.None? then Some("RUNNER_EXIT_UNOBSERVED") else None, None, false, rc.None?, false)
  }

  /** Finish an attempt whose process is gone, and advance its cursor past its closing event. */
  function FinishRecovered(w: World, id: Id, rc: Option<int>, tip: nat): World {
    Finish(Finish(w, id, Lost(rc)), id, Report(rc, Some(tip), None, None, false, false, false))
  }

  /** The PID of a row read earlier, or else the one in the attempt's files. */
  function KnownPid(w: World, id: Id, row: Option<nat>): Option<nat> {
    if row.Some? then row else if id in w.recorded then Some(w.recorded[id].pid) else None
  }

  /** A pass that acts on the row finds its process gone, and nobody else looking after it. */
  predicate FindsDead(w: World, id: Id, row: Option<nat>, tracked: bool, young: bool) {
    var pid := KnownPid(w, id, row);
    !tracked && (pid.Some? || !young) && !(pid.Some? && ProcessMatches(w, id, pid.value))
  }

  /** One attempt of a reconcile pass: adopt a live runner under its own lock, or finish a dead one. The pass
      acts on the row it read when it began, whatever has become of the attempt since. */
  function Recover(w: World, id: Id, row: Option<nat>, tracked: bool, rc: Option<int>, tip: nat, young: bool): World {
    var pid := KnownPid(w, id, row);
    if id !in w.attempts || tracked || (pid.None? && young) then w
    else if pid.Some? && ProcessMatches(w, id, pid.value) then
      var d := w.attempts[id].deployment;
      if d in w.locks then w else w.(locks := w.locks[d := Lock(ByAttempt(id), w.now, 30)])
    else FinishRecovered(w, id, rc, tip)
  }

  // ---------------------------------------------------------------- runs

  datatype Event =
    | DoReserve(deployment: Id, id: Id)
    | Launch(id: Id, pid: nat)
    | Other(pid: nat)
    | Exit(pid: nat)
    | Reboot
    | DoMark(id: Id, spawned: Option<nat>)
    | DoFinish(id: Id, r: Report)
    | DoAdvance(id: Id, cursor: nat)
    | DoHeartbeat(deployment: Id, owner: Owner)
    | DoCancel(deployment: Id, signalled: bool, tracked: bool)
    | DoAcquire(deployment: Id, owner: Owner, interval: nat)
    | DoCleanup(only: Option<Id>)
    | DoRecover(id: Id, row: Option<nat>, tracked: bool, rc: Option<int>, tip: nat, young: bool)
    | Tick(seconds: nat)

  /** A process starts under a free PID, which earlier processes may have had. */
  function Start(w: World, pid: nat, whose: Option<Id>): World {
    w.(live := w.live[pid := w.starts], starts := w.starts + 1, born := w.born[(w.boot, w.starts) := whose])
  }

  function Next(w: World, e: Event): World {
    match e
    case DoReserve(deployment, id) => Reserve(w, deployment, id)
    case Launch(id, pid) =>
      if pid in w.live || id !in w.attempts || id in w.recorded then w
      else Start(w, pid, Some(id)).(recorded := w.recorded[id := Identity(pid, w.starts, w.boot)])
    case Other(pid) => if pid in w.live then w else Start(w, pid, None)
    case Exit(pid) => w.(live := w.live - {pid})
    case Reboot => w.(live := map[], boot := w.boot + 1, starts := 0)
    case DoMark(id, spawned) => if NamesRunner(w, id, spawned) then MarkRunning(w, id, spawned).0 else w
    case DoFinish(id, r) => Finish(w, id, r)
    case DoAdvance(id, cursor) => Advance(w, id, cursor)
    case DoHeartbeat(deployment, owner) => Heartbeat(w, deployment, owner)
    case DoCancel(deployment, signalled, tracked) => Cancel(w, deployment, signalled, tracked)
    case DoAcquire(deployment, owner, interval) => Acquire(w, deployment, owner, interval).0
    case DoCleanup(only) => Cleanup(w, only)
    case DoRecover(id, row, tracked, rc, tip, young) => Recover(w, id, row, tracked, rc, tip, young)
    case Tick(seconds) => w.(now := w.now + seconds)
  }

  function Run(w: World, events: seq<Event>): World {
    if events == [] then w else Next(Run(w, events[..|events| - 1]), events[|events| - 1])
  }
}
