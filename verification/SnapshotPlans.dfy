/** When a plan is made, cancelled, started or past starting: each over the recorded fields. */
module SnapshotPlans {
  import opened Wrappers
  import opened SnapshotModel
  import opened SnapshotSafety
  import opened SnapshotSteps
  import opened SnapshotTheorems
  import opened SnapshotTurns

  // ---------------------------------------------------------------- starting

  /** Nobody holds the deployment's lock, or only one whose heartbeat is more than three intervals old and
      whose owner is gone: an active operation is never gone, another runner only when its process is. */
  ghost predicate NobodyHolds(db: Db, now: int, d: Id, processAlive: bool) {
    d in db.locks ==>
      var l := db.locks[d];
      && now - l.heartbeat > 3 * l.interval
      && !(l.owner in db.attempts && db.attempts[l.owner].deployment == d
           && if db.attempts[l.owner].snapshotSet
              then exists o :: o in db.ops && db.ops[o].attempt == Some(l.owner) && (db.ops[o].state.Running? || db.ops[o].state.NeedsReview?)
              else processAlive)
  }

  /** The reviewed plan may still be started: by its own digest, in time, on an unchanged target, with the
      members as reviewed and nothing else at work on the deployment. */
  ghost predicate MayStart(w: World, op: Id, l: Label)
    requires op in w.db.ops
  {
    var o := w.db.ops[op];
    && l.LBegin? && l.digest == o.plan && w.dispatcher.None? && o.state.OpPlanned? && w.clock < o.expires
    && l.setId == o.plan.set_ && o.plan.set_ in w.db.sets && w.db.sets[o.plan.set_].deployment == l.deployment
    && !TargetChanged(w.db, w.db.sets[o.plan.set_]) && l.guards
    && (var current := w.db.deployments[l.deployment].current;
        current.None? || current.value !in w.db.attempts || w.db.attempts[current.value].terminal)
    && l.attempt !in w.db.attempts && NobodyHolds(w.db, w.clock, l.deployment, l.processAlive)
  }

  lemma NobodyHoldsExactly(db: Db, now: int, d: Id, processAlive: bool)
    ensures NobodyHolds(db, now, d, processAlive) <==> LockFree(db, now, d, processAlive)
  {}

  lemma BeginExactly(w: World, op: Id, l: Label)
    requires Inv(w) && op in w.db.ops && l.LBegin? && l.digest.id == op
    ensures Executable(w, l.deployment, l.setId, l.digest, l.attempt, l.guards, l.processAlive) <==> MayStart(w, op, l)
  {
    NobodyHoldsExactly(w.db, w.clock, l.deployment, l.processAlive);
    assert OpOk(op, w.db.ops[op]);
    hide Inv, LockFree, NobodyHolds, OpOk;
  }

  lemma OthersDoNotStart(w: World, op: Id, l: Label)
    requires Inv(w) && op in w.db.ops && w.db.ops[op].attempt.None? && !(l.LBegin? && l.digest.id == op)
    ensures op in Step(w, l).db.ops && Step(w, l).db.ops[op].attempt.None?
  {
    StepMoves(w, l, op);
    if l.LBegin? {
      BeginsOneOnly(w, l, op);
    } else {
      hide Inv, Step, OpMoves;
      OnlyBeginStarts(w, l, op);
    }
  }

  lemma BeginsOneOnly(w: World, l: Label, op: Id)
    requires op in w.db.ops && l.LBegin? && l.digest.id != op
    ensures op in Step(w, l).db.ops && Step(w, l).db.ops[op].attempt == w.db.ops[op].attempt
  {
    hide Executable;
  }

  /** An operation starts in a step if and only if the step is a start of this plan and the plan may start. */
  lemma StartsExactly(w: World, op: Id, l: Label)
    requires Inv(w) && op in w.db.ops && w.db.ops[op].attempt.None?
    ensures op in Step(w, l).db.ops && (Step(w, l).db.ops[op].attempt.Some? <==> MayStart(w, op, l))
  {
    assert OpOk(op, w.db.ops[op]);
    hide OpOk;
    if l.LBegin? && l.digest.id == op {
      BeginExactly(w, op, l);
      hide Inv, MayStart, Executable;
    } else {
      OthersDoNotStart(w, op, l);
      hide Inv, Step;
    }
  }

  /** The whole effect of a start. */
  lemma StartMeans(w: World, op: Id, l: Label)
    requires Inv(w) && op in w.db.ops && MayStart(w, op, l)
    ensures var o, w' := w.db.ops[op], Step(w, l);
            && w'.dispatcher == Some(Dispatcher(op, 0, Ready)) && w'.issued == w.issued && w'.clock == w.clock
            && w'.db.hosts == w.db.hosts
            && w'.db.attempts == w.db.attempts[l.attempt := Attempt(l.deployment, true, false, None)]
            && w'.db.locks == w.db.locks[l.deployment := Lock(l.attempt, w.clock, 30)]
            && w'.db.deployments == w.db.deployments[l.deployment := w.db.deployments[l.deployment].(current := Some(l.attempt))]
            && w'.db.sets == w.db.sets[o.plan.set_ := w.db.sets[o.plan.set_].(state :=
                 if o.plan.kind.Create? then Creating else if o.plan.kind.Rollback? then RollingBack else Deleting)]
            && w'.db.ops.Keys == w.db.ops.Keys
            && w'.db.ops[op] == o.(state := Running, attempt := Some(l.attempt))
            && forall p :: p in w.db.ops && p != op ==>
                 w'.db.ops[p] == if w.db.ops[p].plan.set_ == o.plan.set_ && w.db.ops[p].state.OpPlanned?
                                 then w.db.ops[p].(state := Superseded) else w.db.ops[p]
  {
    BeginExactly(w, op, l);
    assert OpOk(op, w.db.ops[op]) && l.digest.id == op;
    hide Inv, MayStart, OpOk, LockFree;
  }

  // ---------------------------------------------------------------- expiry

  lemma ClockGoesOn(w: World, l: Label)
    ensures Step(w, l).clock >= w.clock
  {}

  lemma ExpiryStays(w: World, l: Label, op: Id)
    requires op in w.db.ops
    ensures op in Step(w, l).db.ops && Step(w, l).db.ops[op].expires == w.db.ops[op].expires
  {
    hide Begin, Intend, Conclude, Reconcile, CancelPlan, Happen, PlanExisting, PlanCreate;
    match l
    case LReconcile(o, seen) => ReconcileKeepsExpiry(w, o, seen, op);
    case LEnvironment(c) => HappenFrame(w, c);
    case LBegin(d, s, digest, a, guards, alive) => BeginKeepsExpiry(w, d, s, digest, a, guards, alive, op);
    case LIntend(guard) => IntendKeepsExpiry(w, guard, op);
    case LConclude(answer) => ConcludeKeepsExpiry(w, answer, op);
    case _ => PlanningKeepsExpiry(w, l, op);
  }

  lemma IntendKeepsExpiry(w: World, guard: bool, op: Id)
    requires op in w.db.ops
    ensures op in Intend(w, guard).db.ops && Intend(w, guard).db.ops[op].expires == w.db.ops[op].expires
  {
    hide Bound, Abandon;
  }

  lemma ConcludeKeepsExpiry(w: World, answer: Answer, op: Id)
    requires op in w.db.ops
    ensures op in Conclude(w, answer).db.ops && Conclude(w, answer).db.ops[op].expires == w.db.ops[op].expires
  {
    hide ValidTask, Abandon;
  }

  lemma PlanningKeepsExpiry(w: World, l: Label, op: Id)
    requires op in w.db.ops && (l.LPlanCreate? || l.LPlanExisting? || l.LCancelPlan? || l.LIssue? || l.LCrash?)
    ensures op in Step(w, l).db.ops && Step(w, l).db.ops[op].expires == w.db.ops[op].expires
  {
    hide Remaining, NewOperation, FindMember, Bound, SameGuests, Plannable, Kept, DistinctVms;
  }

  lemma BeginKeepsExpiry(w: World, d: Id, s: Id, digest: Plan, a: Id, guards: bool, alive: bool, op: Id)
    requires op in w.db.ops
    ensures op in Begin(w, d, s, digest, a, guards, alive).db.ops
    ensures Begin(w, d, s, digest, a, guards, alive).db.ops[op].expires == w.db.ops[op].expires
  {
    hide LockFree, Bound;
  }

  lemma ReconcileKeepsExpiry(w: World, o: Id, seen: seq<Observation>, op: Id)
    requires op in w.db.ops
    ensures op in Reconcile(w, o, seen).db.ops && Reconcile(w, o, seen).db.ops[op].expires == w.db.ops[op].expires
  {
    hide OutcomeOf, ReconcileRows, AllFinal, Ambiguous, Settled, ReleaseLock, Bound;
  }

  /** A plan that has expired is never started, whatever happens later. */
  lemma {:induction false} ExpiredNeverStarts(w: World, labels: seq<Label>, op: Id)
    requires Inv(w) && op in w.db.ops && w.db.ops[op].attempt.None? && w.clock >= w.db.ops[op].expires
    ensures op in Run(w, labels).db.ops && Run(w, labels).db.ops[op].attempt.None?
    decreases |labels|
  {
    hide Inv, Step, MayStart;
    if labels != [] {
      var w1 := Step(w, labels[0]);
      StartsExactly(w, op, labels[0]);
      NotInTime(w, op, labels[0]);
      ClockGoesOn(w, labels[0]);
      ExpiryStays(w, labels[0], op);
      StepKeeps(w, labels[0]);
      ExpiredNeverStarts(w1, labels[1..], op);
    }
  }

  lemma NotInTime(w: World, op: Id, l: Label)
    requires op in w.db.ops && w.clock >= w.db.ops[op].expires
    ensures !MayStart(w, op, l)
  {}

  // ---------------------------------------------------------------- planning

  /** Both lists name the same guests, with the same identity, in the same order. */
  predicate StillTheGuests(observed: seq<Member>, members: seq<Member>) {
    && |observed| == |members|
    && forall i | 0 <= i < |members| :: observed[i].vm == members[i].vm && observed[i].uuid == members[i].uuid
  }

  ghost predicate OfSet(s: SnapshotSet, vm: nat) { exists m :: m in s.members && m.vm == vm }

  /** A rollback or a delete of this set can be planned: from a finished set on an unchanged target, with its
      own guests, with something left to work on, and for a rollback with every proof unchanged. */
  ghost predicate MayPlan(w: World, l: Label) {
    && l.LPlanExisting? && !l.kind.Create? && l.setId in w.db.sets && l.opId !in w.db.ops
    && var s := w.db.sets[l.setId];
    && s.deployment == l.deployment && !TargetChanged(w.db, s)
    && (s.state.Complete? || (l.kind.Delete? && (s.state.SetPartial? || s.state.SetFailed?)))
    && (l.retention.Some? ==> l.eligible) && StillTheGuests(l.observed, s.members)
    && (exists m :: m in l.observed && m.vm in l.found)
    && (l.kind.Rollback? ==> forall m :: m in s.members ==> m.vm in l.found && m.proof == Some(l.found[m.vm]))
  }

  lemma {:induction false} FoundOf(members: seq<Member>, vm: nat)
    ensures FindMember(members, vm).Some? <==> exists m :: m in members && m.vm == vm
  {
    if members != [] { FoundOf(members[1..], vm); }
  }

  lemma {:induction false} RemainingMeans(members: seq<Member>, proofs: map<nat, Proof>)
    ensures forall m :: m in Remaining(members, proofs) <==> m in members && m.vm in proofs
  {
    if members != [] { RemainingMeans(members[1..], proofs); }
  }

  lemma KeptMeans(s: SnapshotSet, found: map<nat, Proof>, observed: seq<Member>)
    requires StillTheGuests(observed, s.members)
    ensures forall v :: v in Kept(s, found) <==> v in found && OfSet(s, v)
    ensures forall m :: m in Remaining(observed, Kept(s, found)) <==> m in observed && m.vm in found
    ensures forall m :: m in s.members ==> (m.vm in Kept(s, found) <==> m.vm in found)
  {
    forall v ensures FindMember(s.members, v).Some? <==> OfSet(s, v) { FoundOf(s.members, v); }
    RemainingMeans(observed, Kept(s, found));
    forall m | m in observed ensures OfSet(s, m.vm) {
      var i :| 0 <= i < |observed| && observed[i] == m;
      assert s.members[i] in s.members && s.members[i].vm == m.vm;
    }
  }

  function PlanOf(s: SnapshotSet, l: Label): Plan
    requires l.LPlanExisting?
  {
    Plan(l.opId, l.setId, l.kind, s.host, s.sha, Remaining(l.observed, Kept(s, l.found)), Kept(s, l.found), l.retention)
  }

  /** The guards in the order in which they are asked. */
  predicate Passes(w: World, l: Label) {
    && l.LPlanExisting? && !l.kind.Create? && l.setId in w.db.sets && l.opId !in w.db.ops
    && var s := w.db.sets[l.setId];
    && s.deployment == l.deployment && Plannable(l.kind, s.state) && Bound(w.db, s) && (l.retention.Some? ==> l.eligible)
    && SameGuests(l.observed, s.members) && Remaining(l.observed, Kept(s, l.found)) != []
    && !(l.kind.Rollback? && exists m | m in s.members :: m.vm !in Kept(s, l.found) || m.proof != Some(Kept(s, l.found)[m.vm]))
  }

  lemma PassesExactly(w: World, l: Label)
    ensures Passes(w, l) <==> MayPlan(w, l)
  {
    if l.LPlanExisting? && l.setId in w.db.sets && StillTheGuests(l.observed, w.db.sets[l.setId].members) {
      var s := w.db.sets[l.setId];
      KeptMeans(s, l.found, l.observed);
      var members := Remaining(l.observed, Kept(s, l.found));
      assert members != [] ==> members[0] in members;
      hide OfSet, Remaining;
      forall m | m in s.members ensures m.vm in Kept(s, l.found) <==> m.vm in l.found {}
      hide FindMember;
    }
  }

  lemma PlansIfPasses(w: World, l: Label)
    requires l.LPlanExisting? && l.opId !in w.db.ops && l.setId in w.db.sets
    ensures Step(w, l) == if Passes(w, l)
                          then w.(db := w.db.(ops := w.db.ops[l.opId := NewOperation(PlanOf(w.db.sets[l.setId], l), w.clock)])) else w
  {
    hide Remaining, NewOperation, FindMember, Bound, SameGuests, Plannable, Kept;
  }

  lemma NewOperationMeans(plan: Plan, now: int)
    ensures var o := NewOperation(plan, now);
            && o.plan == o.digest == plan && o.state.OpPlanned? && o.attempt.None? && o.expires == now + 300
            && |o.rows| == |plan.members|
            && forall i :: 0 <= i < |o.rows| ==> o.rows[i] == Row(plan.members[i].vm, Planned, None, None)
  {}

  /** Planning on an existing set makes the plan exactly when it may be made; the plan holds the guests that
      still have a snapshot, the proofs found for the set, the target and the time to start it. */
  lemma PlansExactly(w: World, l: Label)
    requires l.LPlanExisting? && l.opId !in w.db.ops
    ensures l.opId in Step(w, l).db.ops <==> MayPlan(w, l)
    ensures !MayPlan(w, l) ==> Step(w, l) == w
    ensures MayPlan(w, l) ==>
              var s, w' := w.db.sets[l.setId], Step(w, l);
              var o := w'.db.ops[l.opId];
              && w' == w.(db := w.db.(ops := w.db.ops[l.opId := o]))
              && o.plan.id == l.opId && o.plan.set_ == l.setId && o.plan.kind == l.kind && o.plan.host == s.host && o.plan.sha == s.sha
              && o.digest == o.plan && o.plan.retention == l.retention
              && (forall m :: m in o.plan.members <==> m in l.observed && m.vm in l.found)
              && (forall v :: v in o.plan.snapshots <==> v in l.found && OfSet(s, v))
              && (forall v :: v in o.plan.snapshots ==> o.plan.snapshots[v] == l.found[v])
              && o.state.OpPlanned? && o.attempt.None? && o.expires == w.clock + 300 && |o.rows| == |o.plan.members|
              && forall i :: 0 <= i < |o.rows| ==> o.rows[i] == Row(o.plan.members[i].vm, Planned, None, None)
  {
    PassesExactly(w, l);
    if l.setId in w.db.sets {
      PlansIfPasses(w, l);
      var s := w.db.sets[l.setId];
      NewOperationMeans(PlanOf(s, l), w.clock);
      if MayPlan(w, l) { GuestsAgree(w, l); KeptMeans(s, l.found, l.observed); }
      hide Step, Remaining, MayPlan, OfSet, NewOperation, Passes, FindMember;
    } else {
      hide Kept, OfSet, TargetChanged;
    }
  }

  lemma GuestsAgree(w: World, l: Label)
    requires MayPlan(w, l)
    ensures l.LPlanExisting? && l.setId in w.db.sets && StillTheGuests(l.observed, w.db.sets[l.setId].members)
  {
    hide OfSet, TargetChanged;
  }

  /** A create is planned exactly for one to sixty-four different guests without snapshots, on the
      deployment's registered host, under fresh identifiers; nothing else changes. */
  lemma CreatesExactly(w: World, l: Label)
    requires l.LPlanCreate? && l.opId !in w.db.ops && l.setId !in w.db.sets
    ensures var may := l.deployment in w.db.deployments && w.db.deployments[l.deployment].hostId in w.db.hosts
                       && 1 <= |l.observed| <= 64 && (forall m :: m in l.observed ==> m.proof.None?)
                       && forall i, j :: 0 <= i < j < |l.observed| ==> l.observed[i].vm != l.observed[j].vm;
            && (l.opId in Step(w, l).db.ops <==> may) && (!may ==> Step(w, l) == w)
            && (may ==>
                  var d, w' := w.db.deployments[l.deployment], Step(w, l);
                  l.opId in w'.db.ops && l.setId in w'.db.sets &&
                  var o, s := w'.db.ops[l.opId], w'.db.sets[l.setId];
                  && w' == w.(db := w.db.(ops := w.db.ops[l.opId := o], sets := w.db.sets[l.setId := s]))
                  && s == SnapshotSet(l.deployment, d.sha, w.db.hosts[d.hostId], SetPlanned, l.observed)
                  && o.plan == Plan(l.opId, l.setId, Create, s.host, s.sha, l.observed, map[], None) && o.digest == o.plan
                  && o.state.OpPlanned? && o.attempt.None? && o.expires == w.clock + 300 && |o.rows| == |l.observed|
                  && forall i :: 0 <= i < |o.rows| ==> o.rows[i] == Row(l.observed[i].vm, Planned, None, None))
  {}

  /** A plan is cancelled exactly when it belongs to the set, still waits and was never attempted. */
  lemma CancelsExactly(w: World, setId: Id, op: Id)
    requires op in w.db.ops
    ensures var o := w.db.ops[op];
            Step(w, LCancelPlan(setId, op)) ==
              if o.plan.set_ == setId && o.state.OpPlanned? && o.attempt.None?
              then w.(db := w.db.(ops := w.db.ops[op := o.(state := OpState.Cancelled)])) else w
  {}

  // ---------------------------------------------------------------- fresh locks

  /** Within three intervals of its heartbeat no step takes, sweeps or hands on a lock, but the end of its
      own attempt: an ordinary completion, or the reconcile that settles its operation. */
  lemma FreshLockStays(w: World, l: Label, d: Id)
    requires d in w.db.locks && w.clock - w.db.locks[d].heartbeat <= 3 * w.db.locks[d].interval
    requires !(l.LEnvironment? && l.change.Finish? && l.change.attempt == w.db.locks[d].owner)
    requires !(l.LReconcile? && l.opId in w.db.ops && w.db.ops[l.opId].attempt == Some(w.db.locks[d].owner))
    ensures d in Step(w, l).db.locks && Step(w, l).db.locks[d].owner == w.db.locks[d].owner
  {
    hide Begin, Intend, Conclude, Reconcile, CancelPlan, Happen, PlanExisting, PlanCreate;
    match l
    case LReconcile(o, seen) => ReconcileKeepsLock(w, o, seen, d);
    case LEnvironment(c) => HappenKeepsLock(w, c, d);
    case LBegin(e, s, digest, a, guards, alive) => BeginKeepsLock(w, e, s, digest, a, guards, alive, d);
    case LIntend(guard) => IntendKeepsLocks(w, guard);
    case LConclude(answer) => ConcludeKeepsLocks(w, answer);
    case _ => PlanningKeepsLocks(w, l);
  }

  lemma HappenKeepsLock(w: World, c: Change, d: Id)
    requires d in w.db.locks && w.clock - w.db.locks[d].heartbeat <= 3 * w.db.locks[d].interval
    requires !(c.Finish? && c.attempt == w.db.locks[d].owner)
    ensures d in Happen(w, c).db.locks && Happen(w, c).db.locks[d].owner == w.db.locks[d].owner
  {
    hide RunnerAlive;
  }

  lemma BeginKeepsLock(w: World, e: Id, s: Id, digest: Plan, a: Id, guards: bool, alive: bool, d: Id)
    requires d in w.db.locks && w.clock - w.db.locks[d].heartbeat <= 3 * w.db.locks[d].interval
    ensures var w' := Begin(w, e, s, digest, a, guards, alive); d in w'.db.locks && w'.db.locks[d].owner == w.db.locks[d].owner
  {
    hide RunnerAlive, Bound, SupersedeOthers;
  }

  lemma IntendKeepsLocks(w: World, guard: bool)
    ensures Intend(w, guard).db.locks == w.db.locks
  {
    hide Bound, Abandon;
  }

  lemma ConcludeKeepsLocks(w: World, answer: Answer)
    ensures Conclude(w, answer).db.locks == w.db.locks
  {
    hide ValidTask, Abandon;
  }

  lemma PlanningKeepsLocks(w: World, l: Label)
    requires l.LPlanCreate? || l.LPlanExisting? || l.LCancelPlan? || l.LIssue? || l.LCrash?
    ensures Step(w, l).db.locks == w.db.locks
  {
    hide Remaining, NewOperation, FindMember, Bound, SameGuests, Plannable, Kept, DistinctVms;
  }

  lemma ReconcileKeepsLock(w: World, o: Id, seen: seq<Observation>, d: Id)
    requires d in w.db.locks && !(o in w.db.ops && w.db.ops[o].attempt == Some(w.db.locks[d].owner))
    ensures d in Reconcile(w, o, seen).db.locks && Reconcile(w, o, seen).db.locks[d] == w.db.locks[d]
  {
    hide OutcomeOf, ReconcileRows, AllFinal, Ambiguous, Settled, Bound;
  }

  // ---------------------------------------------------------------- ordinary attempts

  /** An ordinary attempt is reserved exactly when the deployment is known, its current attempt has ended and nobody
      holds its lock; it is new, open and not a snapshot attempt, and becomes the current one. */
  lemma OrdinaryReserved(w: World, d: Id, attempt: Id, alive: bool)
    ensures var w' := Happen(w, Reserve(d, attempt, alive));
            var may := d in w.db.deployments && attempt !in w.db.attempts && NobodyHolds(w.db, w.clock, d, alive)
                       && (w.db.deployments[d].current.Some? && w.db.deployments[d].current.value in w.db.attempts ==>
                             w.db.attempts[w.db.deployments[d].current.value].terminal);
            && (!may ==> w' == w)
            && (may ==> w' == w.(db := w'.db)
                        && w'.db == w.db.(attempts := w.db.attempts[attempt := Attempt(d, false, false, None)],
                                          deployments := w'.db.deployments, locks := w.db.locks - {d})
                        && w'.db.deployments == w.db.deployments[d := w.db.deployments[d].(current := Some(attempt))])
  {
    NobodyHoldsExactly(w.db, w.clock, d, alive);
    hide NobodyHolds, LockFree;
  }

  /** An ordinary runner gets the lock exactly when nobody holds it and its attempt, if recorded, is an ordinary one
      of this deployment; an attempt not recorded here is open from then on. */
  lemma OrdinaryAcquired(w: World, d: Id, attempt: Id, interval: nat, alive: bool)
    ensures var w' := Happen(w, Acquire(d, attempt, interval, alive));
            var may := d in w.db.deployments && NobodyHolds(w.db, w.clock, d, alive)
                       && (attempt in w.db.attempts ==> !w.db.attempts[attempt].snapshotSet && w.db.attempts[attempt].deployment == d);
            && (!may ==> w' == w)
            && (may ==> w' == w.(db := w.db.(attempts := w'.db.attempts, locks := w.db.locks[d := Lock(attempt, w.clock, interval)]))
                        && w'.db.attempts.Keys == w.db.attempts.Keys + {attempt}
                        && (forall a :: a in w.db.attempts ==> w'.db.attempts[a] == w.db.attempts[a])
                        && (attempt !in w.db.attempts ==> w'.db.attempts[attempt] == Attempt(d, false, false, None)))
  {
    NobodyHoldsExactly(w.db, w.clock, d, alive);
    hide NobodyHolds, LockFree;
  }

  /** An ordinary completion ends an ordinary attempt with its code and gives back its own lock and no other. */
  lemma OrdinaryFinished(w: World, attempt: Id, rc: int)
    ensures var w' := Happen(w, Finish(attempt, rc));
            if attempt in w.db.attempts && !w.db.attempts[attempt].snapshotSet then
              && w' == w.(db := w.db.(attempts := w.db.attempts[attempt := w.db.attempts[attempt].(terminal := true, rc := Some(rc))],
                                      locks := w'.db.locks))
              && forall d :: (d in w'.db.locks <==> d in w.db.locks && !(d == w.db.attempts[attempt].deployment && w.db.locks[d].owner == attempt))
                             && (d in w'.db.locks ==> w'.db.locks[d] == w.db.locks[d])
            else w' == w
  {}

  /** A sweep removes one deployment's lock exactly when nobody holds it; a heartbeat renews the holder's own. */
  lemma OrdinaryLocks(w: World, d: Id, owner: Id, alive: bool)
    ensures Happen(w, Cleanup(d, alive)) ==
              if NobodyHolds(w.db, w.clock, d, alive) then w.(db := w.db.(locks := w.db.locks - {d})) else w
    ensures d in w.db.locks && w.db.locks[d].owner == owner ==>
              Happen(w, Beat(d, owner)) == w.(db := w.db.(locks := w.db.locks[d := Lock(owner, w.clock, w.db.locks[d].interval)]))
    ensures !(d in w.db.locks && w.db.locks[d].owner == owner) ==> Happen(w, Beat(d, owner)) == w
  {
    NobodyHoldsExactly(w.db, w.clock, d, alive);
    hide LockFree;
    if d !in w.db.locks { assert w.db.locks - {d} == w.db.locks; }
  }
}
