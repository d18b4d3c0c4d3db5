/** The promises of the snapshot protocol, over every run from an empty installation: any number of
    plans, executions, crashes between any two commits, reconciles and other runners. */
module SnapshotTheorems {
  import opened Wrappers
  import opened SnapshotModel
  import opened SnapshotSafety
  import opened SnapshotSteps

  lemma {:induction false} RunKeeps(w: World, labels: seq<Label>)
    requires Inv(w)
    ensures Inv(Run(w, labels))
    decreases |labels|
  {
    if labels != [] {
      StepKeeps(w, labels[0]);
      RunKeeps(Step(w, labels[0]), labels[1..]);
    }
  }

  // ---------------------------------------------------------------- forward movement

  /** A row only moves forward: an accepted write is never doubted, a settled row never changes. */
  predicate RowMoves(a: Row, b: Row) {
    && a.vm == b.vm
    && (a.state == b.state
        || a.state.Planned?
        || (a.state.Dispatching? && !NeverSent(b.state))
        || (a.state.Accepted? && (b.state.Succeeded? || b.state.Failed?)))
  }

  predicate StateMoves(a: OpState, b: OpState) {
    a == b || a.OpPlanned? || (a.Running? && !Unstarted(b))
  }

  ghost predicate OpMoves(a: Operation, b: Operation) {
    && a.plan == b.plan && StateMoves(a.state, b.state)
    && (a.attempt.Some? ==> b.attempt == a.attempt)
    && |a.rows| == |b.rows|
    && forall i :: 0 <= i < |a.rows| ==> RowMoves(a.rows[i], b.rows[i])
  }

  lemma MovesFrom(a: Operation, b: Operation, c: Operation)
    requires OpMoves(a, b) && OpMoves(b, c)
    ensures OpMoves(a, c)
  {
    forall i | 0 <= i < |a.rows| ensures RowMoves(a.rows[i], c.rows[i]) {
      assert RowMoves(a.rows[i], b.rows[i]) && RowMoves(b.rows[i], c.rows[i]);
    }
  }

  lemma BeginMoves(w: World, d: Id, s: Id, digest: Plan, a: Id, guards: bool, alive: bool, id: Id)
    requires OpsOk(w.db.ops) && id in w.db.ops
    ensures var w' := Begin(w, d, s, digest, a, guards, alive); id in w'.db.ops && OpMoves(w.db.ops[id], w'.db.ops[id])
  {
    assert OpOk(id, w.db.ops[id]);
  }

  lemma AbandonMoves(rows: seq<Row>, from: nat)
    requires from <= |rows| && forall i :: from <= i < |rows| ==> rows[i].state.Planned?
    ensures forall i :: 0 <= i < |rows| ==> RowMoves(rows[i], Abandon(rows, from)[i])
  {
  }

  lemma IntendMoves(w: World, guard: bool, id: Id)
    requires DispatcherOk(w) && id in w.db.ops
    ensures id in Intend(w, guard).db.ops && OpMoves(w.db.ops[id], Intend(w, guard).db.ops[id])
  {
    if Intend(w, guard) != w { AbandonMoves(w.db.ops[w.dispatcher.value.op].rows, w.dispatcher.value.index); }
  }

  lemma ConcludeMoves(w: World, answer: Answer, id: Id)
    requires DispatcherOk(w) && id in w.db.ops
    ensures id in Conclude(w, answer).db.ops && OpMoves(w.db.ops[id], Conclude(w, answer).db.ops[id])
  {
    if Conclude(w, answer) != w {
      var d := w.dispatcher.value;
      var rows := w.db.ops[d.op].rows;
      AbandonMoves(rows[d.index := rows[d.index].(state := Unconfirmed)], d.index + 1);
    }
  }

  lemma RowReconciles(row: Row, plan: Plan, m: Member, members: seq<Member>, seen: Observation)
    requires RowOk(plan, m, row)
    ensures RowMoves(row, ReconcileRow(row, plan, members, seen))
  {
  }

  lemma ReconcileMoves(w: World, opId: Id, seen: seq<Observation>, id: Id)
    requires OpsOk(w.db.ops) && id in w.db.ops
    ensures id in Reconcile(w, opId, seen).db.ops && OpMoves(w.db.ops[id], Reconcile(w, opId, seen).db.ops[id])
  {
    var o := w.db.ops[id];
    var w' := Reconcile(w, opId, seen);
    if w' != w && id == opId {
      assert OpOk(id, o);
      var members := w.db.sets[o.plan.set_].members;
      forall i | 0 <= i < |o.rows| ensures RowMoves(o.rows[i], w'.db.ops[id].rows[i]) {
        RowReconciles(o.rows[i], o.plan, o.plan.members[i], members, seen[i]);
      }
      if InDoubt(o.rows) { DoubtStops(o, w'.db.ops[id].rows, members, seen); }
    }
  }

  lemma DoubtStops(o: Operation, rows: seq<Row>, members: seq<Member>, seen: seq<Observation>)
    requires InDoubt(o.rows) && |seen| == |o.rows| && rows == ReconcileRows(o.rows, o.plan, members, seen)
    ensures !AllFinal(rows) && Ambiguous(rows)
  {
    DoubtStays(o.plan, members, o.rows, seen);
    var i :| 0 <= i < |rows| && rows[i].state.Unconfirmed?;
    assert rows[i] in rows;
  }

  lemma Unmoved(o: Operation)
    ensures OpMoves(o, o)
  {
  }

  /** Planning touches no other operation, and cancelling only one that never started. */
  lemma PlanningFrame(w: World, l: Label, id: Id)
    requires l.LPlanCreate? || l.LPlanExisting? || l.LIssue? || l.LCrash?
    requires id in w.db.ops
    ensures id in Step(w, l).db.ops && Step(w, l).db.ops[id] == w.db.ops[id]
  {
  }

  lemma CancelMoves(w: World, s: Id, o: Id, id: Id)
    requires id in w.db.ops
    ensures id in CancelPlan(w, s, o).db.ops && OpMoves(w.db.ops[id], CancelPlan(w, s, o).db.ops[id])
  {
    if CancelPlan(w, s, o) == w || id != o { Unmoved(w.db.ops[id]); }
  }

  lemma StepMoves(w: World, l: Label, id: Id)
    requires OpsOk(w.db.ops) && DispatcherOk(w) && id in w.db.ops
    ensures id in Step(w, l).db.ops && OpMoves(w.db.ops[id], Step(w, l).db.ops[id])
  {
    hide Begin, Intend, Conclude, Reconcile, CancelPlan, Happen, PlanExisting, PlanCreate, Issue, Crash, OpMoves, OpsOk, DispatcherOk;
    match l
    case LBegin(d, s, digest, a, guards, alive) => BeginMoves(w, d, s, digest, a, guards, alive, id);
    case LIntend(guard) => IntendMoves(w, guard, id);
    case LConclude(answer) => ConcludeMoves(w, answer, id);
    case LReconcile(o, seen) => ReconcileMoves(w, o, seen, id);
    case LCancelPlan(s, o) => CancelMoves(w, s, o, id);
    case LEnvironment(c) => HappenFrame(w, c); Unmoved(w.db.ops[id]);
    case _ => PlanningFrame(w, l, id); Unmoved(w.db.ops[id]);
  }

  lemma {:induction false} RunMoves(w: World, labels: seq<Label>, id: Id)
    requires Inv(w) && id in w.db.ops
    ensures id in Run(w, labels).db.ops && OpMoves(w.db.ops[id], Run(w, labels).db.ops[id])
    decreases |labels|
  {
    if labels != [] {
      var w1 := Step(w, labels[0]);
      StepKeeps(w, labels[0]);
      StepMoves(w, labels[0], id);
      RunMoves(w1, labels[1..], id);
      MovesFrom(w.db.ops[id], w1.db.ops[id], Run(w, labels).db.ops[id]);
    }
  }

  // ---------------------------------------------------------------- at-most-once dispatch

  /** No member of any operation is ever written twice, and a row that says it was not started
      (or still waits) has never been written. */
  lemma AtMostOnce(labels: seq<Label>, id: Id, i: nat)
    ensures var w := Run(EMPTY_WORLD, labels);
            && w.issued[(id, i)] <= 1
            && (id in w.db.ops && i < |w.db.ops[id].rows| && NeverSent(w.db.ops[id].rows[i].state)
                ==> w.issued[(id, i)] == 0)
  {
    RunKeeps(EMPTY_WORLD, labels);
    var w := Run(EMPTY_WORLD, labels);
    if (id, i) in w.issued { }
  }

  /** Marking a waiting row as not started is sound: whatever happens afterwards, that member is never written. */
  lemma NotStartedForever(w: World, labels: seq<Label>, id: Id, i: nat)
    requires Inv(w) && id in w.db.ops && i < |w.db.ops[id].rows| && w.db.ops[id].rows[i].state.NotStarted?
    ensures Run(w, labels).issued[(id, i)] == 0
    ensures id in Run(w, labels).db.ops && i < |Run(w, labels).db.ops[id].rows|
    ensures Run(w, labels).db.ops[id].rows[i].state.NotStarted?
  {
    RunKeeps(w, labels);
    RunMoves(w, labels, id);
    assert RowMoves(w.db.ops[id].rows[i], Run(w, labels).db.ops[id].rows[i]);
    if (id, i) in Run(w, labels).issued { }
  }

  predicate Confirmed(s: RowState) { s.Accepted? || s.Succeeded? || s.Failed? }

  /** Every row that names an accepted task, or its outcome, stands for a write that was really sent. */
  ghost predicate ConfirmedOk(ops: map<Id, Operation>, issued: multiset<(Id, nat)>) {
    forall id :: id in ops ==> forall i: nat :: i < |ops[id].rows| && Confirmed(ops[id].rows[i].state) ==> (id, i) in issued
  }

  /** What one step may confirm about one operation. */
  ghost predicate ConfirmsOnly(w: World, w': World, id: Id) {
    id in w'.db.ops ==> forall i: nat :: i < |w'.db.ops[id].rows| && Confirmed(w'.db.ops[id].rows[i].state) ==>
      (id, i) in w.issued
      || (id in w.db.ops && i < |w.db.ops[id].rows| && Confirmed(w.db.ops[id].rows[i].state))
  }

  lemma ConcludeConfirms(w: World, answer: Answer, id: Id)
    requires DispatcherOk(w)
    ensures ConfirmsOnly(w, Conclude(w, answer), id)
  {
  }

  lemma IntendConfirms(w: World, guard: bool, id: Id)
    requires DispatcherOk(w)
    ensures ConfirmsOnly(w, Intend(w, guard), id)
  {
  }

  lemma ReconcileConfirms(w: World, opId: Id, seen: seq<Observation>, id: Id)
    requires OpsOk(w.db.ops)
    ensures ConfirmsOnly(w, Reconcile(w, opId, seen), id)
  {
    if id in w.db.ops { assert OpOk(id, w.db.ops[id]); }
    var w' := Reconcile(w, opId, seen);
    if w' != w && id == opId {
      var o := w.db.ops[id];
      forall i: nat | i < |o.rows| && Confirmed(w'.db.ops[id].rows[i].state) ensures Confirmed(o.rows[i].state) {
        assert RowOk(o.plan, o.plan.members[i], o.rows[i]);
      }
    }
  }

  lemma PlanningConfirms(w: World, l: Label, id: Id)
    requires l.LPlanCreate? || l.LPlanExisting? || l.LCancelPlan? || l.LIssue? || l.LCrash?
    ensures ConfirmsOnly(w, Step(w, l), id)
  {
  }

  lemma StepConfirms(w: World, l: Label, id: Id)
    requires OpsOk(w.db.ops) && DispatcherOk(w)
    ensures ConfirmsOnly(w, Step(w, l), id)
  {
    match l
    case LBegin(d, s, digest, a, guards, alive) =>
    case LIntend(guard) => IntendConfirms(w, guard, id);
    case LConclude(answer) => ConcludeConfirms(w, answer, id);
    case LReconcile(o, seen) => ReconcileConfirms(w, o, seen, id);
    case LEnvironment(c) => HappenFrame(w, c);
    case _ => PlanningConfirms(w, l, id);
  }

  lemma IssuedGrows(w: World, l: Label)
    ensures w.issued <= Step(w, l).issued
  {
    if l.LEnvironment? { HappenFrame(w, l.change); }
  }

  lemma {:induction false} RunConfirms(w: World, labels: seq<Label>)
    requires Inv(w) && ConfirmedOk(w.db.ops, w.issued)
    ensures ConfirmedOk(Run(w, labels).db.ops, Run(w, labels).issued)
    decreases |labels|
  {
    if labels != [] {
      var w1 := Step(w, labels[0]);
      StepKeeps(w, labels[0]);
      IssuedGrows(w, labels[0]);
      forall id | id in w1.db.ops
        ensures forall i: nat :: i < |w1.db.ops[id].rows| && Confirmed(w1.db.ops[id].rows[i].state) ==> (id, i) in w1.issued
      {
        StepConfirms(w, labels[0], id);
      }
      RunConfirms(w1, labels[1..]);
    }
  }

  /** A confirmed row was written exactly once, a row not started never; only a row still
      dispatching or in doubt leaves the question open. */
  lemma RowsTellWhatWasSent(labels: seq<Label>, id: Id, i: nat)
    requires var w := Run(EMPTY_WORLD, labels); id in w.db.ops && i < |w.db.ops[id].rows|
    ensures var w := Run(EMPTY_WORLD, labels);
            && (Confirmed(w.db.ops[id].rows[i].state) ==> w.issued[(id, i)] == 1)
            && (NeverSent(w.db.ops[id].rows[i].state) ==> w.issued[(id, i)] == 0)
  {
    AtMostOnce(labels, id, i);
    RunConfirms(EMPTY_WORLD, labels);
    var w := Run(EMPTY_WORLD, labels);
    if Confirmed(w.db.ops[id].rows[i].state) { assert (id, i) in w.issued; }
  }

  /** A native write leaves the process only after its intent is on record. */
  lemma IntentBeforeWrite(labels: seq<Label>)
    requires Issue(Run(EMPTY_WORLD, labels)) != Run(EMPTY_WORLD, labels)
    ensures var w := Run(EMPTY_WORLD, labels);
            && w.dispatcher.Some? && w.dispatcher.value.op in w.db.ops
            && var d := w.dispatcher.value;
               && d.index < |w.db.ops[d.op].rows| && w.db.ops[d.op].rows[d.index].state.Dispatching?
               && Issue(w).issued == w.issued + multiset{(d.op, d.index)} && (d.op, d.index) !in w.issued
  {
    RunKeeps(EMPTY_WORLD, labels);
  }

  // ---------------------------------------------------------------- coherence

  /** A finished operation reports exactly what its rows say. */
  lemma TerminalMeansRows(labels: seq<Label>, id: Id)
    requires id in Run(EMPTY_WORLD, labels).db.ops && Terminal(Run(EMPTY_WORLD, labels).db.ops[id].state)
    ensures var o := Run(EMPTY_WORLD, labels).db.ops[id];
            && (forall r :: r in o.rows ==> Final(r.state))
            && (o.state.OpSucceeded? <==> forall r :: r in o.rows ==> r.state.Succeeded?)
            && (o.state.OpFailed? <==> forall r :: r in o.rows ==> !r.state.Succeeded?)
            && (o.state.OpPartial? <==> (exists r :: r in o.rows && r.state.Succeeded?)
                                        && (exists r :: r in o.rows && !r.state.Succeeded?))
  {
    RunKeeps(EMPTY_WORLD, labels);
    var o := Run(EMPTY_WORLD, labels).db.ops[id];
    assert OpOk(id, o) && o.rows[0] in o.rows;
  }

  /** A complete set has, for every member, a native proof of exactly the configuration reviewed. */
  lemma CompleteMeansProven(labels: seq<Label>, s: Id)
    requires s in Run(EMPTY_WORLD, labels).db.sets && Run(EMPTY_WORLD, labels).db.sets[s].state.Complete?
    ensures forall m :: m in Run(EMPTY_WORLD, labels).db.sets[s].members ==>
              m.proof.Some? && m.proof.value.configDigest == m.restoreDigest
  {
    RunKeeps(EMPTY_WORLD, labels);
    assert SetOk(Run(EMPTY_WORLD, labels).db.sets[s]);
  }

  /** Starting an operation leaves no other plan of its set executable. */
  lemma BeginSupersedes(w: World, d: Id, s: Id, digest: Plan, a: Id, guards: bool, alive: bool, p: Id)
    requires p in w.db.ops
    ensures p in Begin(w, d, s, digest, a, guards, alive).db.ops
    ensures Executable(w, d, s, digest, a, guards, alive) && p != digest.id && w.db.ops[p].plan.set_ == s ==>
              !Begin(w, d, s, digest, a, guards, alive).db.ops[p].state.OpPlanned?
  {
  }

  /** The other operations of the plan's set that have started. */
  ghost predicate Started(db: Db, p: Id, o: Id)
    requires p in db.ops
  {
    o in db.ops && o != p && db.ops[o].plan.set_ == db.ops[p].plan.set_ && db.ops[o].attempt.Some?
  }

  predicate HasStarted(db: Db, o: Id) { o in db.ops && db.ops[o].attempt.Some? }

  lemma PlansStartNothing(w: World, l: Label, o: Id)
    requires l.LPlanCreate? || l.LPlanExisting? || l.LCancelPlan? || l.LEnvironment?
    ensures HasStarted(Step(w, l).db, o) ==> HasStarted(w.db, o)
  {
    if l.LEnvironment? { HappenFrame(w, l.change); }
  }

  lemma DispatchStartsNothing(w: World, l: Label, o: Id)
    requires l.LIntend? || l.LIssue? || l.LConclude? || l.LCrash?
    ensures HasStarted(Step(w, l).db, o) ==> HasStarted(w.db, o)
  {
  }

  lemma ReconcileStartsNothing(w: World, opId: Id, seen: seq<Observation>, o: Id)
    ensures HasStarted(Reconcile(w, opId, seen).db, o) ==> HasStarted(w.db, o)
  {
  }

  lemma OnlyBeginStarts(w: World, l: Label, o: Id)
    requires !l.LBegin?
    ensures HasStarted(Step(w, l).db, o) ==> HasStarted(w.db, o)
  {
    if l.LReconcile? { ReconcileStartsNothing(w, l.opId, l.seen, o); }
    else if l.LIntend? || l.LIssue? || l.LConclude? || l.LCrash? { DispatchStartsNothing(w, l, o); }
    else { PlansStartNothing(w, l, o); }
  }

  lemma StepStarts(w: World, l: Label, p: Id, o: Id)
    requires Inv(w) && p in w.db.ops && w.db.ops[p].state.OpPlanned?
    requires p in Step(w, l).db.ops && Step(w, l).db.ops[p].state.OpPlanned?
    requires Started(Step(w, l).db, p, o)
    ensures Started(w.db, p, o)
  {
    StepMoves(w, l, p);
    if l.LBegin? {
      BeginSupersedes(w, l.deployment, l.setId, l.digest, l.attempt, l.guards, l.processAlive, p);
    } else {
      OnlyBeginStarts(w, l, o);
      StepMoves(w, l, o);
    }
  }

  /** While a plan is still executable, no other operation of its set has started since it was reviewed. */
  lemma {:induction false} PlannedMeansUntouched(w: World, labels: seq<Label>, p: Id, o: Id)
    requires Inv(w) && p in w.db.ops
    requires p in Run(w, labels).db.ops && Run(w, labels).db.ops[p].state.OpPlanned?
    requires Started(Run(w, labels).db, p, o)
    ensures Started(w.db, p, o)
    decreases |labels|
  {
    if labels != [] {
      var w1 := Step(w, labels[0]);
      StepKeeps(w, labels[0]);
      StepMoves(w, labels[0], p);
      RunMoves(w1, labels[1..], p);
      PlannedMeansUntouched(w1, labels[1..], p, o);
      StepStarts(w, labels[0], p, o);
    }
  }

  // ---------------------------------------------------------------- durable ownership

  ghost predicate ActiveOn(db: Db, id: Id, deployment: Id) {
    id in db.ops && Active(db.ops[id]) && db.ops[id].plan.set_ in db.sets
    && db.sets[db.ops[id].plan.set_].deployment == deployment
  }

  lemma OneActiveOwner(db: Db, id: Id, other: Id, d: Id)
    requires LinksOk(db) && OwnAttempts(db.ops) && ActiveOn(db, id, d) && ActiveOn(db, other, d)
    ensures id == other
  {
    assert Linked(db, db.ops[id]) && Linked(db, db.ops[other]);
  }

  /** In every reachable world, at every clock value, an active operation's own attempt holds its
      deployment's workspace lock; nobody else can take it, and no second operation is active there. */
  lemma ActiveHoldsLock(labels: seq<Label>, id: Id, d: Id, elapsed: nat, alive: bool)
    requires ActiveOn(Run(EMPTY_WORLD, labels).db, id, d)
    ensures var w := Run(EMPTY_WORLD, labels);
            && d in w.db.locks && w.db.ops[id].attempt == Some(w.db.locks[d].owner)
            && !LockFree(w.db, w.clock + elapsed, d, alive)
            && forall other :: ActiveOn(w.db, other, d) ==> other == id
  {
    EmptyInv();
    hide *;
    RunKeeps(EMPTY_WORLD, labels);
    InvMeansLinks(Run(EMPTY_WORLD, labels));
    LockOf(Run(EMPTY_WORLD, labels).db, id, d, Run(EMPTY_WORLD, labels).clock + elapsed, alive);
  }

  lemma EmptyInv()
    ensures Inv(EMPTY_WORLD)
  {}

  lemma InvMeansLinks(w: World)
    requires Inv(w)
    ensures LinksOk(w.db) && OwnAttempts(w.db.ops)
  {}

  lemma LockOf(db: Db, id: Id, d: Id, now: int, alive: bool)
    requires LinksOk(db) && OwnAttempts(db.ops) && ActiveOn(db, id, d)
    ensures d in db.locks && db.ops[id].attempt == Some(db.locks[d].owner)
    ensures !LockFree(db, now, d, alive)
    ensures forall other :: ActiveOn(db, other, d) ==> other == id
  {
    assert Linked(db, db.ops[id]);
    ActiveBlocksLock(db, now, id, alive);
    forall other | ActiveOn(db, other, d) ensures other == id { OneActiveOwner(db, id, other, d); }
  }

  /** Once one member's write is in doubt, the operation is under review for good, and its lock is kept. */
  lemma UnconfirmedKeepsOwnership(w: World, labels: seq<Label>, id: Id, i: nat)
    requires Inv(w) && id in w.db.ops && i < |w.db.ops[id].rows| && w.db.ops[id].rows[i].state.Unconfirmed?
    ensures var w' := Run(w, labels);
            && id in w'.db.ops && w'.db.ops[id].state.NeedsReview?
            && i < |w'.db.ops[id].rows| && w'.db.ops[id].rows[i].state.Unconfirmed?
            && w'.db.ops[id].attempt == w.db.ops[id].attempt && w'.db.ops[id].attempt.Some?
            && w'.db.ops[id].plan.set_ in w'.db.sets
            && var d := w'.db.sets[w'.db.ops[id].plan.set_].deployment;
               d in w'.db.locks && Some(w'.db.locks[d].owner) == w.db.ops[id].attempt
  {
    RunKeeps(w, labels);
    RunMoves(w, labels, id);
    var w' := Run(w, labels);
    assert OpOk(id, w.db.ops[id]) && OpOk(id, w'.db.ops[id]) && Linked(w'.db, w'.db.ops[id]);
    assert RowMoves(w.db.ops[id].rows[i], w'.db.ops[id].rows[i]);
  }
}
