/** Each transition of the snapshot protocol keeps the invariant, one lemma a transition. */
module SnapshotSteps {
  import opened Wrappers
  import opened SnapshotModel
  import opened SnapshotSafety

  lemma PlanCreateLinks(w: World, d: Id, s: Id, o: Id, observed: seq<Member>)
    requires LinksOk(w.db) && OwnAttempts(w.db.ops)
    ensures LinksOk(PlanCreate(w, d, s, o, observed).db) && OwnAttempts(PlanCreate(w, d, s, o, observed).db.ops)
  {
    var w' := PlanCreate(w, d, s, o, observed);
    if w' != w {
      var mid := w.db.(sets := w'.db.sets);
      forall x | x in mid.ops ensures Linked(mid, mid.ops[x]) { assert Linked(w.db, w.db.ops[x]); }
      AddLinks(mid, o, w'.db.ops[o]);
    }
  }

  lemma PlanCreateKeeps(w: World, d: Id, s: Id, o: Id, observed: seq<Member>)
    requires Inv(w)
    ensures Inv(PlanCreate(w, d, s, o, observed))
  {
    PlanCreateLinks(w, d, s, o, observed);
    var w' := PlanCreate(w, d, s, o, observed);
    if w' != w { FreshOk(o, w'.db.ops[o].plan, w.clock); }
  }

  lemma PlanExistingMembers(w: World, d: Id, s: Id, o: Id, kind: Kind, observed: seq<Member>,
                            found: map<nat, Proof>, retention: Option<string>, eligible: bool)
    requires SetsOk(w.db.sets)
    requires PlanExisting(w, d, s, o, kind, observed, found, retention, eligible) != w
    ensures var w' := PlanExisting(w, d, s, o, kind, observed, found, retention, eligible);
            OpOk(o, w'.db.ops[o])
  {
    var plan := PlanExisting(w, d, s, o, kind, observed, found, retention, eligible).db.ops[o].plan;
    assert SetOk(w.db.sets[s]) && DistinctVms(observed);
    RemainingDistinct(observed, plan.snapshots);
    assert plan.members == Remaining(observed, plan.snapshots);
    FreshOk(o, plan, w.clock);
  }

  lemma PlanExistingKeeps(w: World, d: Id, s: Id, o: Id, kind: Kind, observed: seq<Member>,
                          found: map<nat, Proof>, retention: Option<string>, eligible: bool)
    requires Inv(w)
    ensures Inv(PlanExisting(w, d, s, o, kind, observed, found, retention, eligible))
  {
    var w' := PlanExisting(w, d, s, o, kind, observed, found, retention, eligible);
    if w' != w {
      PlanExistingMembers(w, d, s, o, kind, observed, found, retention, eligible);
      AddLinks(w.db, o, w'.db.ops[o]);
    }
  }

  lemma CancelPlanOps(w: World, s: Id, o: Id)
    requires OpsOk(w.db.ops) && DispatcherOk(w) && IssuedOk(w.db.ops, w.issued)
    ensures OpsOk(CancelPlan(w, s, o).db.ops) && DispatcherOk(CancelPlan(w, s, o))
    ensures IssuedOk(CancelPlan(w, s, o).db.ops, w.issued)
  {
    hide DistinctVms, OutcomeOf, AllFinal, RowsOk, InDoubt;
    var w' := CancelPlan(w, s, o);
    if w' != w {
      assert OpOk(o, w.db.ops[o]);
      PutIssued(w.db.ops, w.issued, o, w'.db.ops[o]);
    }
  }

  lemma CancelPlanKeeps(w: World, s: Id, o: Id)
    requires Inv(w)
    ensures Inv(CancelPlan(w, s, o))
  {
    CancelPlanOps(w, s, o);
    hide OpsOk, DispatcherOk, IssuedOk, SetsOk, Proven;
    var w' := CancelPlan(w, s, o);
    if w' != w {
      assert Linked(w.db, w.db.ops[o]);
      PutLinks(w.db, o, w'.db.ops[o]);
    }
  }

  lemma SupersedeLinks(db: Db, setId: Id, opId: Id)
    requires LinksOk(db) && OwnAttempts(db.ops)
    ensures LinksOk(db.(ops := SupersedeOthers(db.ops, setId, opId))) && OwnAttempts(SupersedeOthers(db.ops, setId, opId))
  {
    var db' := db.(ops := SupersedeOthers(db.ops, setId, opId));
    forall x | x in db'.ops ensures Linked(db', db'.ops[x]) { assert Linked(db, db.ops[x]); }
  }

  lemma BeginOwnAttempts(db: Db, id: Id, a: Id, ops: map<Id, Operation>)
    requires LinksOk(db) && OwnAttempts(db.ops) && id in db.ops && a !in db.attempts
    requires ops == db.ops[id := db.ops[id].(state := Running, attempt := Some(a))]
    ensures OwnAttempts(ops)
  {
    forall x, y | x in ops && y in ops && x != y && ops[x].attempt.Some? ensures ops[x].attempt != ops[y].attempt {
      assert Linked(db, db.ops[x]) && Linked(db, db.ops[y]);
    }
  }

  lemma BeginLinks(w: World, d: Id, s: Id, digest: Plan, a: Id, guards: bool, alive: bool)
    requires LinksOk(w.db) && OwnAttempts(w.db.ops) && SetsOk(w.db.sets)
    requires Executable(w, d, s, digest, a, guards, alive)
    ensures LinksOk(Begin(w, d, s, digest, a, guards, alive).db)
  {
    var w' := Begin(w, d, s, digest, a, guards, alive);
    assert Linked(w.db, w.db.ops[digest.id]) && SetOk(w.db.sets[s]);
    forall x | x in w'.db.ops ensures Linked(w'.db, w'.db.ops[x]) {
      if x != digest.id { BeginSpares(w, d, s, digest, a, guards, alive, x); }
    }
  }

  /** Starting one operation cannot take the lock, the set or the attempt of another one. */
  lemma BeginSpares(w: World, d: Id, s: Id, digest: Plan, a: Id, guards: bool, alive: bool, x: Id)
    requires LinksOk(w.db) && Executable(w, d, s, digest, a, guards, alive)
    requires x in w.db.ops && x != digest.id
    ensures var w' := Begin(w, d, s, digest, a, guards, alive); x in w'.db.ops && Linked(w'.db, w'.db.ops[x])
  {
    var o := w.db.ops[x];
    var db' := Begin(w, d, s, digest, a, guards, alive).db;
    assert Linked(w.db, o);
    if Active(o) {
      ActiveBlocksLock(w.db, w.clock, x, alive);
      assert db'.ops[x] == o && db'.sets[o.plan.set_] == w.db.sets[o.plan.set_];
      assert Owned(db', o);
    } else if o.plan.set_ == s {
      assert !db'.ops[x].state.OpPlanned?;
    } else {
      assert db'.ops[x] == o;
    }
  }

  lemma SupersedeOps(ops: map<Id, Operation>, issued: multiset<(Id, nat)>, setId: Id, opId: Id)
    requires OpsOk(ops) && IssuedOk(ops, issued)
    ensures OpsOk(SupersedeOthers(ops, setId, opId)) && IssuedOk(SupersedeOthers(ops, setId, opId), issued)
  {
    var ops' := SupersedeOthers(ops, setId, opId);
    forall x | x in ops' ensures OpOk(x, ops'[x]) { assert OpOk(x, ops[x]); }
  }

  lemma BeginOps(w: World, d: Id, s: Id, digest: Plan, a: Id, guards: bool, alive: bool)
    requires OpsOk(w.db.ops) && IssuedOk(w.db.ops, w.issued)
    requires Executable(w, d, s, digest, a, guards, alive)
    ensures OpsOk(Begin(w, d, s, digest, a, guards, alive).db.ops)
    ensures IssuedOk(Begin(w, d, s, digest, a, guards, alive).db.ops, w.issued)
  {
    var o := w.db.ops[digest.id];
    assert OpOk(digest.id, o);
    SupersedeOps(w.db.ops, w.issued, s, digest.id);
    var mid := SupersedeOthers(w.db.ops, s, digest.id);
    PutOps(mid, digest.id, o.(state := Running, attempt := Some(a)));
    PutIssued(mid, w.issued, digest.id, o.(state := Running, attempt := Some(a)));
  }

  lemma BeginDispatcher(w: World, d: Id, s: Id, digest: Plan, a: Id, guards: bool, alive: bool)
    requires OpsOk(w.db.ops) && IssuedOk(w.db.ops, w.issued)
    requires Executable(w, d, s, digest, a, guards, alive)
    ensures DispatcherOk(Begin(w, d, s, digest, a, guards, alive))
  {
    assert OpOk(digest.id, w.db.ops[digest.id]);
  }

  lemma BeginKeeps(w: World, d: Id, s: Id, digest: Plan, a: Id, guards: bool, alive: bool)
    requires Inv(w)
    ensures Inv(Begin(w, d, s, digest, a, guards, alive))
  {
    if Executable(w, d, s, digest, a, guards, alive) {
      BeginLinks(w, d, s, digest, a, guards, alive);
      BeginOps(w, d, s, digest, a, guards, alive);
      BeginDispatcher(w, d, s, digest, a, guards, alive);
      SupersedeLinks(w.db, s, digest.id);
      BeginOwnAttempts(w.db.(ops := SupersedeOthers(w.db.ops, s, digest.id)), digest.id, a,
                       Begin(w, d, s, digest, a, guards, alive).db.ops);
    }
  }

  lemma IntendOp(w: World, guard: bool)
    requires OpsOk(w.db.ops) && DispatcherOk(w) && Intend(w, guard) != w
    ensures w.dispatcher.Some? && OpOk(w.dispatcher.value.op, Intend(w, guard).db.ops[w.dispatcher.value.op])
  {
    var d := w.dispatcher.value;
    var o := w.db.ops[d.op];
    assert OpOk(d.op, o);
    AbandonOk(o.plan, o.rows, d.index);
  }

  lemma IntendOps(w: World, guard: bool)
    requires OpsOk(w.db.ops) && DispatcherOk(w) && IssuedOk(w.db.ops, w.issued)
    ensures OpsOk(Intend(w, guard).db.ops) && DispatcherOk(Intend(w, guard))
    ensures IssuedOk(Intend(w, guard).db.ops, w.issued)
  {
    hide OpOk, Bound;
    var w' := Intend(w, guard);
    if w' != w {
      IntendOp(w, guard);
      PutOps(w.db.ops, w.dispatcher.value.op, w'.db.ops[w.dispatcher.value.op]);
      PutIssued(w.db.ops, w.issued, w.dispatcher.value.op, w'.db.ops[w.dispatcher.value.op]);
    }
  }

  lemma IntendKeeps(w: World, guard: bool)
    requires Inv(w)
    ensures Inv(Intend(w, guard))
  {
    IntendOps(w, guard);
    var w' := Intend(w, guard);
    if w' != w {
      assert Linked(w.db, w.db.ops[w.dispatcher.value.op]);
      PutLinks(w.db, w.dispatcher.value.op, w'.db.ops[w.dispatcher.value.op]);
    }
  }

  lemma IssueKeeps(w: World)
    requires Inv(w)
    ensures Inv(Issue(w))
  {
  }

  lemma AcceptedOp(id: Id, o: Operation, i: nat, upid: Upid)
    requires OpOk(id, o) && o.state.Running? && i < |o.rows| && o.rows[i].state.Dispatching?
    requires ValidTask(Some(upid), o.plan.host.node, o.rows[i].vm, o.plan.kind)
    ensures OpOk(id, o.(rows := o.rows[i := o.rows[i].(state := Accepted, upid := Some(upid))]))
  {
    hide DistinctVms, OutcomeOf, AllFinal;
    var rows := o.rows[i := o.rows[i].(state := Accepted, upid := Some(upid))];
    forall j | 0 <= j < |rows| ensures RowOk(o.plan, o.plan.members[j], rows[j]) {
      assert RowOk(o.plan, o.plan.members[j], o.rows[j]);
    }
  }

  lemma ReviewedOp(id: Id, o: Operation, i: nat)
    requires OpOk(id, o) && o.state.Running? && i < |o.rows| && o.rows[i].state.Dispatching?
    requires forall j :: i < j < |o.rows| ==> o.rows[j].state.Planned?
    ensures OpOk(id, o.(rows := Abandon(o.rows[i := o.rows[i].(state := Unconfirmed)], i + 1), state := NeedsReview))
  {
    hide DistinctVms, OutcomeOf, AllFinal;
    AbandonOk(o.plan, o.rows[i := o.rows[i].(state := Unconfirmed)], i + 1);
    hide RowOk;
    assert Abandon(o.rows[i := o.rows[i].(state := Unconfirmed)], i + 1)[i].state.Unconfirmed?;
  }

  lemma ConcludeOp(w: World, answer: Answer)
    requires OpsOk(w.db.ops) && DispatcherOk(w) && Conclude(w, answer) != w
    ensures w.dispatcher.Some? && OpOk(w.dispatcher.value.op, Conclude(w, answer).db.ops[w.dispatcher.value.op])
  {
    var d := w.dispatcher.value;
    var o := w.db.ops[d.op];
    assert OpOk(d.op, o);
    hide OpOk, Abandon, ValidTask;
    if Conclude(w, answer).db.ops[d.op].state.Running? {
      AcceptedOp(d.op, o, d.index, answer.upid);
    } else {
      ReviewedOp(d.op, o, d.index);
    }
  }

  lemma ConcludeDispatcher(w: World, answer: Answer)
    requires DispatcherOk(w) && IssuedOk(w.db.ops, w.issued)
    ensures DispatcherOk(Conclude(w, answer))
  {
  }

  lemma ConcludeIssued(w: World, answer: Answer)
    requires DispatcherOk(w) && IssuedOk(w.db.ops, w.issued)
    ensures IssuedOk(Conclude(w, answer).db.ops, w.issued)
  {
    var w' := Conclude(w, answer);
    if w' != w { PutIssued(w.db.ops, w.issued, w.dispatcher.value.op, w'.db.ops[w.dispatcher.value.op]); }
  }

  /** The operation and its set go to review together. */
  lemma ReviewLinks(db: Db, id: Id, o: Operation)
    requires LinksOk(db) && OwnAttempts(db.ops) && SetsOk(db.sets) && id in db.ops && Active(db.ops[id])
    requires o.state.NeedsReview? && o.plan == db.ops[id].plan && o.attempt == db.ops[id].attempt
    requires o.plan.set_ in db.sets
    ensures var db' := db.(ops := db.ops[id := o], sets := db.sets[o.plan.set_ := db.sets[o.plan.set_].(state := SetReview)]);
            LinksOk(db') && OwnAttempts(db'.ops) && SetsOk(db'.sets)
  {
    var db' := db.(ops := db.ops[id := o], sets := db.sets[o.plan.set_ := db.sets[o.plan.set_].(state := SetReview)]);
    assert Linked(db, db.ops[id]);
    forall x | x in db'.ops ensures Linked(db', db'.ops[x]) {
      assert Linked(db, db.ops[x]);
      if x != id && db.ops[x].plan.set_ == o.plan.set_ { ActiveIsAlone(db, id, x); }
    }
  }

  lemma ConcludeKeeps(w: World, answer: Answer)
    requires Inv(w)
    ensures Inv(Conclude(w, answer))
  {
    ConcludeDispatcher(w, answer);
    ConcludeIssued(w, answer);
    var w' := Conclude(w, answer);
    if w' != w {
      var d := w.dispatcher.value;
      ConcludeOp(w, answer);
      PutOps(w.db.ops, d.op, w'.db.ops[d.op]);
      assert Linked(w.db, w.db.ops[d.op]);
      if w'.db.ops[d.op].state.Running? { PutLinks(w.db, d.op, w'.db.ops[d.op]); }
      else { ReviewLinks(w.db, d.op, w'.db.ops[d.op]); }
    }
  }

  // ---------------------------------------------------------------- reconcile

  /** A create that succeeded on every member leaves each member with its verified native proof. */
  lemma RecordedProven(plan: Plan, rows: seq<Row>)
    requires plan.kind.Create? && RowsOk(plan, rows) && DistinctVms(plan.members)
    requires forall r :: r in rows ==> r.state.Succeeded?
    ensures Proven(Recorded(plan.members, rows))
  {
    var after := Recorded(plan.members, rows);
    forall i | 0 <= i < |after|
      ensures after[i].proof.Some? && after[i].proof.value.configDigest == after[i].restoreDigest
    {
      assert RowOk(plan, plan.members[i], rows[i]) && rows[i] in rows;
      forall a, b | 0 <= a < b < |rows| ensures rows[a].vm != rows[b].vm {
        assert RowOk(plan, plan.members[a], rows[a]) && RowOk(plan, plan.members[b], rows[b]);
      }
      FindRowAt(rows, i);
    }
  }

  lemma SettledOk(o: Operation, s: SnapshotSet, rows: seq<Row>)
    requires SetOk(s) && SetAgrees(o, s) && Active(o) && DistinctVms(o.plan.members)
    requires RowsOk(o.plan, rows) && AllFinal(rows)
    ensures SetOk(Settled(s, o.plan.kind, OutcomeOf(rows), rows))
  {
    if o.plan.kind.Create? && OutcomeOf(rows).OpSucceeded? { RecordedProven(o.plan, rows); }
    var after := Recorded(s.members, rows);
    assert forall i :: 0 <= i < |after| ==> after[i].vm == s.members[i].vm;
  }

  function Finished(db: Db, id: Id, rows: seq<Row>, a: Attempt): Db
    requires id in db.ops && db.ops[id].attempt.Some? && db.ops[id].plan.set_ in db.sets
  {
    var o := db.ops[id];
    var s := db.sets[o.plan.set_];
    db.(ops := db.ops[id := o.(rows := rows, state := OutcomeOf(rows))],
        sets := db.sets[o.plan.set_ := Settled(s, o.plan.kind, OutcomeOf(rows), rows)],
        attempts := db.attempts[o.attempt.value := a],
        locks := ReleaseLock(db.locks, s.deployment, o.attempt.value))
  }

  lemma FinishLinks(db: Db, id: Id, rows: seq<Row>, a: Attempt)
    requires LinksOk(db) && OwnAttempts(db.ops) && id in db.ops && Active(db.ops[id]) && a.snapshotSet
    requires db.ops[id].attempt.Some? && db.ops[id].plan.set_ in db.sets
    ensures LinksOk(Finished(db, id, rows, a)) && OwnAttempts(Finished(db, id, rows, a).ops)
  {
    var o := db.ops[id];
    assert Linked(db, o);
    var db' := Finished(db, id, rows, a);
    forall x | x in db'.ops ensures Linked(db', db'.ops[x]) {
      assert x in db.ops && Linked(db, db.ops[x]);
      if x != id && db.ops[x].plan.set_ == o.plan.set_ { ActiveIsAlone(db, id, x); }
    }
  }

  /** The state a reconcile leaves an operation in. */
  function After(o: Operation, rows: seq<Row>): Operation {
    o.(rows := rows, state := if AllFinal(rows) then OutcomeOf(rows)
                              else if Ambiguous(rows) then NeedsReview else o.state)
  }

  lemma AfterOk(id: Id, o: Operation, rows: seq<Row>)
    requires OpOk(id, o) && Active(o) && RowsOk(o.plan, rows) && (InDoubt(o.rows) ==> InDoubt(rows))
    requires forall r :: r in rows ==> !r.state.Dispatching?
    ensures OpOk(id, After(o, rows))
  {
    if InDoubt(rows) {
      var i :| 0 <= i < |rows| && rows[i].state.Unconfirmed?;
      assert rows[i] in rows;
    }
  }

  lemma DoubtStays(plan: Plan, members: seq<Member>, rows: seq<Row>, seen: seq<Observation>)
    requires |seen| == |rows| && InDoubt(rows)
    ensures InDoubt(ReconcileRows(rows, plan, members, seen))
  {
    var i :| 0 <= i < |rows| && rows[i].state.Unconfirmed?;
    assert ReconcileRows(rows, plan, members, seen)[i].state.Unconfirmed?;
  }

  /** A reconcile never turns a row that may have been sent into one that says it was not. */
  lemma NeverUnsent(plan: Plan, members: seq<Member>, rows: seq<Row>, seen: seq<Observation>)
    requires |seen| == |rows|
    ensures var rows' := ReconcileRows(rows, plan, members, seen);
            forall i :: 0 <= i < |rows'| && NeverSent(rows'[i].state) ==> NeverSent(rows[i].state)
  {
  }

  lemma ReconcileOp(w: World, opId: Id, seen: seq<Observation>)
    requires OpsOk(w.db.ops) && LinksOk(w.db) && SetsOk(w.db.sets)
    requires Reconcile(w, opId, seen) != w
    ensures opId in w.db.ops && OpOk(opId, Reconcile(w, opId, seen).db.ops[opId])
    ensures SetsOk(Reconcile(w, opId, seen).db.sets)
  {
    var o := w.db.ops[opId];
    assert OpOk(opId, o) && Linked(w.db, o);
    var s := w.db.sets[o.plan.set_];
    assert SetOk(s);
    ReconcileRowsOk(o.plan, s.members, o.rows, seen);
    var rows := ReconcileRows(o.rows, o.plan, s.members, seen);
    if InDoubt(o.rows) { DoubtStays(o.plan, s.members, o.rows, seen); }
    AfterOk(opId, o, rows);
    if AllFinal(rows) { SettledOk(o, s, rows); }
  }

  lemma ReconcileOps(w: World, opId: Id, seen: seq<Observation>)
    requires OpsOk(w.db.ops) && LinksOk(w.db) && SetsOk(w.db.sets) && IssuedOk(w.db.ops, w.issued)
    ensures OpsOk(Reconcile(w, opId, seen).db.ops) && IssuedOk(Reconcile(w, opId, seen).db.ops, w.issued)
    ensures SetsOk(Reconcile(w, opId, seen).db.sets)
  {
    var w' := Reconcile(w, opId, seen);
    if w' != w {
      ReconcileOp(w, opId, seen);
      var o := w.db.ops[opId];
      NeverUnsent(o.plan, w.db.sets[o.plan.set_].members, o.rows, seen);
      PutIssued(w.db.ops, w.issued, opId, w'.db.ops[opId]);
      PutOps(w.db.ops, opId, w'.db.ops[opId]);
    }
  }

  lemma PutOps(ops: map<Id, Operation>, id: Id, o: Operation)
    requires OpsOk(ops) && OpOk(id, o)
    ensures OpsOk(ops[id := o])
  {
  }

  lemma ReconcileLinks(w: World, opId: Id, seen: seq<Observation>)
    requires LinksOk(w.db) && OwnAttempts(w.db.ops) && SetsOk(w.db.sets)
    ensures LinksOk(Reconcile(w, opId, seen).db) && OwnAttempts(Reconcile(w, opId, seen).db.ops)
  {
    var w' := Reconcile(w, opId, seen);
    if w' != w {
      var o := w.db.ops[opId];
      var o' := w'.db.ops[opId];
      assert Linked(w.db, o);
      if AllFinal(o'.rows) { FinishLinks(w.db, opId, o'.rows, w'.db.attempts[o.attempt.value]); }
      else if Ambiguous(o'.rows) { ReviewLinks(w.db, opId, o'); }
      else { PutLinks(w.db, opId, o'); }
    }
  }

  lemma ReconcileKeeps(w: World, opId: Id, seen: seq<Observation>)
    requires Inv(w)
    ensures Inv(Reconcile(w, opId, seen))
  {
    ReconcileOps(w, opId, seen);
    ReconcileLinks(w, opId, seen);
  }

  // ---------------------------------------------------------------- environment

  /** Other runners, heartbeats and the stale-lock sweep never take an active operation's lock. */
  lemma OtherReserveLinks(w: World, d: Id, a: Id, alive: bool)
    requires LinksOk(w.db)
    ensures LinksOk(OtherReserve(w, d, a, alive).db)
  {
    var w' := OtherReserve(w, d, a, alive);
    forall x | x in w.db.ops ensures x in w'.db.ops && Linked(w'.db, w'.db.ops[x]) {
      assert Linked(w.db, w.db.ops[x]);
      if Active(w.db.ops[x]) { ActiveBlocksLock(w.db, w.clock, x, alive); }
    }
  }

  lemma OtherAcquireLinks(w: World, d: Id, a: Id, interval: nat, alive: bool)
    requires LinksOk(w.db)
    ensures LinksOk(OtherAcquire(w, d, a, interval, alive).db)
  {
    var w' := OtherAcquire(w, d, a, interval, alive);
    forall x | x in w.db.ops ensures x in w'.db.ops && Linked(w'.db, w'.db.ops[x]) {
      assert Linked(w.db, w.db.ops[x]);
      if Active(w.db.ops[x]) { ActiveBlocksLock(w.db, w.clock, x, alive); }
    }
  }

  lemma OtherFinishLinks(w: World, a: Id, rc: int)
    requires LinksOk(w.db)
    ensures LinksOk(OtherFinish(w, a, rc).db)
  {
    var w' := OtherFinish(w, a, rc);
    forall x | x in w.db.ops ensures x in w'.db.ops && Linked(w'.db, w'.db.ops[x]) {
      assert Linked(w.db, w.db.ops[x]);
    }
  }

  lemma CleanupLinks(w: World, d: Id, alive: bool)
    requires LinksOk(w.db)
    ensures LinksOk(CleanupStale(w, d, alive).db)
  {
    var w' := CleanupStale(w, d, alive);
    forall x | x in w.db.ops ensures x in w'.db.ops && Linked(w'.db, w'.db.ops[x]) {
      assert Linked(w.db, w.db.ops[x]);
      if Active(w.db.ops[x]) { ActiveBlocksLock(w.db, w.clock, x, alive); }
    }
  }

  lemma HeartbeatLinks(w: World, d: Id, owner: Id)
    requires LinksOk(w.db)
    ensures LinksOk(Heartbeat(w, d, owner).db)
  {
    var w' := Heartbeat(w, d, owner);
    forall x | x in w.db.ops ensures x in w'.db.ops && Linked(w'.db, w'.db.ops[x]) {
      assert Linked(w.db, w.db.ops[x]);
    }
  }

  lemma RegisterLinks(db: Db, hosts: map<Id, Host>, deployments: map<Id, Deployment>)
    requires LinksOk(db)
    ensures LinksOk(db.(hosts := hosts, deployments := deployments))
  {
    var db' := db.(hosts := hosts, deployments := deployments);
    forall x | x in db'.ops ensures Linked(db', db'.ops[x]) { assert Linked(db, db.ops[x]); }
  }

  /** The environment's steps leave every snapshot record alone. */
  lemma HappenFrame(w: World, c: Change)
    ensures var w' := Happen(w, c);
            w'.db.ops == w.db.ops && w'.db.sets == w.db.sets && w'.dispatcher == w.dispatcher && w'.issued == w.issued
  {
  }

  lemma HappenLinks(w: World, c: Change)
    requires LinksOk(w.db)
    ensures LinksOk(Happen(w, c).db)
  {
    match c
    case Reserve(d, a, alive) => OtherReserveLinks(w, d, a, alive);
    case Acquire(d, a, interval, alive) => OtherAcquireLinks(w, d, a, interval, alive);
    case Finish(a, rc) => OtherFinishLinks(w, a, rc);
    case Cleanup(d, alive) => CleanupLinks(w, d, alive);
    case Beat(d, owner) => HeartbeatLinks(w, d, owner);
    case Tick(_) =>
    case Register(_) => RegisterLinks(w.db, Happen(w, c).db.hosts, w.db.deployments);
    case Unregister(_) => RegisterLinks(w.db, Happen(w, c).db.hosts, w.db.deployments);
    case Repin(_, _, _) => RegisterLinks(w.db, w.db.hosts, Happen(w, c).db.deployments);
  }

  lemma HappenKeeps(w: World, c: Change)
    requires Inv(w)
    ensures Inv(Happen(w, c))
  {
    HappenFrame(w, c);
    HappenLinks(w, c);
  }

  lemma StepKeeps(w: World, l: Label)
    requires Inv(w)
    ensures Inv(Step(w, l))
  {
    match l
    case LPlanCreate(d, s, o, observed) => PlanCreateKeeps(w, d, s, o, observed);
    case LPlanExisting(d, s, o, kind, observed, found, retention, eligible) =>
      PlanExistingKeeps(w, d, s, o, kind, observed, found, retention, eligible);
    case LCancelPlan(s, o) => CancelPlanKeeps(w, s, o);
    case LBegin(d, s, digest, attempt, guards, alive) => BeginKeeps(w, d, s, digest, attempt, guards, alive);
    case LIntend(guard) => IntendKeeps(w, guard);
    case LIssue => IssueKeeps(w);
    case LConclude(answer) => ConcludeKeeps(w, answer);
    case LCrash =>
    case LReconcile(o, seen) => ReconcileKeeps(w, o, seen);
    case LEnvironment(c) => HappenKeeps(w, c);
  }
}
