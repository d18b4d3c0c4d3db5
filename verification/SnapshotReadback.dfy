/** What a reconcile concludes from what it reads back, and what it does with the operation: stated over the
    records before and after, member by member. */
module SnapshotReadback {
  import opened Wrappers
  import opened SnapshotModel
  import opened SnapshotSafety
  import opened SnapshotSteps
  import opened SnapshotTheorems
  import opened SnapshotTurns

  // ---------------------------------------------------------------- one member

  /** The row still waits for a task that is its own: of its node, its guest and the operation's worker. */
  predicate Waits(r: Row, plan: Plan) {
    && (r.state.Accepted? || r.state.Dispatching?)
    && r.upid.Some? && r.upid.value.Task? && r.upid.value.node == plan.host.node
    && r.upid.value.vm == r.vm && r.upid.value.worker == plan.kind
  }

  /** What was read back proves that this member is as the operation was reviewed to leave it. */
  predicate Proves(plan: Plan, m: Member, seen: Observation) {
    && seen.Stopped? && seen.uuid == m.uuid
    && (plan.kind.Create? ==> seen.present.Some? && seen.present.value.configDigest == m.restoreDigest)
    && (plan.kind.Delete? ==> seen.present.None?)
    && (plan.kind.Rollback? ==>
          && seen.present.Some? && m.vm in plan.snapshots && plan.snapshots[m.vm] == seen.present.value
          && seen.restoreDigest == seen.present.value.configDigest && seen.guestStopped)
  }

  ghost predicate ProvenMember(plan: Plan, members: seq<Member>, vm: nat, seen: Observation) {
    exists m :: m in members && m.vm == vm && Proves(plan, m, seen)
  }

  /** What may become of one row, and why. */
  ghost predicate Evidence(a: Row, b: Row, plan: Plan, members: seq<Member>, seen: Observation) {
    && b.vm == a.vm && b.upid == a.upid
    && (b.state.Failed? && !a.state.Failed? ==> Waits(a, plan) && seen.TaskFailed?)
    && (b.state.Succeeded? && !a.state.Succeeded? ==> Waits(a, plan) && ProvenMember(plan, members, a.vm, seen))
    && (b.state.NotStarted? && !a.state.NotStarted? ==> a.state.Planned?)
    && (b.state.Unconfirmed? && !a.state.Unconfirmed? ==> (a.state.Accepted? || a.state.Dispatching?) && !Waits(a, plan))
    && (Waits(a, plan) && (seen.StillRunning? || seen.Unreadable?) ==> b == a)
    && (Waits(a, plan) && seen.Stopped? && !ProvenMember(plan, members, a.vm, seen) ==> b == a)
    && (Final(a.state) || a.state.Unconfirmed? ==> b == a)
  }

  /** And what does become of it whenever the reconcile gets to look. */
  ghost predicate Concluded(a: Row, b: Row, plan: Plan, members: seq<Member>, seen: Observation) {
    && (a.state.Planned? ==> b == a.(state := NotStarted))
    && ((a.state.Accepted? || a.state.Dispatching?) && !Waits(a, plan) ==> b == a.(state := Unconfirmed))
    && (Waits(a, plan) && seen.TaskFailed? ==> b == a.(state := RowState.Failed))
    && (Waits(a, plan) && seen.Stopped? && ProvenMember(plan, members, a.vm, seen) ==>
          b == a.(state := RowState.Succeeded, snapshot := if plan.kind.Create? then seen.present else a.snapshot))
  }

  lemma {:induction false} FoundMember(members: seq<Member>, vm: nat)
    ensures FindMember(members, vm).None? ==> forall m :: m in members ==> m.vm != vm
    ensures FindMember(members, vm).Some? ==> FindMember(members, vm).value in members && FindMember(members, vm).value.vm == vm
  {
    if members != [] { FoundMember(members[1..], vm); }
  }

  lemma OnlyMember(members: seq<Member>, m: Member, n: Member)
    requires DistinctVms(members) && m in members && n in members && m.vm == n.vm
    ensures m == n
  {}

  lemma ProvenIsFound(plan: Plan, members: seq<Member>, vm: nat, seen: Observation)
    requires DistinctVms(members) && seen.Stopped?
    ensures ProvenMember(plan, members, vm, seen)
      <==> FindMember(members, vm).Some? && ReadbackMatches(plan, FindMember(members, vm).value, seen)
  {
    FoundMember(members, vm);
    if ProvenMember(plan, members, vm, seen) {
      var m :| m in members && m.vm == vm && Proves(plan, m, seen);
      OnlyMember(members, m, FindMember(members, vm).value);
    }
  }

  lemma RowEvidence(a: Row, plan: Plan, members: seq<Member>, seen: Observation)
    requires DistinctVms(members)
    ensures Evidence(a, ReconcileRow(a, plan, members, seen), plan, members, seen)
    ensures Concluded(a, ReconcileRow(a, plan, members, seen), plan, members, seen)
  {
    if seen.Stopped? { ProvenIsFound(plan, members, a.vm, seen); }
    hide ProvenMember, ReadbackMatches, FindMember, DistinctVms;
  }

  // ---------------------------------------------------------------- one reconcile

  /** The reconcile gets to look: no dispatcher is at work, the operation is active and its target unchanged. */
  ghost predicate Looks(w: World, op: Id) {
    && w.dispatcher.None? && op in w.db.ops && Active(w.db.ops[op])
    && w.db.ops[op].plan.set_ in w.db.sets && !TargetChanged(w.db, w.db.sets[w.db.ops[op].plan.set_])
  }

  lemma LooksExactly(w: World, op: Id, seen: seq<Observation>)
    requires Inv(w) && op in w.db.ops && |seen| == |w.db.ops[op].rows|
    ensures !Looks(w, op) ==> Reconcile(w, op, seen) == w
    ensures Looks(w, op) ==> w.db.ops[op].attempt.Some? && w.db.ops[op].attempt.value in w.db.attempts
    ensures Looks(w, op) ==> op in Reconcile(w, op, seen).db.ops
    ensures Looks(w, op) ==>
              Reconcile(w, op, seen).db.ops[op].rows
              == ReconcileRows(w.db.ops[op].rows, w.db.ops[op].plan, w.db.sets[w.db.ops[op].plan.set_].members, seen)
  {
    assert Linked(w.db, w.db.ops[op]);
    hide Inv, ReconcileRows, OutcomeOf, AllFinal, Ambiguous, Settled, ReleaseLock;
  }

  /** Every row a reconcile changes is changed on evidence, and every row it looks at is concluded from it. */
  lemma RowsFollowEvidence(w: World, op: Id, seen: seq<Observation>)
    requires Inv(w) && op in w.db.ops && |seen| == |w.db.ops[op].rows|
    ensures var o := w.db.ops[op];
            && op in Reconcile(w, op, seen).db.ops && |Reconcile(w, op, seen).db.ops[op].rows| == |o.rows|
            && o.plan.set_ in w.db.sets
            && (forall i :: 0 <= i < |o.rows| ==>
                  Evidence(o.rows[i], Reconcile(w, op, seen).db.ops[op].rows[i], o.plan, w.db.sets[o.plan.set_].members, seen[i]))
            && (Looks(w, op) ==> forall i :: 0 <= i < |o.rows| ==>
                  Concluded(o.rows[i], Reconcile(w, op, seen).db.ops[op].rows[i], o.plan, w.db.sets[o.plan.set_].members, seen[i]))
  {
    var o := w.db.ops[op];
    assert Linked(w.db, o) && SetOk(w.db.sets[o.plan.set_]);
    var members := w.db.sets[o.plan.set_].members;
    LooksExactly(w, op, seen);
    hide Inv, Reconcile, Evidence, Concluded, Looks, ReconcileRow;
    forall i | 0 <= i < |o.rows|
      ensures Evidence(o.rows[i], o.rows[i], o.plan, members, seen[i])
      ensures Evidence(o.rows[i], ReconcileRow(o.rows[i], o.plan, members, seen[i]), o.plan, members, seen[i])
      ensures Concluded(o.rows[i], ReconcileRow(o.rows[i], o.plan, members, seen[i]), o.plan, members, seen[i])
    {
      NoEvidence(o.rows[i], o.plan, members, seen[i]);
      RowEvidence(o.rows[i], o.plan, members, seen[i]);
    }
  }

  lemma NoEvidence(a: Row, plan: Plan, members: seq<Member>, seen: Observation)
    ensures Evidence(a, a, plan, members, seen)
  {}

  /** What the rows after a reconcile make of the operation: settled when every row is, in review when one
      is in doubt, and otherwise still waiting; nothing of any other operation, set or deployment changes. */
  ghost predicate OperationFollows(w: World, w': World, op: Id)
    requires op in w.db.ops && op in w'.db.ops && w.db.ops[op].plan.set_ in w.db.sets && w.db.ops[op].attempt.Some?
  {
    var o, o', set_, attempt := w.db.ops[op], w'.db.ops[op], w.db.ops[op].plan.set_, w.db.ops[op].attempt.value;
    var s := w.db.sets[set_];
    && set_ in w'.db.sets && attempt in w.db.attempts && attempt in w'.db.attempts && s.deployment in w.db.locks
    && var s', rows := w'.db.sets[set_], o'.rows;
    && o' == o.(rows := rows, state := o'.state) && s' == s.(state := s'.state, members := s'.members)
    && (if forall r :: r in rows ==> r.state.Succeeded? || r.state.Failed? || r.state.NotStarted? then
          && (o'.state.OpSucceeded? <==> forall r :: r in rows ==> r.state.Succeeded?)
          && (o'.state.OpFailed? <==> forall r :: r in rows ==> !r.state.Succeeded?)
          && (o'.state.OpSucceeded? || o'.state.OpFailed? || o'.state.OpPartial?)
          && w'.db.attempts == w.db.attempts[attempt := w.db.attempts[attempt].(terminal := true, rc := Some(if o'.state.OpSucceeded? then 0 else 1))]
          && w'.db.locks == w.db.locks - {s.deployment}
          && (o.plan.kind.Create? ==>
                s'.state == if o'.state.OpSucceeded? then Complete else if o'.state.OpPartial? then SetPartial else SetFailed)
          && (o.plan.kind.Delete? ==> s'.state == if o'.state.OpSucceeded? then Deleted else SetPartial)
          && (o.plan.kind.Rollback? ==> s'.state == Complete)
          && (!o.plan.kind.Create? ==> s'.members == s.members)
        else
          && w'.db.attempts == w.db.attempts && w'.db.locks == w.db.locks && s'.members == s.members
          && if exists r :: r in rows && (r.state.Unconfirmed? || r.state.Dispatching?)
             then o'.state.NeedsReview? && s'.state.SetReview? else o'.state == o.state && s' == s)
    && w' == w.(db := w.db.(ops := w.db.ops[op := o'], sets := w.db.sets[set_ := s'], attempts := w'.db.attempts, locks := w'.db.locks))
  }

  /** The world after a reconcile whose rows these are. */
  function After(w: World, op: Id, rows: seq<Row>): World
    requires op in w.db.ops && w.db.ops[op].plan.set_ in w.db.sets
    requires w.db.ops[op].attempt.Some? && w.db.ops[op].attempt.value in w.db.attempts
  {
    var o := w.db.ops[op];
    var s, a := w.db.sets[o.plan.set_], o.attempt.value;
    if AllFinal(rows) then
      var end := OutcomeOf(rows);
      w.(db := w.db.(
           ops := w.db.ops[op := o.(rows := rows, state := end)],
           sets := w.db.sets[o.plan.set_ := Settled(s, o.plan.kind, end, rows)],
           attempts := w.db.attempts[a := w.db.attempts[a].(terminal := true, rc := Some(if end.OpSucceeded? then 0 else 1))],
           locks := ReleaseLock(w.db.locks, s.deployment, a)))
    else if Ambiguous(rows) then
      w.(db := w.db.(ops := w.db.ops[op := o.(rows := rows, state := NeedsReview)],
                     sets := w.db.sets[o.plan.set_ := s.(state := SetReview)]))
    else w.(db := w.db.(ops := w.db.ops[op := o.(rows := rows)]))
  }

  lemma ReconcilesTo(w: World, op: Id, seen: seq<Observation>)
    requires Looks(w, op) && |seen| == |w.db.ops[op].rows|
    requires w.db.ops[op].attempt.Some? && w.db.ops[op].attempt.value in w.db.attempts
    ensures var o := w.db.ops[op];
            Reconcile(w, op, seen) == After(w, op, ReconcileRows(o.rows, o.plan, w.db.sets[o.plan.set_].members, seen))
  {
    hide ReconcileRows, OutcomeOf, AllFinal, Ambiguous, Settled, ReleaseLock;
  }

  lemma FinalFollows(w: World, op: Id, rows: seq<Row>)
    requires op in w.db.ops && w.db.ops[op].plan.set_ in w.db.sets && w.db.ops[op].attempt.Some?
    requires Owned(w.db, w.db.ops[op]) && rows != [] && AllFinal(rows)
    ensures OperationFollows(w, After(w, op, rows), op)
  {
    hide Recorded;
    assert rows[0] in rows;
  }

  lemma OpenFollows(w: World, op: Id, rows: seq<Row>)
    requires op in w.db.ops && w.db.ops[op].plan.set_ in w.db.sets && w.db.ops[op].attempt.Some?
    requires Owned(w.db, w.db.ops[op]) && !AllFinal(rows)
    ensures OperationFollows(w, After(w, op, rows), op)
  {
    hide OutcomeOf, Settled, ReleaseLock;
    var o := w.db.ops[op];
    assert w.db.sets[o.plan.set_ := w.db.sets[o.plan.set_]] == w.db.sets;
  }

  lemma OperationSettles(w: World, op: Id, seen: seq<Observation>)
    requires Inv(w) && Looks(w, op) && |seen| == |w.db.ops[op].rows|
    ensures op in Reconcile(w, op, seen).db.ops && w.db.ops[op].plan.set_ in w.db.sets && w.db.ops[op].attempt.Some?
    ensures OperationFollows(w, Reconcile(w, op, seen), op)
  {
    var o := w.db.ops[op];
    assert Linked(w.db, o) && Owned(w.db, o) && OpOk(op, o) && 0 < |o.rows|;
    ReconcilesTo(w, op, seen);
    var rows := ReconcileRows(o.rows, o.plan, w.db.sets[o.plan.set_].members, seen);
    hide Inv, ReconcileRows, OperationFollows, Owned, OpOk, Looks;
    if AllFinal(rows) { FinalFollows(w, op, rows); } else { OpenFollows(w, op, rows); }
  }

  lemma {:induction false} FoundRow(rows: seq<Row>, i: nat)
    requires i < |rows| && forall a, b :: 0 <= a < b < |rows| ==> rows[a].vm != rows[b].vm
    ensures FindRow(rows, rows[i].vm) == Some(rows[i])
  {
    if i > 0 { FoundRow(rows[1..], i - 1); }
  }

  /** When a create settles, every member of the set carries exactly what was read back for it. */
  lemma CreateRecords(w: World, op: Id, seen: seq<Observation>)
    requires Inv(w) && Looks(w, op) && |seen| == |w.db.ops[op].rows| && w.db.ops[op].plan.kind.Create?
    requires op in Reconcile(w, op, seen).db.ops && AllFinal(Reconcile(w, op, seen).db.ops[op].rows)
    ensures var o, s := w.db.ops[op], w.db.sets[w.db.ops[op].plan.set_];
            && o.plan.set_ in Reconcile(w, op, seen).db.sets && |s.members| == |o.rows|
            && var s', rows := Reconcile(w, op, seen).db.sets[o.plan.set_], Reconcile(w, op, seen).db.ops[op].rows;
               && |s'.members| == |s.members| == |rows|
               && forall i :: 0 <= i < |rows| ==>
                    s'.members[i] == s.members[i].(proof := if rows[i].snapshot.Some? then rows[i].snapshot else s.members[i].proof)
  {
    CreateRows(w, op, seen);
    var o, s := w.db.ops[op], w.db.sets[w.db.ops[op].plan.set_];
    ReconcilesTo(w, op, seen);
    RecordedEach(s.members, ReconcileRows(o.rows, o.plan, s.members, seen));
    hide Inv, Reconcile, ReconcileRows, Looks, AllFinal, OutcomeOf, ReleaseLock, Recorded;
  }

  lemma CreateRows(w: World, op: Id, seen: seq<Observation>)
    requires Inv(w) && Looks(w, op) && |seen| == |w.db.ops[op].rows| && w.db.ops[op].plan.kind.Create?
    ensures var o, s := w.db.ops[op], w.db.sets[w.db.ops[op].plan.set_];
            var rows := ReconcileRows(o.rows, o.plan, s.members, seen);
            && o.attempt.Some? && o.attempt.value in w.db.attempts
            && |rows| == |o.rows| == |s.members| && DistinctVms(s.members)
            && forall i :: 0 <= i < |rows| ==> rows[i].vm == s.members[i].vm
  {
    var o, s := w.db.ops[op], w.db.sets[w.db.ops[op].plan.set_];
    assert Linked(w.db, o) && OpOk(op, o) && s.members == o.plan.members && RowsOk(o.plan, o.rows);
    hide Inv, Linked, OpsOk;
    forall i | 0 <= i < |o.rows| ensures ReconcileRow(o.rows[i], o.plan, s.members, seen[i]).vm == s.members[i].vm {
      assert RowOk(o.plan, o.plan.members[i], o.rows[i]);
    }
  }

  lemma RecordedEach(members: seq<Member>, rows: seq<Row>)
    requires |members| == |rows| && DistinctVms(members) && forall i :: 0 <= i < |rows| ==> rows[i].vm == members[i].vm
    ensures |Recorded(members, rows)| == |rows|
    ensures forall i :: 0 <= i < |rows| ==>
              Recorded(members, rows)[i] == members[i].(proof := if rows[i].snapshot.Some? then rows[i].snapshot else members[i].proof)
  {
    hide FindRow;
    forall i | 0 <= i < |rows| ensures FindRow(rows, members[i].vm) == Some(rows[i]) { FoundRow(rows, i); }
  }

  /** A task that is still running, or cannot be read, keeps its operation active, its attempt open and its
      deployment's lock, whatever the other members show. */
  lemma RunningTaskKeepsLock(w: World, op: Id, seen: seq<Observation>, i: nat)
    requires Inv(w) && op in w.db.ops && |seen| == |w.db.ops[op].rows| && i < |seen|
    requires Active(w.db.ops[op]) && Waits(w.db.ops[op].rows[i], w.db.ops[op].plan) && (seen[i].StillRunning? || seen[i].Unreadable?)
    ensures op in Reconcile(w, op, seen).db.ops && Active(Reconcile(w, op, seen).db.ops[op])
    ensures Reconcile(w, op, seen).db.ops[op].rows[i] == w.db.ops[op].rows[i]
    ensures Reconcile(w, op, seen).db.locks == w.db.locks && Reconcile(w, op, seen).db.attempts == w.db.attempts
  {
    var o := w.db.ops[op];
    RowsFollowEvidence(w, op, seen);
    assert Evidence(o.rows[i], Reconcile(w, op, seen).db.ops[op].rows[i], o.plan, w.db.sets[o.plan.set_].members, seen[i]);
    if Looks(w, op) {
      OperationSettles(w, op, seen);
      hide Inv, Reconcile, Looks;
      assert Reconcile(w, op, seen).db.ops[op].rows[i] in Reconcile(w, op, seen).db.ops[op].rows;
    } else {
      LooksExactly(w, op, seen);
      hide Inv, Reconcile, Looks;
    }
  }
}
