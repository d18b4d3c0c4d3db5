/** What every interleaving of planners, one dispatcher, crashes, reconcilers and other runners keeps. */
module SnapshotSafety {
  import opened Wrappers
  import opened SnapshotModel

  // ---------------------------------------------------------------- the invariant

  predicate Unstarted(s: OpState) { s.OpPlanned? || s.Cancelled? || s.Superseded? }

  predicate Terminal(s: OpState) { s.OpSucceeded? || s.OpPartial? || s.OpFailed? }

  predicate NeverSent(s: RowState) { s.Planned? || s.NotStarted? }

  ghost predicate RowOk(plan: Plan, m: Member, r: Row) {
    && r.vm == m.vm
    && (r.state.Accepted? ==> ValidTask(r.upid, plan.host.node, r.vm, plan.kind))
    && (r.state.Dispatching? || NeverSent(r.state) ==> r.upid.None?)
    && (r.state.Succeeded? && plan.kind.Create? ==>
          r.snapshot.Some? && r.snapshot.value.configDigest == m.restoreDigest)
  }

  ghost predicate RowsOk(plan: Plan, rows: seq<Row>) {
    && 0 < |rows| == |plan.members|
    && forall i :: 0 <= i < |rows| ==> RowOk(plan, plan.members[i], rows[i])
  }

  ghost predicate InDoubt(rows: seq<Row>) { exists i :: 0 <= i < |rows| && rows[i].state.Unconfirmed? }

  ghost predicate OpOk(id: Id, o: Operation) {
    && o.plan.id == id && o.digest == o.plan
    && DistinctVms(o.plan.members) && RowsOk(o.plan, o.rows)
    && (Unstarted(o.state) <==> o.attempt.None?)
    && (Unstarted(o.state) ==> forall i :: 0 <= i < |o.rows| ==> o.rows[i].state.Planned?)
    && (Terminal(o.state) ==> AllFinal(o.rows) && o.state == OutcomeOf(o.rows))
    && (o.state.NeedsReview? <==> InDoubt(o.rows))
  }

  ghost predicate Proven(members: seq<Member>) {
    forall i :: 0 <= i < |members| ==>
      members[i].proof.Some? && members[i].proof.value.configDigest == members[i].restoreDigest
  }

  ghost predicate SetAgrees(o: Operation, s: SnapshotSet) {
    && o.plan.host == s.host && o.plan.sha == s.sha
    && (o.state.OpPlanned? ==>
          if o.plan.kind.Create? then s.state.SetPlanned? && s.members == o.plan.members
          else Plannable(o.plan.kind, s.state))
    && (Active(o) ==>
          && (s.state == BusyState(o.plan.kind) || s.state.SetReview?)
          && (o.plan.kind.Create? ==> s.members == o.plan.members)
          && (o.plan.kind.Rollback? ==> Proven(s.members)))
  }

  /** The durable ownership of an active operation: its attempt is live and holds the workspace lock. */
  ghost predicate Owned(db: Db, o: Operation)
    requires o.plan.set_ in db.sets
  {
    && o.attempt.Some?
    && var a := o.attempt.value;
       var d := db.sets[o.plan.set_].deployment;
       && a in db.attempts && db.attempts[a] == Attempt(d, true, false, None)
       && d in db.locks && db.locks[d].owner == a
  }

  ghost predicate Linked(db: Db, o: Operation) {
    && o.plan.set_ in db.sets && SetAgrees(o, db.sets[o.plan.set_])
    && (o.attempt.Some? ==> o.attempt.value in db.attempts && db.attempts[o.attempt.value].snapshotSet)
    && (Active(o) ==> Owned(db, o))
  }

  ghost predicate OpsOk(ops: map<Id, Operation>) { forall id :: id in ops ==> OpOk(id, ops[id]) }

  ghost predicate LinksOk(db: Db) { forall id :: id in db.ops ==> Linked(db, db.ops[id]) }

  ghost predicate OwnAttempts(ops: map<Id, Operation>) {
    forall id, id' :: id in ops && id' in ops && id != id' && ops[id].attempt.Some? ==>
      ops[id].attempt != ops[id'].attempt
  }

  ghost predicate SetOk(s: SnapshotSet) {
    DistinctVms(s.members) && (s.state.Complete? ==> Proven(s.members))
  }

  ghost predicate SetsOk(sets: map<Id, SnapshotSet>) { forall id :: id in sets ==> SetOk(sets[id]) }

  ghost predicate DispatcherOk(w: World) {
    w.dispatcher.Some? ==>
      var d := w.dispatcher.value;
      && d.op in w.db.ops && w.db.ops[d.op].state.Running? && d.index < |w.db.ops[d.op].rows|
      && (forall j :: d.index < j < |w.db.ops[d.op].rows| ==> w.db.ops[d.op].rows[j].state.Planned?)
      && (if d.phase.Ready? then w.db.ops[d.op].rows[d.index].state.Planned?
          else w.db.ops[d.op].rows[d.index].state.Dispatching?)
      && (d.phase.Sent? <==> (d.op, d.index) in w.issued)
  }

  ghost predicate IssuedOk(ops: map<Id, Operation>, issued: multiset<(Id, nat)>) {
    forall k :: k in issued ==>
      && issued[k] == 1 && k.0 in ops && k.1 < |ops[k.0].rows|
      && !NeverSent(ops[k.0].rows[k.1].state)
  }

  ghost predicate Inv(w: World) {
    && OpsOk(w.db.ops) && LinksOk(w.db) && OwnAttempts(w.db.ops) && SetsOk(w.db.sets)
    && DispatcherOk(w) && IssuedOk(w.db.ops, w.issued)
  }

  // ---------------------------------------------------------------- row arithmetic

  lemma AbandonOk(plan: Plan, rows: seq<Row>, from: nat)
    requires RowsOk(plan, rows) && from <= |rows|
    requires forall i :: from <= i < |rows| ==> rows[i].state.Planned?
    ensures RowsOk(plan, Abandon(rows, from))
  {
  }

  lemma ReconcileRowsOk(plan: Plan, members: seq<Member>, rows: seq<Row>, seen: seq<Observation>)
    requires RowsOk(plan, rows) && |seen| == |rows|
    requires plan.kind.Create? ==> members == plan.members && DistinctVms(members)
    ensures RowsOk(plan, ReconcileRows(rows, plan, members, seen))
    ensures forall r :: r in ReconcileRows(rows, plan, members, seen) ==> !r.state.Dispatching?
  {
    var rows' := ReconcileRows(rows, plan, members, seen);
    forall i | 0 <= i < |rows'| ensures RowOk(plan, plan.members[i], rows'[i]) {
      assert RowOk(plan, plan.members[i], rows[i]);
      if plan.kind.Create? { FindMemberAt(members, i); }
    }
  }

  lemma {:induction false} FindMemberAt(members: seq<Member>, i: nat)
    requires DistinctVms(members) && i < |members|
    ensures FindMember(members, members[i].vm) == Some(members[i])
  {
    if i > 0 {
      assert DistinctVms(members[1..]);
      FindMemberAt(members[1..], i - 1);
      assert members[0].vm != members[i].vm;
    }
  }

  lemma {:induction false} FindRowAt(rows: seq<Row>, i: nat)
    requires i < |rows| && forall a, b :: 0 <= a < b < |rows| ==> rows[a].vm != rows[b].vm
    ensures FindRow(rows, rows[i].vm) == Some(rows[i])
  {
    if i > 0 { FindRowAt(rows[1..], i - 1); }
  }

  lemma {:induction false} RemainingDistinct(members: seq<Member>, proofs: map<nat, Proof>)
    requires DistinctVms(members)
    ensures DistinctVms(Remaining(members, proofs))
    ensures forall m :: m in Remaining(members, proofs) ==> m in members
  {
    if members != [] {
      assert DistinctVms(members[1..]);
      RemainingDistinct(members[1..], proofs);
      var rest := Remaining(members[1..], proofs);
      if members[0].vm in proofs {
        forall i, j | 0 <= i < j < |[members[0]] + rest|
          ensures ([members[0]] + rest)[i].vm != ([members[0]] + rest)[j].vm
        {
          assert rest[j - 1] in members[1..];
        }
      }
    }
  }

  // ---------------------------------------------------------------- framing

  /** Rewriting one operation that keeps its plan and its attempt. */
  lemma PutLinks(db: Db, id: Id, o: Operation)
    requires LinksOk(db) && OwnAttempts(db.ops) && id in db.ops
    requires o.attempt == db.ops[id].attempt && Linked(db, o)
    ensures LinksOk(db.(ops := db.ops[id := o])) && OwnAttempts(db.ops[id := o])
  {
    var db' := db.(ops := db.ops[id := o]);
    forall x | x in db'.ops ensures Linked(db', db'.ops[x]) {
      assert x in db.ops && Linked(db, db.ops[x]);
    }
  }

  /** Adding an operation that has not started. */
  lemma AddLinks(db: Db, id: Id, o: Operation)
    requires LinksOk(db) && OwnAttempts(db.ops) && id !in db.ops
    requires o.attempt.None? && Linked(db, o)
    ensures LinksOk(db.(ops := db.ops[id := o])) && OwnAttempts(db.ops[id := o])
  {
    var db' := db.(ops := db.ops[id := o]);
    forall x | x in db'.ops ensures Linked(db', db'.ops[x]) {
      if x != id { assert Linked(db, db.ops[x]); }
    }
  }

  lemma FreshOk(id: Id, plan: Plan, now: int)
    requires plan.id == id && plan.members != [] && DistinctVms(plan.members)
    ensures OpOk(id, NewOperation(plan, now))
  {
    assert RowsOk(plan, NewOperation(plan, now).rows);
  }

  /** A native write was sent only for rows that say so, and rows never go back to unsent. */
  lemma PutIssued(ops: map<Id, Operation>, issued: multiset<(Id, nat)>, id: Id, o: Operation)
    requires IssuedOk(ops, issued) && id in ops && |o.rows| == |ops[id].rows|
    requires forall i :: 0 <= i < |o.rows| && NeverSent(o.rows[i].state) ==> NeverSent(ops[id].rows[i].state)
    ensures IssuedOk(ops[id := o], issued)
  {
  }

  lemma ActiveBlocksLock(db: Db, now: int, id: Id, alive: bool)
    requires LinksOk(db) && id in db.ops && Active(db.ops[id])
    ensures db.ops[id].plan.set_ in db.sets
    ensures !LockFree(db, now, db.sets[db.ops[id].plan.set_].deployment, alive)
  {
    assert Linked(db, db.ops[id]);
    var d := db.sets[db.ops[id].plan.set_].deployment;
    assert RunnerAlive(db, d, db.locks[d], alive);
  }

  /** While one operation is active, no other operation of its set is planned or active. */
  lemma ActiveIsAlone(db: Db, id: Id, other: Id)
    requires LinksOk(db) && OwnAttempts(db.ops) && id in db.ops && other in db.ops && id != other
    requires Active(db.ops[id]) && db.ops[other].plan.set_ == db.ops[id].plan.set_
    ensures !db.ops[other].state.OpPlanned? && !Active(db.ops[other])
  {
    assert Linked(db, db.ops[id]) && Linked(db, db.ops[other]);
  }
}
