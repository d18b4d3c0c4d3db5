/** The dispatcher and the reconciler as they run: loops over the members, committing step by step,
    with the rest of the installation moving between any two commits. */
module SnapshotDispatch {
  import opened Wrappers
  import opened SnapshotModel
  import opened SnapshotSafety
  import opened SnapshotSteps
  import opened SnapshotTheorems
  import opened SnapshotTurns
  import opened SnapshotReadback

  method NotStartedFrom(rows: seq<Row>, from: nat) returns (out: seq<Row>)
    requires from <= |rows|
    ensures out == Abandon(rows, from)
  {
    out := rows;
    var i := from;
    while i < |rows|
      invariant from <= i <= |rows| == |out|
      invariant forall j :: 0 <= j < i ==> out[j] == Abandon(rows, from)[j]
      invariant forall j :: i <= j < |rows| ==> out[j] == rows[j]
    {
      out := out[i := out[i].(state := NotStarted)];
      i := i + 1;
    }
  }

  method InspectRows(rows: seq<Row>, plan: Plan, members: seq<Member>, seen: seq<Observation>) returns (out: seq<Row>)
    requires |seen| == |rows|
    ensures out == ReconcileRows(rows, plan, members, seen)
  {
    out := [];
    for i := 0 to |rows|
      invariant out == ReconcileRows(rows, plan, members, seen)[..i]
    {
      var row := rows[i];
      if row.state.Planned? {
        row := row.(state := NotStarted);
      }
      if row.state.Accepted? || row.state.Dispatching? {
        if !ValidTask(row.upid, plan.host.node, row.vm, plan.kind) {
          row := row.(state := Unconfirmed);
        } else if seen[i].TaskFailed? {
          row := row.(state := Failed);
        } else if seen[i].Stopped? {
          var expected := FindMember(members, row.vm);
          if expected.Some? && ReadbackMatches(plan, expected.value, seen[i]) {
            if plan.kind.Create? { row := row.(snapshot := seen[i].present); }
            row := row.(state := Succeeded);
          }
        }
      }
      out := out + [row];
    }
  }

  /** Every row a reconcile changed was changed on the evidence read back for it. */
  ghost predicate FollowsEvidence(w: World, w': World, op: Id, seen: seq<Observation>) {
    && op in w.db.ops && op in w'.db.ops && w.db.ops[op].plan.set_ in w.db.sets
    && |w'.db.ops[op].rows| == |w.db.ops[op].rows| == |seen|
    && forall i :: 0 <= i < |seen| ==>
         Evidence(w.db.ops[op].rows[i], w'.db.ops[op].rows[i], w.db.ops[op].plan, w.db.sets[w.db.ops[op].plan.set_].members, seen[i])
  }

  lemma RowsFollow(w: World, op: Id, seen: seq<Observation>)
    requires Inv(w) && op in w.db.ops && |seen| == |w.db.ops[op].rows|
    ensures op in Reconcile(w, op, seen).db.ops && FollowsEvidence(w, Reconcile(w, op, seen), op, seen)
  {
    RowsFollowEvidence(w, op, seen);
    hide Inv, Reconcile, Evidence, Concluded;
  }

  lemma QuietTurns(turns: seq<Turn>)
    requires forall t :: 0 <= t < |turns| ==> AllElsewhere(turns[t].others) && AllElsewhere(turns[t].during)
    ensures Quiet(turns)
  {}

  lemma StopsEarly(w: World, w': World, op: Id, turns: seq<Turn>)
    requires Stops(w, w', op, turns)
    ensures forall i: nat, j: nat :: i < |turns| && !turns[i].guard && j >= i ==> w'.issued[(op, j)] == 0
  {}

  lemma IsPlanned(w: World, deployment: Id, setId: Id, digest: Plan, attempt: Id, guards: bool, alive: bool)
    requires Executable(w, deployment, setId, digest, attempt, guards, alive)
    ensures digest.id in w.db.ops && w.db.ops[digest.id].state.OpPlanned?
  {}

  class SnapshotService {
    var world: World
    const origin: World
    /** Everything that has happened here, in order. */
    ghost var trace: seq<Label>

    ghost predicate Valid() reads this { Inv(origin) && world == Run(origin, trace) }

    constructor (w: World)
      requires Inv(w)
      ensures Valid() && world == origin == w && trace == []
    {
      world, origin, trace := w, w, [];
    }

    lemma Holds()
      requires Valid()
      ensures Inv(world)
    {
      RunKeeps(origin, trace);
    }

    /** One commit, write or crash by this process. */
    method Take(l: Label, next: World)
      requires Valid() && next == Step(world, l)
      modifies this
      ensures Valid() && world == next && trace == old(trace) + [l]
    {
      RunSnoc(origin, trace, l);
      world := next;
      trace := trace + [l];
    }

    /** Other actors run while this process waits. */
    method Yield(others: seq<Label>)
      requires Valid() && AllElsewhere(others)
      modifies this
      ensures Valid() && trace == old(trace) + others && world == Run(old(world), others)
    {
      var i := 0;
      while i < |others|
        invariant 0 <= i <= |others| && Valid()
        invariant trace == old(trace) + others[..i] && world == Run(old(world), others[..i])
      {
        RunSnoc(old(world), others[..i], others[i]);
        assert others[..i] + [others[i]] == others[..i + 1];
        assert (old(trace) + others[..i]) + [others[i]] == old(trace) + others[..i + 1];
        Take(others[i], Step(world, others[i]));
        i := i + 1;
      }
      assert others[..|others|] == others;
    }

    /** Yield while holding the provisioning lock. */
    method YieldHolding(others: seq<Label>)
      requires Valid() && world.dispatcher.Some? && AllElsewhere(others)
      modifies this
      ensures Valid() && trace == old(trace) + others && world == Run(old(world), others)
      ensures world.dispatcher == old(world.dispatcher) && world.issued == old(world.issued)
    {
      ForeignFrame(world, others);
      Yield(others);
    }

    /** The dispatcher's operation, member and set are all on record. */
    lemma Dispatching()
      requires Valid() && world.dispatcher.Some?
      ensures var d := world.dispatcher.value;
              && d.op in world.db.ops && d.index < |world.db.ops[d.op].rows|
              && world.db.ops[d.op].plan.set_ in world.db.sets
    {
      Holds();
      assert Linked(world.db, world.db.ops[world.dispatcher.value.op]);
    }

    /** Commit the intent to write member index, or that nothing from it on was started. */
    method CommitIntent(guard: bool)
      requires Valid() && world.dispatcher.Some? && world.dispatcher.value.phase.Ready?
      modifies this
      ensures Valid() && trace == old(trace) + [LIntend(guard)] && world == Step(old(world), LIntend(guard))
      ensures world.issued == old(world.issued)
      ensures world.dispatcher.Some? ==>
                world.dispatcher == Some(old(world.dispatcher).value.(phase := Intended))
    {
      Dispatching();
      var d := world.dispatcher.value;
      var o := world.db.ops[d.op];
      if !Bound(world.db, world.db.sets[o.plan.set_]) || !guard {
        var rows := NotStartedFrom(o.rows, d.index);
        Take(LIntend(guard), PutOp(world, d.op, o.(rows := rows), None));
      } else {
        var rows := o.rows[d.index := o.rows[d.index].(state := RowState.Dispatching)];
        Take(LIntend(guard), PutOp(world, d.op, o.(rows := rows), Some(d.(phase := Intended))));
      }
    }

    /** Commit the answer to a write, confirmed or in doubt. */
    method CommitAnswer(answer: Answer)
      requires Valid() && world.dispatcher.Some? && !world.dispatcher.value.phase.Ready?
      requires answer.Reply? ==> world.dispatcher.value.phase.Sent?
      modifies this
      ensures Valid() && trace == old(trace) + [LConclude(answer)] && world == Step(old(world), LConclude(answer))
      ensures world.issued == old(world.issued)
      ensures world.dispatcher.Some? ==>
                world.dispatcher.value.op == old(world.dispatcher).value.op && world.dispatcher.value.phase.Ready?
    {
      Dispatching();
      var d := world.dispatcher.value;
      var o := world.db.ops[d.op];
      var row := o.rows[d.index];
      var w := world;
      if answer.Reply? && ValidTask(Some(answer.upid), o.plan.host.node, row.vm, o.plan.kind) {
        var rows := o.rows[d.index := row.(state := Accepted, upid := Some(answer.upid))];
        w := PutOp(w, d.op, o.(rows := rows), if d.index + 1 < |rows| then Some(Dispatcher(d.op, d.index + 1, Ready)) else None);
      } else {
        var rows := NotStartedFrom(o.rows[d.index := row.(state := Unconfirmed)], d.index + 1);
        w := PutOp(w, d.op, o.(rows := rows, state := NeedsReview), None);
        w := w.(db := w.db.(sets := w.db.sets[o.plan.set_ := w.db.sets[o.plan.set_].(state := SetReview)]));
      }
      Take(LConclude(answer), w);
    }

    method Die()
      requires Valid()
      modifies this
      ensures Valid() && trace == old(trace) + [LCrash] && world == Step(old(world), LCrash)
      ensures world.dispatcher.None? && world.issued == old(world.issued)
    {
      Take(LCrash, Crash(world));
    }

    /** Let the others run, check the guard, and commit the intent or give up. */
    method Open(t: Turn)
      requires Valid() && world.dispatcher.Some? && world.dispatcher.value.phase.Ready? && AllElsewhere(t.others)
      modifies this
      ensures Valid() && trace == old(trace) + Opening(t) && world == Run(old(world), Opening(t))
      ensures world.issued == old(world.issued)
      ensures world.dispatcher.Some? ==> world.dispatcher == Some(old(world.dispatcher).value.(phase := Intended))
    {
      hide Inv, Run, Step, Elsewhere;
      YieldHolding(t.others);
      RunSnoc(old(world), t.others, LIntend(t.guard));
      CommitIntent(t.guard);
    }

    /** Send the write, and commit its answer unless the process dies first. */
    method Close(t: Turn)
      requires Valid() && world.dispatcher.Some? && world.dispatcher.value.phase.Intended? && AllElsewhere(t.during)
      modifies this
      ensures Valid() && trace == old(trace) + Closing(t) && world == Run(old(world), Closing(t))
      ensures world.dispatcher.Some? ==>
                world.dispatcher.value.op == old(world.dispatcher).value.op && world.dispatcher.value.phase.Ready?
      ensures forall k: (Id, nat) :: k.0 != old(world.dispatcher).value.op ==> world.issued[k] == old(world.issued)[k]
    {
      hide Inv, Run, Elsewhere;
      YieldHolding(t.during);
      var done := t.during;
      if t.sent {
        RunSnoc(old(world), done, LIssue);
        done := done + [LIssue];
        Take(LIssue, Issue(world));
      }
      hide Step;
      var last := if t.dies then LCrash else LConclude(if t.sent then t.answer else Lost);
      RunSnoc(old(world), done, last);
      assert Closing(t) == done + [last];
      if t.dies { Die(); } else { CommitAnswer(if t.sent then t.answer else Lost); }
    }

    /** One turn of the member loop: guard, commit the intent, write, commit the answer. */
    method DispatchOne(t: Turn)
      requires Valid() && world.dispatcher.Some? && world.dispatcher.value.phase.Ready?
      requires AllElsewhere(t.others) && AllElsewhere(t.during)
      modifies this
      ensures Valid() && trace == old(trace) + TurnLabels(old(world), t) && world == Run(old(world), TurnLabels(old(world), t))
      ensures world.dispatcher.Some? ==>
                world.dispatcher.value.op == old(world.dispatcher).value.op && world.dispatcher.value.phase.Ready?
      ensures forall k: (Id, nat) :: k.0 != old(world.dispatcher).value.op ==> world.issued[k] == old(world.issued)[k]
    {
      hide Inv, Run, Elsewhere;
      Open(t);
      if world.dispatcher.Some? {
        RunAppend(old(world), Opening(t), Closing(t));
        assert old(trace) + Opening(t) + Closing(t) == old(trace) + (Opening(t) + Closing(t));
        Close(t);
      } else {
        assert Opening(t) + [] == Opening(t);
      }
    }

    lemma Stands(op: Id, index: nat)
      requires Valid() && world.dispatcher == Some(Dispatcher(op, index, Ready))
      ensures Standing(world, op, index)
    {
      Holds();
    }

    /** A plan that has not started has sent nothing. */
    lemma Unsent(digest: Plan)
      requires Valid() && digest.id in world.db.ops && world.db.ops[digest.id].state.OpPlanned?
      ensures forall i: nat :: world.issued[(digest.id, i)] == 0
    {
      Holds();
      assert OpOk(digest.id, world.db.ops[digest.id]);
      forall i: nat ensures world.issued[(digest.id, i)] == 0 { if (digest.id, i) in world.issued { } }
    }

    lemma SentOnce()
      requires Valid()
      ensures forall id: Id, i: nat :: world.issued[(id, i)] <= 1
    {
      Holds();
      forall id: Id, i: nat ensures world.issued[(id, i)] <= 1 { if (id, i) in world.issued { } }
    }

    /** Start a reviewed plan and submit each member at most once, in order; whatever happens, the lock
        is free at the end and only this plan's own members have been written, each at most once. */
    method Execute(deployment: Id, setId: Id, digest: Plan, attempt: Id, guards: bool, alive: bool, turns: seq<Turn>)
      returns (started: bool)
      requires Valid() && world.dispatcher.None?
      requires forall t :: 0 <= t < |turns| ==> AllElsewhere(turns[t].others) && AllElsewhere(turns[t].during)
      modifies this
      ensures Valid() && world.dispatcher.None?
      ensures var begin := LBegin(deployment, setId, digest, attempt, guards, alive);
              trace == old(trace) + if started then [begin] + LoopLabels(Step(old(world), begin), turns) else []
      ensures started <==> Executable(old(world), deployment, setId, digest, attempt, guards, alive)
      ensures !started ==> world == old(world)
      ensures forall k: (Id, nat) :: k.0 != digest.id ==> world.issued[k] == old(world.issued)[k]
      ensures started ==> forall i: nat :: old(world.issued)[(digest.id, i)] == 0 && world.issued[(digest.id, i)] <= 1
      ensures started ==> forall i: nat, j: nat :: i < |turns| && !turns[i].guard && j >= i ==> world.issued[(digest.id, j)] == 0
      ensures started ==> Stops(Step(old(world), LBegin(deployment, setId, digest, attempt, guards, alive)), world, digest.id, turns)
    {
      hide *;
      started := Executable(world, deployment, setId, digest, attempt, guards, alive);
      if !started {
        assert trace + [] == trace;
        return;
      }
      IsPlanned(world, deployment, setId, digest, attempt, guards, alive);
      Unsent(digest);
      Start(deployment, setId, digest, attempt, guards, alive);
      ghost var begun, begin := world, LBegin(deployment, setId, digest, attempt, guards, alive);
      Stands(digest.id, 0);
      QuietTurns(turns);
      DispatchStops(begun, digest.id, turns);
      DispatchAll(digest.id, turns);
      StopsEarly(begun, world, digest.id, turns);
      assert old(trace) + [begin] + LoopLabels(begun, turns) == old(trace) + ([begin] + LoopLabels(begun, turns));
      SentOnce();
    }

    /** Commit the start of a reviewed plan and take the provisioning lock for its dispatch. */
    method Start(deployment: Id, setId: Id, digest: Plan, attempt: Id, guards: bool, alive: bool)
      requires Valid() && Executable(world, deployment, setId, digest, attempt, guards, alive)
      modifies this
      ensures Valid() && trace == old(trace) + [LBegin(deployment, setId, digest, attempt, guards, alive)]
      ensures world == Step(old(world), LBegin(deployment, setId, digest, attempt, guards, alive))
      ensures world.dispatcher == Some(Dispatcher(digest.id, 0, Ready)) && world.issued == old(world.issued)
    {
      hide Inv, Run;
      Take(LBegin(deployment, setId, digest, attempt, guards, alive),
           Begin(world, deployment, setId, digest, attempt, guards, alive));
    }

    /** The member loop of one operation, to the end of the dispatch or of the process. */
    method DispatchAll(opId: Id, turns: seq<Turn>)
      requires Valid() && world.dispatcher == Some(Dispatcher(opId, 0, Ready))
      requires forall t :: 0 <= t < |turns| ==> AllElsewhere(turns[t].others) && AllElsewhere(turns[t].during)
      modifies this
      ensures Valid() && world.dispatcher.None? && trace == old(trace) + LoopLabels(old(world), turns)
      ensures world == Run(old(world), LoopLabels(old(world), turns))
      ensures forall k: (Id, nat) :: k.0 != opId ==> world.issued[k] == old(world.issued)[k]
    {
      hide Inv, Run, AllElsewhere, TurnLabels;
      var turn := 0;
      ghost var whole := trace + LoopLabels(world, turns);
      assert turns[0..] == turns;
      while world.dispatcher.Some? && turn < |turns|
        invariant Valid() && 0 <= turn <= |turns| && trace + LoopLabels(world, turns[turn..]) == whole
        invariant world.dispatcher.Some? ==> world.dispatcher.value.op == opId && world.dispatcher.value.phase.Ready?
        invariant forall k: (Id, nat) :: k.0 != opId ==> world.issued[k] == old(world.issued)[k]
        decreases |turns| - turn
      {
        ghost var t, rest := turns[turn], turns[turn + 1..];
        assert turns[turn..][1..] == rest;
        assert trace + (TurnLabels(world, t) + LoopLabels(Run(world, TurnLabels(world, t)), rest))
            == trace + TurnLabels(world, t) + LoopLabels(Run(world, TurnLabels(world, t)), rest);
        DispatchOne(turns[turn]);
        turn := turn + 1;
      }
      if world.dispatcher.Some? { Die(); } else { assert trace + [] == trace; }
      RunAppend(origin, old(trace), LoopLabels(old(world), turns));
    }

    /** Read the saved tasks of one active operation and settle what they prove; never a native write. */
    method ReconcileOperation(opId: Id, seen: seq<Observation>)
      requires Valid()
      requires opId in world.db.ops ==> |seen| == |world.db.ops[opId].rows|
      modifies this
      ensures Valid() && world == Reconcile(old(world), opId, seen) && world.issued == old(world).issued
      ensures trace == old(trace) || trace == old(trace) + [LReconcile(opId, seen)]
      ensures opId in old(world.db.ops) ==> opId in world.db.ops && FollowsEvidence(old(world), world, opId, seen)
    {
      hide *;
      if opId in world.db.ops {
        Holds();
        RowsFollow(world, opId, seen);
      }
      Inspect(opId, seen);
    }

    /** Read, conclude row by row, and commit what follows for the operation. */
    method Inspect(opId: Id, seen: seq<Observation>)
      requires Valid()
      requires opId in world.db.ops ==> |seen| == |world.db.ops[opId].rows|
      modifies this
      ensures Valid() && world == Reconcile(old(world), opId, seen) && world.issued == old(world).issued
      ensures trace == old(trace) || trace == old(trace) + [LReconcile(opId, seen)]
    {
      if world.dispatcher.Some? || opId !in world.db.ops || !Active(world.db.ops[opId]) { return; }
      Holds();
      var o := world.db.ops[opId];
      assert Linked(world.db, o);
      var s := world.db.sets[o.plan.set_];
      if !Bound(world.db, s) { return; }
      var rows := InspectRows(o.rows, o.plan, s.members, seen);
      var db := world.db;
      if AllFinal(rows) {
        var outcome := OutcomeOf(rows);
        var a := db.attempts[o.attempt.value].(terminal := true, rc := Some(if outcome.OpSucceeded? then 0 else 1));
        db := db.(ops := db.ops[opId := o.(rows := rows, state := outcome)],
                  sets := db.sets[o.plan.set_ := Settled(s, o.plan.kind, outcome, rows)],
                  attempts := db.attempts[o.attempt.value := a],
                  locks := ReleaseLock(db.locks, s.deployment, o.attempt.value));
      } else if Ambiguous(rows) {
        db := db.(ops := db.ops[opId := o.(rows := rows, state := NeedsReview)],
                  sets := db.sets[o.plan.set_ := s.(state := SetReview)]);
      } else {
        db := db.(ops := db.ops[opId := o.(rows := rows)]);
      }
      Take(LReconcile(opId, seen), world.(db := db));
    }
  }
}
