/** The callbacks and passes as they run against the shared tables. */
module LifecycleService {
  import opened Wrappers
  import opened LifecycleModel
  import opened LifecycleTheorems

  /** What one recovery pass learns about an attempt from its files and its local task. */
  datatype Finding = Finding(id: Id, tracked: bool, rc: Option<int>, tip: nat, young: bool)

  /** The rows a pass selects when it begins. */
  predicate Selected(start: World, id: Id) { id in start.attempts && NeedsRecovery(start, id) }

  function RecoverStep(start: World, f: Finding): seq<Event> {
    if Selected(start, f.id) then [DoRecover(f.id, start.attempts[f.id].pid, f.tracked, f.rc, f.tip, f.young)] else []
  }

  /** The first k turns of a pass, each after whatever others did since the turn before. */
  function Pass(start: World, findings: seq<Finding>, between: seq<seq<Event>>, k: nat): seq<Event>
    requires k <= |findings| == |between|
  {
    if k == 0 then [] else Pass(start, findings, between, k - 1) + between[k - 1] + RecoverStep(start, findings[k - 1])
  }

  class AttemptStore {
    var w: World

    /** Record a spawned process; false tells the caller to stop it. A refused mark changes nothing, and an
        ended or cancelled attempt is never brought back. */
    method MarkAttemptRunning(id: Id, spawned: Option<nat>) returns (ok: bool)
      modifies this
      ensures (w, ok) == MarkRunning(old(w), id, spawned)
      ensures ok ==> id in old(w.attempts) && !Terminal(old(w.attempts[id])) && old(w.attempts[id]).reason != CancelRequested
    {
      if id !in w.attempts || Terminal(w.attempts[id]) || w.attempts[id].reason == CancelRequested { return false; }
      w := w.(attempts := w.attempts[id := w.attempts[id].(state := Deploying, pid := spawned)]);
      var d := w.attempts[id].deployment;
      if d in w.deployments && w.deployments[d].current == Some(id) {
        w := w.(deployments := w.deployments[d := w.deployments[d].(state := Deploying)]);
      }
      return true;
    }

    /** Persist a completion; an earlier end, return code or cancellation wins. */
    method FinishAttempt(id: Id, r: Report) returns (state: Option<State>)
      modifies this
      ensures w == Finish(old(w), id, r)
      ensures state == if id in old(w.attempts) then Some(Finished(old(w.attempts[id]), r).state) else None
      ensures RcOk(old(w)) && id in old(w.attempts) ==> Moves(old(w.attempts[id]), Finished(old(w.attempts[id]), r))
    {
      if id !in w.attempts { return None; }
      if RcOk(w) { FinishedMoves(w.attempts[id], r); }
      var a := w.attempts[id];
      if !Terminal(a) {
        a := if a.reason == CancelRequested then a.(state := Ended(Cancelled), rc := r.rc)
             else a.(state := Ended(Verdict(r)), rc := r.rc, reason := ReasonOf(r));
      }
      if a.rc.None? { a := a.(rc := r.rc); }
      if r.cursor.Some? && a.cursor < r.cursor.value { a := a.(cursor := r.cursor.value); }
      assert a == Finished(w.attempts[id], r);
      hide *;
      Publish(id, a);
      return Some(a.state);
    }

    /** Write the attempt, show its state on its deployment, and give back its own lock. */
    method Publish(id: Id, a: Attempt)
      requires id in w.attempts && a.deployment == w.attempts[id].deployment
      modifies this
      ensures w == Release(SetDeployment(old(w).(attempts := old(w).attempts[id := a]), id, a.state), a.deployment, ByAttempt(id))
    {
      w := w.(attempts := w.attempts[id := a]);
      if a.deployment in w.deployments && w.deployments[a.deployment].current == Some(id) {
        w := w.(deployments := w.deployments[a.deployment := w.deployments[a.deployment].(state := a.state)]);
      }
      if a.deployment in w.locks && w.locks[a.deployment].owner == ByAttempt(id) {
        w := w.(locks := w.locks - {a.deployment});
      }
    }

    /** Take the workspace lock, replacing only a stale one whose runner is gone. */
    method AcquireLock(deployment: Id, owner: Owner, interval: nat) returns (ok: bool)
      modifies this
      ensures (w, ok) == Acquire(old(w), deployment, owner, interval)
      ensures deployment in old(w.locks) && RunnerAlive(old(w), deployment, old(w.locks[deployment])) ==> !ok && w == old(w)
    {
      if deployment in w.locks {
        if !(Stale(w.locks[deployment], w.now) && !RunnerAlive(w, deployment, w.locks[deployment])) { return false; }
      }
      w := w.(locks := w.locks[deployment := Lock(owner, w.now, interval)]);
      return true;
    }

    /** Remove stale locks one row at a time; a live runner's lock is never among them. */
    method CleanupStaleLocks(only: Option<Id>) returns (removed: nat)
      modifies this
      ensures w == Cleanup(old(w), only) && removed == |StaleLocks(old(w), only)|
      ensures forall d :: d in old(w.locks) && RunnerAlive(old(w), d, old(w.locks[d])) ==>
                d in w.locks && w.locks[d] == old(w.locks[d])
    {
      hide RunnerAlive, Stale;
      var rows := w.locks.Keys;
      var gone: set<Id> := {};
      removed := 0;
      while rows != {}
        invariant rows <= w.locks.Keys && removed == |gone| && w == old(w)
        invariant gone == set d | d in StaleLocks(w, only) && d !in rows
        decreases |rows|
      {
        var d :| d in rows;
        if (only.None? || only == Some(d)) && Stale(w.locks[d], w.now) && !RunnerAlive(w, d, w.locks[d]) {
          gone := gone + {d};
          removed := removed + 1;
        }
        rows := rows - {d};
      }
      assert gone == StaleLocks(w, only);
      w := w.(locks := w.locks - gone);
    }

    /** Whatever callbacks, requests and processes do before the next turn. */
    method Others(events: seq<Event>)
      modifies this
      ensures w == LifecycleModel.Run(old(w), events)
    {
      hide *;
      NoEvents(w);
      for i := 0 to |events|
        invariant w == LifecycleModel.Run(old(w), events[..i])
      {
        RunSnoc(old(w), events[..i], events[i]);
        assert events[..i + 1] == events[..i] + [events[i]];
        w := Next(w, events[i]);
      }
      assert events[..|events|] == events;
    }

    /** One recovery pass over the attempts that were open when it began, on the rows as they were then, while
        others move between its turns. The pass is a run of lifecycle steps. */
    method ReconcileOnce(findings: seq<Finding>, between: seq<seq<Event>>)
      requires |findings| == |between|
      modifies this
      ensures w == LifecycleModel.Run(old(w), Pass(old(w), findings, between, |findings|))
    {
      hide *;
      var start := w;
      NoEvents(w);
      NoTurns(start, findings, between);
      for i := 0 to |findings|
        invariant w == LifecycleModel.Run(start, Pass(start, findings, between, i))
      {
        var before := Pass(start, findings, between, i);
        Others(between[i]);
        RunConcat(start, before, between[i]);
        RunConcat(start, before + between[i], RecoverStep(start, findings[i]));
        TurnOf(start, findings, between, i);
        SelectedRow(start, findings[i]);
        NoEvents(w);
        if Selected(start, findings[i].id) {
          var row := start.attempts[findings[i].id].pid;
          OneEvent(w, DoRecover(findings[i].id, row, findings[i].tracked, findings[i].rc, findings[i].tip, findings[i].young));
          RecoverOne(findings[i], row);
        }
      }
    }

    method RecoverOne(f: Finding, row: Option<nat>)
      modifies this
      ensures w == Recover(old(w), f.id, row, f.tracked, f.rc, f.tip, f.young)
    {
      if f.id !in w.attempts || f.tracked { return; }
      var pid := KnownPid(w, f.id, row);
      if pid.None? && f.young { return; }
      if pid.Some? && ProcessMatches(w, f.id, pid.value) {
        var d := w.attempts[f.id].deployment;
        if d !in w.locks { w := w.(locks := w.locks[d := Lock(ByAttempt(f.id), w.now, 30)]); }
        return;
      }
      var first := FinishAttempt(f.id, Lost(f.rc));
      var last := FinishAttempt(f.id, Report(f.rc, Some(f.tip), None, None, false, false, false));
    }
  }

  lemma NoEvents(w: World)
    ensures LifecycleModel.Run(w, []) == w
  {}

  lemma NoTurns(start: World, findings: seq<Finding>, between: seq<seq<Event>>)
    requires |findings| == |between|
    ensures Pass(start, findings, between, 0) == []
  {}

  lemma TurnOf(start: World, findings: seq<Finding>, between: seq<seq<Event>>, i: nat)
    requires i < |findings| == |between|
    ensures Pass(start, findings, between, i + 1) == Pass(start, findings, between, i) + between[i] + RecoverStep(start, findings[i])
  {}

  lemma SelectedRow(start: World, f: Finding)
    ensures Selected(start, f.id) ==> f.id in start.attempts
    ensures Selected(start, f.id) ==>
              RecoverStep(start, f) == [DoRecover(f.id, start.attempts[f.id].pid, f.tracked, f.rc, f.tip, f.young)]
    ensures !Selected(start, f.id) ==> RecoverStep(start, f) == []
  {}

  lemma RunSnoc(w: World, events: seq<Event>, e: Event)
    ensures LifecycleModel.Run(w, events + [e]) == Next(LifecycleModel.Run(w, events), e)
  {
    hide Next;
    assert (events + [e])[..|events|] == events;
  }

  lemma OneNext(w: World, e: Event)
    requires e.DoRecover?
    ensures Next(w, e) == Recover(w, e.id, e.row, e.tracked, e.rc, e.tip, e.young)
  {
    hide Recover;
  }

  lemma OneEvent(w: World, e: Event)
    requires e.DoRecover?
    ensures LifecycleModel.Run(w, [e]) == Recover(w, e.id, e.row, e.tracked, e.rc, e.tip, e.young)
  {
    hide Recover;
    assert [e][..0] == [];
    NoEvents(w);
  }

  lemma {:induction false} RunConcat(w: World, a: seq<Event>, b: seq<Event>)
    ensures LifecycleModel.Run(w, a + b) == LifecycleModel.Run(LifecycleModel.Run(w, a), b)
  {
    hide Next;
    if b == [] {
      assert a + b == a;
    } else {
      var n := |b| - 1;
      RunConcat(w, a, b[..n]);
      assert (a + b)[..|a + b| - 1] == a + b[..n];
    }
  }

  /** A row read at the start of a run names the attempt's own runner for ever after. */
  lemma {:induction false} RowsStayTrue(w: World, events: seq<Event>, id: Id)
    requires Inv(w) && id in w.attempts
    ensures NamesRunner(LifecycleModel.Run(w, events), id, w.attempts[id].pid)
  {
    hide Next;
    if events != [] {
      RowsStayTrue(w, events[..|events| - 1], id);
      RecordedStays(LifecycleModel.Run(w, events[..|events| - 1]), events[|events| - 1], id);
    }
  }

  /** However old its row is by then, the turn of a pass takes no lock from a verified live runner. */
  lemma TurnKeepsLock(start: World, findings: seq<Finding>, between: seq<seq<Event>>, k: nat, d: Id)
    requires Inv(start) && k < |findings| == |between|
    requires var w := LifecycleModel.Run(start, Pass(start, findings, between, k) + between[k]);
             d in w.locks && RunnerAlive(w, d, w.locks[d])
    ensures var w := LifecycleModel.Run(start, Pass(start, findings, between, k) + between[k]);
            var after := LifecycleModel.Run(start, Pass(start, findings, between, k + 1));
            d in after.locks && after.locks[d].owner == w.locks[d].owner
  {
    hide *;
    var before, f := Pass(start, findings, between, k) + between[k], findings[k];
    var w := LifecycleModel.Run(start, before);
    TurnOf(start, findings, between, k);
    SelectedRow(start, f);
    RunConcat(start, before, RecoverStep(start, f));
    NoEvents(w);
    if Selected(start, f.id) {
      var e := DoRecover(f.id, start.attempts[f.id].pid, f.tracked, f.rc, f.tip, f.young);
      RowsStayTrue(start, before, f.id);
      OneEvent(w, e);
      LiveRunnerKeepsLock(w, e, d);
      OneNext(w, e);
    }
  }

  /** From any turn of a pass to any later one attempts only move forward: an attempt that was ended or
      cancelled by others after the pass had read its row keeps that end, and its own return code. */
  lemma {:induction false} PassMoves(start: World, findings: seq<Finding>, between: seq<seq<Event>>, j: nat, k: nat, id: Id)
    requires Inv(start) && j <= k <= |findings| == |between|
    requires id in LifecycleModel.Run(start, Pass(start, findings, between, j)).attempts
    ensures var later := LifecycleModel.Run(start, Pass(start, findings, between, k));
            && Inv(later) && id in later.attempts
            && Moves(LifecycleModel.Run(start, Pass(start, findings, between, j)).attempts[id], later.attempts[id])
  {
    hide *;
    RunKeeps(start, Pass(start, findings, between, j));
    if j == k {
      MovesNowhere(LifecycleModel.Run(start, Pass(start, findings, between, j)).attempts[id]);
    } else {
      PassMoves(start, findings, between, j, k - 1, id);
      var before := Pass(start, findings, between, k - 1);
      var turn := between[k - 1] + RecoverStep(start, findings[k - 1]);
      TurnOf(start, findings, between, k - 1);
      assert Pass(start, findings, between, k) == before + turn;
      RunConcat(start, before, turn);
      RunMoves(LifecycleModel.Run(start, before), turn, id);
      MovesOn(LifecycleModel.Run(start, Pass(start, findings, between, j)).attempts[id],
              LifecycleModel.Run(start, before).attempts[id],
              LifecycleModel.Run(start, before + turn).attempts[id]);
    }
  }
}
