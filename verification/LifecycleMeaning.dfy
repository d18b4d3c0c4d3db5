/** The lifecycle steps over the plain fields of attempts, deployments, locks and identity files. */
module LifecycleMeaning {
  import opened Wrappers
  import opened LifecycleModel
  import opened LifecycleTheorems

  // ---------------------------------------------------------------- locks

  /** A process with this PID is alive, and it is the one the attempt's identity file was written for: same PID,
      same start time, same boot. */
  ghost predicate RunsAs(w: World, id: Id, pid: nat) {
    && id in w.recorded && pid in w.live
    && w.recorded[id].pid == pid && w.recorded[id].start == w.live[pid] && w.recorded[id].boot == w.boot
  }

  /** The lock's owner is an attempt of this deployment whose own runner is alive. */
  ghost predicate OwnerRuns(w: World, d: Id, l: Lock) {
    && l.owner.ByAttempt? && l.owner.id in w.attempts && w.attempts[l.owner.id].deployment == d
    && l.owner.id in w.recorded && RunsAs(w, l.owner.id, w.recorded[l.owner.id].pid)
    && (w.attempts[l.owner.id].pid.Some? ==> w.attempts[l.owner.id].pid.value == w.recorded[l.owner.id].pid)
  }

  lemma OwnerRunsExactly(w: World, d: Id, l: Lock)
    ensures RunnerAlive(w, d, l) <==> OwnerRuns(w, d, l)
  {}

  /** Anybody may take the lock: it is free, or its last heartbeat is more than three intervals ago and its
      owner's runner is not alive. */
  ghost predicate Takeable(w: World, d: Id) {
    d in w.locks ==> w.now - w.locks[d].heartbeat > 3 * w.locks[d].interval && !OwnerRuns(w, d, w.locks[d])
  }

  lemma TakeableExactly(w: World, d: Id)
    ensures d in w.locks ==> (Removable(w, d) <==> Takeable(w, d))
  {
    if d in w.locks { OwnerRunsExactly(w, d, w.locks[d]); }
  }

  lemma AcquireExactly(w: World, d: Id, owner: Owner, interval: nat)
    ensures Acquire(w, d, owner, interval).1 <==> Takeable(w, d)
    ensures Acquire(w, d, owner, interval).0 ==
              if Takeable(w, d) then w.(locks := w.locks[d := Lock(owner, w.now, interval)]) else w
  {
    TakeableExactly(w, d);
    hide Removable, OwnerRuns;
  }

  /** A sweep removes exactly the locks that anybody may take, of one deployment or of all. */
  lemma CleanupExactly(w: World, only: Option<Id>)
    ensures forall d :: d in Cleanup(w, only).locks <==> d in w.locks && !((only.None? || only == Some(d)) && Takeable(w, d))
    ensures forall d :: d in Cleanup(w, only).locks ==> Cleanup(w, only).locks[d] == w.locks[d]
    ensures Cleanup(w, only) == w.(locks := Cleanup(w, only).locks)
  {
    forall d ensures d in w.locks ==> (Removable(w, d) <==> Takeable(w, d)) { TakeableExactly(w, d); }
    hide Removable, Takeable;
  }

  /** Within three intervals of its heartbeat nobody else takes, sweeps or gives back a lock: only its own
      attempt's completion, or a pass that finds that attempt's process gone, does. */
  lemma FreshLockStays(w: World, e: Event, d: Id)
    requires d in w.locks && w.now - w.locks[d].heartbeat <= 3 * w.locks[d].interval
    requires !(e.DoFinish? && w.locks[d].owner == ByAttempt(e.id))
    requires !(e.DoRecover? && w.locks[d].owner == ByAttempt(e.id) && FindsDead(w, e.id, e.row, e.tracked, e.young))
    ensures d in Next(w, e).locks && Next(w, e).locks[d].owner == w.locks[d].owner
  {
    TakeableExactly(w, d);
    assert !Takeable(w, d);
    hide RunnerAlive, Removable, Takeable, Finish, Recover, MarkRunning, Reserve, Acquire, Cleanup;
    match e
    case DoFinish(f, r) => FinishKeepsLock(w, f, r, d);
    case DoRecover(f, row, tracked, rc, tip, young) => RecoverKeepsFresh(w, f, row, tracked, rc, tip, young, d);
    case DoMark(m, spawned) => MarkKeepsLocks(w, m, spawned);
    case DoAcquire(a, owner, interval) => AcquireExactly(w, a, owner, interval);
    case DoCleanup(only) => CleanupExactly(w, only);
    case DoReserve(a, id) => ReserveKeepsLock(w, a, id, d);
    case _ =>
  }

  lemma FinishKeepsLock(w: World, id: Id, r: Report, d: Id)
    requires d in w.locks && w.locks[d].owner != ByAttempt(id)
    ensures d in Finish(w, id, r).locks && Finish(w, id, r).locks[d] == w.locks[d]
  {
    if id in w.attempts { FinishReleasesOwn(w, id, r); }
    hide Finished;
  }

  lemma ReserveKeepsLock(w: World, a: Id, id: Id, d: Id)
    requires d in w.locks && !Takeable(w, d)
    ensures d in Reserve(w, a, id).locks && Reserve(w, a, id).locks[d] == w.locks[d]
  {
    CleanupExactly(w, Some(a));
    hide Cleanup, Takeable, Removable;
  }

  lemma RecoverKeepsFresh(w: World, id: Id, row: Option<nat>, tracked: bool, rc: Option<int>, tip: nat, young: bool, d: Id)
    requires d in w.locks && !(w.locks[d].owner == ByAttempt(id) && FindsDead(w, id, row, tracked, young))
    ensures var w' := Recover(w, id, row, tracked, rc, tip, young); d in w'.locks && w'.locks[d].owner == w.locks[d].owner
  {
    if id in w.attempts && w.locks[d].owner != ByAttempt(id) {
      FinishKeepsLock(w, id, Lost(rc), d);
      FinishKeepsLock(Finish(w, id, Lost(rc)), id, Report(rc, Some(tip), None, None, false, false, false), d);
    }
    hide Finish, ProcessMatches, KnownPid;
  }

  /** A heartbeat renews the lock for its own holder and for nobody else; it changes nothing else. */
  lemma HeartbeatExactly(w: World, d: Id, owner: Owner)
    ensures Heartbeat(w, d, owner) ==
              if d in w.locks && w.locks[d].owner == owner
              then w.(locks := w.locks[d := Lock(owner, w.now, w.locks[d].interval)]) else w
  {}

  // ---------------------------------------------------------------- requests

  /** A new attempt is reserved exactly for a known deployment whose current attempt has ended and whose lock
      nobody holds; it becomes the current one, pending, and a stale lock is swept. */
  lemma ReserveExactly(w: World, d: Id, id: Id)
    ensures var may := d in w.deployments && id !in w.attempts && Takeable(w, d)
                       && (w.deployments[d].current.Some? && w.deployments[d].current.value in w.attempts ==>
                             w.attempts[w.deployments[d].current.value].state.Ended?);
            if may then
              Reserve(w, d, id) == w.(attempts := w.attempts[id := Attempt(d, Pending, NoReason, None, 0, None)],
                                      deployments := w.deployments[d := Deployment(Some(id), Pending)], locks := w.locks - {d})
            else Reserve(w, d, id) == w
  {
    CleanupExactly(w, Some(d));
    assert Takeable(w, d) ==> Cleanup(w, Some(d)).locks == w.locks - {d};
    hide Cleanup, Takeable, Removable;
  }

  /** A start is recorded exactly for an attempt that has neither ended nor been cancelled. */
  lemma MarkExactly(w: World, id: Id, pid: Option<nat>)
    ensures var may := id in w.attempts && !w.attempts[id].state.Ended? && w.attempts[id].reason != CancelRequested;
            && MarkRunning(w, id, pid).1 == may
            && (!may ==> MarkRunning(w, id, pid).0 == w)
            && (may ==>
                  var w', d := MarkRunning(w, id, pid).0, w.attempts[id].deployment;
                  && w'.attempts == w.attempts[id := w.attempts[id].(state := Deploying, pid := pid)]
                  && w' == w.(attempts := w'.attempts, deployments := w'.deployments)
                  && w'.deployments == if d in w.deployments && w.deployments[d].current == Some(id)
                                       then w.deployments[d := w.deployments[d].(state := Deploying)] else w.deployments)
  {}

  /** Cancelling claims exactly the deployment's current attempt while it is open, once it was signalled or while a
      local task is still preparing it. */
  lemma CancelExactly(w: World, d: Id, signalled: bool, tracked: bool)
    ensures var open := d in w.deployments && w.deployments[d].current.Some? && w.deployments[d].current.value in w.attempts
                        && !w.attempts[w.deployments[d].current.value].state.Ended?;
            && (open && (signalled || (w.attempts[w.deployments[d].current.value].state.Pending? && tracked)) ==>
                  var id := w.deployments[d].current.value;
                  Cancel(w, d, signalled, tracked) == w.(attempts := w.attempts[id := w.attempts[id].(reason := CancelRequested)]))
            && (!(open && (signalled || (w.attempts[w.deployments[d].current.value].state.Pending? && tracked))) ==>
                  Cancel(w, d, signalled, tracked) == w)
  {}

  // ---------------------------------------------------------------- completion

  /** The attempt after a completion: its end, its code, its reason and its cursor. */
  lemma FinishedExactly(a: Attempt, r: Report)
    requires !Terminal(a) ==> a.rc.None?
    ensures var b := Finished(a, r);
            && b.deployment == a.deployment && b.pid == a.pid
            && b.cursor == (if r.cursor.Some? && r.cursor.value > a.cursor then r.cursor.value else a.cursor)
            && b.rc == (if a.rc.Some? then a.rc else r.rc)
            && (a.state.Ended? ==> b.state == a.state && b.reason == a.reason)
            && (!a.state.Ended? && a.reason == CancelRequested ==> b.state == Ended(Cancelled) && b.reason == CancelRequested)
            && (!a.state.Ended? && a.reason != CancelRequested ==>
                  && (r.cancelled ==> b.state == Ended(Cancelled))
                  && (!r.cancelled && r.unknown ==> b.state == Ended(Unknown))
                  && (!r.cancelled && !r.unknown && r.partial ==> b.state == Ended(Partial))
                  && (!r.cancelled && !r.unknown && !r.partial && r.rc == Some(0) && r.error.None? ==> b.state == Ended(Succeeded))
                  && (!r.cancelled && !r.unknown && !r.partial && !(r.rc == Some(0) && r.error.None?) ==> b.state == Ended(Failed))
                  && (r.error.Some? && r.error.value != "" ==> b.reason == Code(r.error.value))
                  && (!(r.error.Some? && r.error.value != "") && r.warning.Some? ==> b.reason == Code(r.warning.value))
                  && (!(r.error.Some? && r.error.value != "") && r.warning.None? ==> b.reason == NoReason))
  {}

  /** A completion writes the attempt, shows its state on its deployment while it is the current one, and gives back
      its own lock. */
  lemma FinishExactly(w: World, id: Id, r: Report)
    requires id in w.attempts
    ensures var w', b := Finish(w, id, r), Finished(w.attempts[id], r);
            var d := w.attempts[id].deployment;
            && w' == w.(attempts := w.attempts[id := b], deployments := w'.deployments, locks := w'.locks)
            && w'.deployments == (if d in w.deployments && w.deployments[d].current == Some(id)
                                  then w.deployments[d := w.deployments[d].(state := b.state)] else w.deployments)
            && w'.locks == if d in w.locks && w.locks[d].owner == ByAttempt(id) then w.locks - {d} else w.locks
  {
    assert Finished(w.attempts[id], r).deployment == w.attempts[id].deployment;
    hide Finished;
  }

  // ---------------------------------------------------------------- recovery

  /** The PID a pass goes by: its row's, or else the one in the attempt's files. */
  ghost predicate GoesBy(w: World, id: Id, row: Option<nat>, pid: nat) {
    row == Some(pid) || (row.None? && id in w.recorded && w.recorded[id].pid == pid)
  }

  /** A pass turns to the attempts that have not ended, and to cancelled ones that still hold their lock. */
  lemma SelectedExactly(w: World, id: Id)
    requires id in w.attempts
    ensures var a := w.attempts[id];
            NeedsRecovery(w, id) <==>
              !a.state.Ended? || (a.state == Ended(Cancelled) && a.deployment in w.locks && w.locks[a.deployment].owner == ByAttempt(id))
  {}

  /** What one turn of a pass does: nothing for an attempt that is looked after here, or too young to have a PID;
      a lock for a live runner that has none; and for any other the end of an unobserved run, with the return code
      that its files report, and unknown when they report none. */
  lemma RecoverExactly(w: World, id: Id, row: Option<nat>, tracked: bool, rc: Option<int>, tip: nat, young: bool)
    requires id in w.attempts && (!Terminal(w.attempts[id]) ==> w.attempts[id].rc.None?)
    ensures var w', a := Recover(w, id, row, tracked, rc, tip, young), w.attempts[id];
            var alive := exists pid :: GoesBy(w, id, row, pid) && RunsAs(w, id, pid);
            && (tracked ==> w' == w)
            && (!tracked && young && row.None? && id !in w.recorded ==> w' == w)
            && (!tracked && alive ==>
                  w' == if a.deployment in w.locks then w
                        else w.(locks := w.locks[a.deployment := Lock(ByAttempt(id), w.now, 30)]))
            && (!tracked && !alive && !(young && row.None? && id !in w.recorded) ==>
                  id in w'.attempts && var b := w'.attempts[id];
                  && b.state.Ended? && b.cursor >= tip && b.cursor >= a.cursor && b.rc == (if a.rc.Some? then a.rc else rc)
                  && (a.state.Ended? ==> b.state == a.state)
                  && (!a.state.Ended? && a.reason == CancelRequested ==> b.state == Ended(Cancelled))
                  && (!a.state.Ended? && a.reason != CancelRequested ==>
                        b.state == Ended(if rc.None? then Unknown else if rc == Some(0) then Succeeded else Failed))
                  && !(a.deployment in w'.locks && w'.locks[a.deployment].owner == ByAttempt(id)))
  {
    AliveExactly(w, id, row);
    RecoverCases(w, id, row, tracked, rc, tip, young);
    if FindsDead(w, id, row, tracked, young) {
      DeadEnds(w, id, rc, tip);
    }
    hide Recover, FinishRecovered, RunsAs, ProcessMatches;
  }

  lemma AliveExactly(w: World, id: Id, row: Option<nat>)
    ensures (exists pid :: GoesBy(w, id, row, pid) && RunsAs(w, id, pid)) <==>
            KnownPid(w, id, row).Some? && ProcessMatches(w, id, KnownPid(w, id, row).value)
    ensures KnownPid(w, id, row).None? <==> row.None? && id !in w.recorded
  {
    if KnownPid(w, id, row).Some? { assert GoesBy(w, id, row, KnownPid(w, id, row).value); }
  }

  lemma RecoverCases(w: World, id: Id, row: Option<nat>, tracked: bool, rc: Option<int>, tip: nat, young: bool)
    requires id in w.attempts
    ensures var pid, d := KnownPid(w, id, row), w.attempts[id].deployment;
            Recover(w, id, row, tracked, rc, tip, young) ==
              if FindsDead(w, id, row, tracked, young) then FinishRecovered(w, id, rc, tip)
              else if tracked || pid.None? || d in w.locks then w
              else w.(locks := w.locks[d := Lock(ByAttempt(id), w.now, 30)])
  {
    hide FinishRecovered, ProcessMatches;
  }

  lemma DeadEnds(w: World, id: Id, rc: Option<int>, tip: nat)
    requires id in w.attempts && (!Terminal(w.attempts[id]) ==> w.attempts[id].rc.None?)
    ensures var w', a := FinishRecovered(w, id, rc, tip), w.attempts[id];
            id in w'.attempts && var b := w'.attempts[id];
            && b.state.Ended? && b.cursor >= tip && b.cursor >= a.cursor && b.rc == (if a.rc.Some? then a.rc else rc)
            && (a.state.Ended? ==> b.state == a.state)
            && (!a.state.Ended? && a.reason == CancelRequested ==> b.state == Ended(Cancelled))
            && (!a.state.Ended? && a.reason != CancelRequested ==>
                  b.state == Ended(if rc.None? then Unknown else if rc == Some(0) then Succeeded else Failed))
            && !(a.deployment in w'.locks && w'.locks[a.deployment].owner == ByAttempt(id))
  {
    var a, last := w.attempts[id], Report(rc, Some(tip), None, None, false, false, false);
    var mid := Finish(w, id, Lost(rc));
    var b := Finished(a, Lost(rc));
    FinishExactly(w, id, Lost(rc));
    FinishExactly(mid, id, last);
    FinishedExactly(a, Lost(rc));
    FinishedExactly(b, last);
    hide Finish, Finished;
  }

  /** A runner starts only under a free PID and for a recorded attempt that never had one; it alone is then known as
      its runner, and runs as it. */
  lemma LaunchExactly(w: World, id: Id, pid: nat)
    ensures var w' := Next(w, Launch(id, pid));
            if pid !in w.live && id in w.attempts && id !in w.recorded then
              && w' == w.(live := w'.live, starts := w'.starts, born := w'.born, recorded := w'.recorded)
              && w'.live == w.live[pid := w.starts] && w'.starts > w.starts && RunsAs(w', id, pid)
              && w'.born == w.born[(w.boot, w.starts) := Some(id)]
              && (forall a :: a in w'.recorded <==> a in w.recorded || a == id)
              && forall a :: a in w.recorded ==> w'.recorded[a] == w.recorded[a]
            else w' == w
  {}
}
