/** What holds of attempts and their locks under every interleaving of callbacks, requests, recovery
    passes, crashes and process identifiers that are used again. */
module LifecycleTheorems {
  import opened Wrappers
  import opened LifecycleModel

  // ---------------------------------------------------------------- invariant

  /** An attempt has a return code only once it has ended. */
  ghost predicate RcOk(w: World) {
    forall id :: id in w.attempts && !Terminal(w.attempts[id]) ==> w.attempts[id].rc.None?
  }

  /** Start times are unique within a boot; identity files and live processes tell the truth about them. */
  ghost predicate ProcessesOk(w: World) {
    && (forall s :: s in w.born ==> s.0 < w.boot || (s.0 == w.boot && s.1 < w.starts))
    && (forall p :: p in w.live ==> (w.boot, w.live[p]) in w.born)
    && (forall id :: id in w.recorded ==>
          && (w.recorded[id].boot, w.recorded[id].start) in w.born
          && w.born[(w.recorded[id].boot, w.recorded[id].start)] == Some(id))
    && forall p, q :: p in w.live && q in w.live && w.live[p] == w.live[q] ==> p == q
  }

  /** A recorded PID is that of the attempt's own identity file. */
  ghost predicate PidsOk(w: World) { forall id :: id in w.attempts ==> NamesRunner(w, id, w.attempts[id].pid) }

  ghost predicate Inv(w: World) { RcOk(w) && ProcessesOk(w) && PidsOk(w) }

  /** Only processes starting and identity files being written touch what is known about processes. */
  ghost predicate SameProcesses(w: World, w': World) {
    w'.recorded == w.recorded && w'.live == w.live && w'.born == w.born && w'.starts == w.starts && w'.boot == w.boot
  }

  lemma FinishChanges(w: World, id: Id, r: Report)
    ensures SameProcesses(w, Finish(w, id, r))
    ensures Finish(w, id, r).attempts
      == if id in w.attempts then w.attempts[id := Finished(w.attempts[id], r)] else w.attempts
  {
    hide Finished;
  }

  lemma FinishRecoveredChanges(w: World, id: Id, rc: Option<int>, tip: nat)
    requires id in w.attempts
    ensures SameProcesses(w, FinishRecovered(w, id, rc, tip))
    ensures FinishRecovered(w, id, rc, tip).attempts
      == w.attempts[id := Finished(Finished(w.attempts[id], Lost(rc)), Report(rc, Some(tip), None, None, false, false, false))]
  {
    var r2 := Report(rc, Some(tip), None, None, false, false, false);
    FinishChanges(w, id, Lost(rc));
    var mid := Finish(w, id, Lost(rc));
    FinishChanges(mid, id, r2);
    hide Finish, Finished, Lost;
    assert mid.attempts[id] == Finished(w.attempts[id], Lost(rc));
    var m := Finished(mid.attempts[id], r2);
    assert w.attempts[id := mid.attempts[id]][id := m] == w.attempts[id := m];
  }

  lemma RecoverChanges(w: World, id: Id, row: Option<nat>, tracked: bool, rc: Option<int>, tip: nat, young: bool)
    ensures SameProcesses(w, Recover(w, id, row, tracked, rc, tip, young))
    ensures Recover(w, id, row, tracked, rc, tip, young).attempts == w.attempts
         || (id in w.attempts && Recover(w, id, row, tracked, rc, tip, young).attempts == FinishRecovered(w, id, rc, tip).attempts)
  {
    hide FinishRecovered, ProcessMatches, KnownPid;
    if id in w.attempts { FinishRecoveredChanges(w, id, rc, tip); }
  }

  // ---------------------------------------------------------------- one step of one attempt

  /** How an attempt may change: forward only, and its end, its return code and its cancellation are final. */
  ghost predicate Moves(a: Attempt, b: Attempt) {
    && b.deployment == a.deployment && b.cursor >= a.cursor
    && (Terminal(a) ==> b.state == a.state && b.reason == a.reason)
    && (a.rc.Some? ==> b.rc == a.rc)
    && (a.reason == CancelRequested ==> b.reason == CancelRequested && (!Terminal(a) ==> !Terminal(b) || b.state == Ended(Cancelled)))
    && (!Terminal(b) ==> !Terminal(a))
  }

  lemma FinishedMoves(a: Attempt, r: Report)
    requires !Terminal(a) ==> a.rc.None?
    ensures Moves(a, Finished(a, r)) && Terminal(Finished(a, r))
    ensures Finished(a, r).rc == if a.rc.Some? then a.rc else r.rc
    ensures !Terminal(a) && a.reason != CancelRequested ==> Finished(a, r).state == Ended(Verdict(r))
  {}

  lemma MovesOn(a: Attempt, b: Attempt, c: Attempt)
    requires Moves(a, b) && Moves(b, c)
    ensures Moves(a, c)
  {}

  lemma NextMoves(w: World, e: Event, id: Id)
    requires RcOk(w) && id in w.attempts
    ensures id in Next(w, e).attempts && Moves(w.attempts[id], Next(w, e).attempts[id])
  {
    hide RunnerAlive, Removable, ProcessMatches, PidOf, Verdict, ReasonOf, Finish, Recover, FinishRecovered, Finished, Moves, Lost;
    MovesNowhere(w.attempts[id]);
    match e
    case DoFinish(f, r) =>
      FinishChanges(w, f, r);
      FinishedMoves(w.attempts[id], r);
    case DoRecover(f, row, tracked, rc, tip, young) =>
      RecoverChanges(w, f, row, tracked, rc, tip, young);
      if f in w.attempts {
        FinishRecoveredChanges(w, f, rc, tip);
        RecoveredMoves(w.attempts[id], rc, tip);
      }
    case DoMark(m, spawned) => MarkMoves(w, m, spawned, id);
    case DoAdvance(m, cursor) => AdvanceMoves(w.attempts[id], cursor);
    case DoCancel(d, signalled, tracked) => CancelMoves(w.attempts[id]);
    case DoReserve(d, m) =>
    case _ =>
  }

  lemma RecoveredMoves(a: Attempt, rc: Option<int>, tip: nat)
    requires !Terminal(a) ==> a.rc.None?
    ensures Moves(a, Finished(Finished(a, Lost(rc)), Report(rc, Some(tip), None, None, false, false, false)))
  {
    var b := Finished(a, Lost(rc));
    FinishedMoves(a, Lost(rc));
    FinishedMoves(b, Report(rc, Some(tip), None, None, false, false, false));
    hide *;
    MovesOn(a, b, Finished(b, Report(rc, Some(tip), None, None, false, false, false)));
  }

  lemma MarkMoves(w: World, m: Id, spawned: Option<nat>, id: Id)
    requires id in w.attempts
    ensures id in MarkRunning(w, m, spawned).0.attempts && Moves(w.attempts[id], MarkRunning(w, m, spawned).0.attempts[id])
  {}

  lemma AdvanceMoves(a: Attempt, cursor: nat)
    ensures a.cursor < cursor ==> Moves(a, a.(cursor := cursor))
  {}

  lemma CancelMoves(a: Attempt)
    ensures !Terminal(a) ==> Moves(a, a.(reason := CancelRequested))
  {}

  // ---------------------------------------------------------------- the invariant is kept

  lemma NextKeepsRc(w: World, e: Event)
    requires RcOk(w)
    ensures RcOk(Next(w, e))
  {
    forall id | id in Next(w, e).attempts && !Terminal(Next(w, e).attempts[id]) ensures Next(w, e).attempts[id].rc.None? {
      if id in w.attempts {
        NextMoves(w, e, id);
        NoRcYet(w, e, id);
      } else {
        NewAttempt(w, e, id);
      }
    }
  }

  lemma NewAttempt(w: World, e: Event, id: Id)
    requires id !in w.attempts && id in Next(w, e).attempts
    ensures Next(w, e).attempts[id].rc.None?
  {
    hide RunnerAlive, Removable, ProcessMatches, PidOf, Finish, Recover, FinishRecovered, Finished, Lost;
    match e
    case DoFinish(f, r) => FinishChanges(w, f, r);
    case DoRecover(f, row, tracked, rc, tip, young) =>
      RecoverChanges(w, f, row, tracked, rc, tip, young);
      if f in w.attempts { FinishRecoveredChanges(w, f, rc, tip); }
    case _ =>
  }

  /** A return code is only ever written together with an end. */
  lemma NoRcYet(w: World, e: Event, id: Id)
    requires RcOk(w) && id in w.attempts && !Terminal(w.attempts[id]) && id in Next(w, e).attempts && !Terminal(Next(w, e).attempts[id])
    ensures Next(w, e).attempts[id].rc.None?
  {
    hide RunnerAlive, Removable, ProcessMatches, PidOf, Verdict, ReasonOf, Finish, Recover, FinishRecovered, Finished, Lost;
    match e
    case DoFinish(f, r) =>
      FinishChanges(w, f, r);
      FinishedMoves(w.attempts[id], r);
    case DoRecover(f, row, tracked, rc, tip, young) =>
      RecoverChanges(w, f, row, tracked, rc, tip, young);
      if f in w.attempts {
        FinishRecoveredChanges(w, f, rc, tip);
        FinishedMoves(w.attempts[f], Lost(rc));
        FinishedMoves(Finished(w.attempts[f], Lost(rc)), Report(rc, Some(tip), None, None, false, false, false));
      }
    case _ =>
  }

  lemma SameKeeps(w: World, w': World)
    requires ProcessesOk(w) && SameProcesses(w, w')
    ensures ProcessesOk(w')
  {}

  lemma StartKeeps(w: World, pid: nat, whose: Option<Id>)
    requires ProcessesOk(w) && pid !in w.live
    ensures ProcessesOk(Start(w, pid, whose))
  {}

  lemma LaunchKeeps(w: World, id: Id, pid: nat)
    requires ProcessesOk(w)
    ensures ProcessesOk(Next(w, Launch(id, pid)))
  {
    if pid !in w.live { StartKeeps(w, pid, Some(id)); }
  }

  lemma ExitKeeps(w: World, pid: nat)
    requires ProcessesOk(w)
    ensures ProcessesOk(Next(w, Exit(pid))) && ProcessesOk(Next(w, Reboot))
  {}

  lemma NextKeepsProcesses(w: World, e: Event)
    requires ProcessesOk(w)
    ensures ProcessesOk(Next(w, e))
  {
    hide ProcessesOk, RunnerAlive, Removable, ProcessMatches, PidOf, Finish, Recover, MarkRunning, Cancel, Reserve, Start;
    match e
    case DoFinish(f, r) => FinishChanges(w, f, r); SameKeeps(w, Next(w, e));
    case DoRecover(f, row, tracked, rc, tip, young) => RecoverChanges(w, f, row, tracked, rc, tip, young); SameKeeps(w, Next(w, e));
    case DoMark(m, spawned) => MarkChanges(w, m, spawned); SameKeeps(w, Next(w, e));
    case DoReserve(d, id) => ReserveChanges(w, d, id); SameKeeps(w, Next(w, e));
    case DoCancel(d, signalled, tracked) => CancelChanges(w, d, signalled, tracked); SameKeeps(w, Next(w, e));
    case Launch(id, pid) => LaunchKeeps(w, id, pid);
    case Other(pid) => if pid !in w.live { StartKeeps(w, pid, None); }
    case Exit(pid) => ExitKeeps(w, pid);
    case Reboot => ExitKeeps(w, 0);
    case _ => SameKeeps(w, Next(w, e));
  }

  lemma MarkChanges(w: World, id: Id, spawned: Option<nat>)
    ensures SameProcesses(w, MarkRunning(w, id, spawned).0)
  {}

  lemma ReserveChanges(w: World, d: Id, id: Id)
    ensures SameProcesses(w, Reserve(w, d, id))
  {}

  lemma CancelChanges(w: World, d: Id, signalled: bool, tracked: bool)
    ensures SameProcesses(w, Cancel(w, d, signalled, tracked))
  {}

  lemma FinishedPid(a: Attempt, r: Report)
    ensures Finished(a, r).pid == a.pid
  {}

  /** Identity files are written once. */
  lemma RecordedStays(w: World, e: Event, id: Id)
    ensures id in w.recorded ==> id in Next(w, e).recorded && Next(w, e).recorded[id] == w.recorded[id]
  {
    hide RunnerAlive, Removable, ProcessMatches, PidOf, Finish, Recover, MarkRunning, Cancel, Reserve, StaleLocks;
    match e
    case DoFinish(f, r) => FinishChanges(w, f, r);
    case DoRecover(f, row, tracked, rc, tip, young) => RecoverChanges(w, f, row, tracked, rc, tip, young);
    case DoMark(m, spawned) => MarkChanges(w, m, spawned);
    case DoReserve(d, m) => ReserveChanges(w, d, m);
    case DoCancel(d, signalled, tracked) => CancelChanges(w, d, signalled, tracked);
    case _ =>
  }

  lemma MarkPid(w: World, m: Id, spawned: Option<nat>, id: Id)
    ensures id in MarkRunning(w, m, spawned).0.attempts ==> id in w.attempts
    ensures id in MarkRunning(w, m, spawned).0.attempts ==>
              || MarkRunning(w, m, spawned).0.attempts[id].pid == w.attempts[id].pid
              || (m == id && MarkRunning(w, m, spawned).0.attempts[id].pid == spawned)
  {}

  /** A PID changes only when it is reported for the attempt's own runner. */
  lemma PidStep(w: World, e: Event, id: Id)
    ensures id in Next(w, e).attempts ==>
              || Next(w, e).attempts[id].pid.None?
              || (id in w.attempts && Next(w, e).attempts[id].pid == w.attempts[id].pid)
              || (e.DoMark? && e.id == id && NamesRunner(w, id, e.spawned) && Next(w, e).attempts[id].pid == e.spawned)
  {
    hide RunnerAlive, Removable, ProcessMatches, PidOf, Finish, Recover, FinishRecovered, Finished, Lost, MarkRunning, NamesRunner, StaleLocks;
    match e
    case DoFinish(f, r) =>
      FinishChanges(w, f, r);
      if f in w.attempts { FinishedPid(w.attempts[f], r); }
    case DoRecover(f, row, tracked, rc, tip, young) =>
      RecoverChanges(w, f, row, tracked, rc, tip, young);
      if f in w.attempts {
        FinishRecoveredChanges(w, f, rc, tip);
        FinishedPid(w.attempts[f], Lost(rc));
        FinishedPid(Finished(w.attempts[f], Lost(rc)), Report(rc, Some(tip), None, None, false, false, false));
      }
    case DoMark(m, spawned) => MarkPid(w, m, spawned, id);
    case _ =>
  }

  lemma NextKeepsPids(w: World, e: Event)
    requires PidsOk(w)
    ensures PidsOk(Next(w, e))
  {
    forall id | id in Next(w, e).attempts ensures NamesRunner(Next(w, e), id, Next(w, e).attempts[id].pid) {
      PidStep(w, e, id);
      RecordedStays(w, e, id);
      hide Next;
    }
  }

  lemma NextKeeps(w: World, e: Event)
    requires Inv(w)
    ensures Inv(Next(w, e))
  {
    NextKeepsRc(w, e);
    NextKeepsProcesses(w, e);
    NextKeepsPids(w, e);
  }

  lemma {:induction false} RunKeeps(w: World, events: seq<Event>)
    requires Inv(w)
    ensures Inv(Run(w, events))
  {
    hide Inv, Next;
    if events != [] {
      RunKeeps(w, events[..|events| - 1]);
      NextKeeps(Run(w, events[..|events| - 1]), events[|events| - 1]);
    }
  }

  /** Over any run: an attempt that ended keeps its state and a known return code for good, its cursor
      never falls, and once a cancellation is recorded the only end it can have is cancelled. */
  lemma {:induction false} RunMoves(w: World, events: seq<Event>, id: Id)
    requires Inv(w) && id in w.attempts
    ensures Inv(Run(w, events)) && id in Run(w, events).attempts && Moves(w.attempts[id], Run(w, events).attempts[id])
  {
    hide Inv, Next, Moves;
    if events == [] {
      assert Moves(w.attempts[id], w.attempts[id]) by { MovesNowhere(w.attempts[id]); }
    } else {
      var n := |events| - 1;
      RunMoves(w, events[..n], id);
      var before := Run(w, events[..n]);
      NextKeeps(before, events[n]);
      InvMeansRc(before);
      NextMoves(before, events[n], id);
      MovesOn(w.attempts[id], before.attempts[id], Next(before, events[n]).attempts[id]);
    }
  }

  lemma MovesNowhere(a: Attempt)
    ensures Moves(a, a)
  {}

  lemma InvMeansRc(w: World)
    requires Inv(w)
    ensures RcOk(w)
  {}

  /** A cancellation recorded before the end is the only end there will be. */
  lemma CancelWins(w: World, events: seq<Event>, id: Id)
    requires Inv(w) && id in w.attempts && !Terminal(w.attempts[id]) && w.attempts[id].reason == CancelRequested
    ensures id in Run(w, events).attempts
    ensures Terminal(Run(w, events).attempts[id]) ==> Run(w, events).attempts[id].state == Ended(Cancelled)
    ensures forall pid :: !MarkRunning(Run(w, events), id, pid).1
  {
    hide Run;
    RunMoves(w, events, id);
  }

  // ---------------------------------------------------------------- completion

  /** Completion releases only the attempt's own lock and touches nobody else. */
  lemma FinishReleasesOwn(w: World, id: Id, r: Report)
    requires id in w.attempts
    ensures Finish(w, id, r).locks == Release(w, w.attempts[id].deployment, ByAttempt(id)).locks
    ensures forall d :: d in w.locks && !(d == w.attempts[id].deployment && w.locks[d].owner == ByAttempt(id)) ==>
              d in Finish(w, id, r).locks && Finish(w, id, r).locks[d] == w.locks[d]
    ensures forall d :: d in w.deployments && (d != w.attempts[id].deployment || w.deployments[d].current != Some(id)) ==>
              d in Finish(w, id, r).deployments && Finish(w, id, r).deployments[d] == w.deployments[d]
  {
    hide Verdict, ReasonOf;
    assert Finished(w.attempts[id], r).deployment == w.attempts[id].deployment;
    hide Finished;
  }

  /** The step is a completion of this attempt with this report: a callback, or a pass that finds it dead. */
  predicate Completes(w: World, e: Event, id: Id, r: Report) {
    || e == DoFinish(id, r)
    || (e.DoRecover? && e.id == id && r == Lost(e.rc) && FindsDead(w, id, e.row, e.tracked, e.young))
  }

  function EndOf(a: Attempt, r: Report): Outcome { if a.reason == CancelRequested then Cancelled else Verdict(r) }

  lemma RecoveredEnd(a: Attempt, rc: Option<int>, tip: nat)
    requires !Terminal(a) && a.rc.None?
    ensures Finished(Finished(a, Lost(rc)), Report(rc, Some(tip), None, None, false, false, false)).state == Ended(EndOf(a, Lost(rc)))
  {}

  lemma FinishedEnd(a: Attempt, r: Report)
    requires !Terminal(a)
    ensures Finished(a, r).state == Ended(EndOf(a, r))
  {}

  lemma RecoverEnds(w: World, id: Id, row: Option<nat>, tracked: bool, rc: Option<int>, tip: nat, young: bool)
    requires id in w.attempts
    ensures Recover(w, id, row, tracked, rc, tip, young).attempts
      == if FindsDead(w, id, row, tracked, young) then FinishRecovered(w, id, rc, tip).attempts else w.attempts
  {
    hide FinishRecovered, ProcessMatches, KnownPid;
  }

  /** An open attempt ends in a step if and only if the step completes it, and then as its report says. */
  lemma StepEnds(w: World, e: Event, id: Id)
    requires RcOk(w) && id in w.attempts && !Terminal(w.attempts[id])
    ensures id in Next(w, e).attempts
    ensures Terminal(Next(w, e).attempts[id]) <==> exists r :: Completes(w, e, id, r)
    ensures forall r :: Completes(w, e, id, r) ==> Next(w, e).attempts[id].state == Ended(EndOf(w.attempts[id], r))
  {
    hide RunnerAlive, Removable, ProcessMatches, PidOf, Finish, Recover, FinishRecovered, Finished, Lost, FindsDead, EndOf, MarkRunning, StaleLocks, NamesRunner;
    match e
    case DoFinish(f, r) =>
      FinishChanges(w, f, r);
      FinishedEnd(w.attempts[id], r);
      assert f == id ==> Completes(w, e, id, r);
    case DoRecover(f, row, tracked, rc, tip, young) =>
      if f in w.attempts {
        RecoverEnds(w, f, row, tracked, rc, tip, young);
        FinishRecoveredChanges(w, f, rc, tip);
        RecoveredEnd(w.attempts[id], rc, tip);
      } else {
        RecoverChanges(w, f, row, tracked, rc, tip, young);
      }
      assert f == id && FindsDead(w, id, row, tracked, young) ==> Completes(w, e, id, Lost(rc));
    case DoMark(m, spawned) => MarkEndsNothing(w, m, spawned, id);
    case _ =>
  }

  lemma MarkEndsNothing(w: World, m: Id, spawned: Option<nat>, id: Id)
    requires id in w.attempts && !Terminal(w.attempts[id])
    ensures id in MarkRunning(w, m, spawned).0.attempts && !Terminal(MarkRunning(w, m, spawned).0.attempts[id])
  {}

  /** Step n of the run completes the attempt, still open until then, with this report. */
  predicate EndsAt(w: World, events: seq<Event>, id: Id, n: nat, r: Report) {
    && n < |events| && id in Run(w, events[..n]).attempts && !Terminal(Run(w, events[..n]).attempts[id])
    && Completes(Run(w, events[..n]), events[n], id, r)
  }

  /** An attempt ends in a run exactly where its first completion is, and keeps what that completion says. */
  lemma {:induction false} EndedBy(w: World, events: seq<Event>, id: Id)
    requires Inv(w) && id in w.attempts && !Terminal(w.attempts[id])
    ensures Inv(Run(w, events)) && id in Run(w, events).attempts
    ensures Terminal(Run(w, events).attempts[id]) <==> exists n: nat, r :: EndsAt(w, events, id, n, r)
    ensures forall n: nat, r :: EndsAt(w, events, id, n, r) ==>
              Run(w, events).attempts[id].state == Ended(EndOf(Run(w, events[..n]).attempts[id], r))
  {
    hide Inv, Next, Completes, EndOf, Moves;
    if events != [] {
      var n := |events| - 1;
      var before := Run(w, events[..n]);
      EndedBy(w, events[..n], id);
      NextKeeps(before, events[n]);
      InvMeansRc(before);
      EndStays(before, events[n], id);
      assert forall k: nat :: k <= n ==> events[..n][..k] == events[..k];
      forall k: nat, r ensures k < n ==> (EndsAt(w, events, id, k, r) <==> EndsAt(w, events[..n], id, k, r)) {}
      if !Terminal(before.attempts[id]) {
        StepEnds(before, events[n], id);
        forall r ensures EndsAt(w, events, id, n, r) <==> Completes(before, events[n], id, r) {}
      }
    }
  }

  lemma EndStays(w: World, e: Event, id: Id)
    requires RcOk(w) && id in w.attempts
    ensures id in Next(w, e).attempts && (Terminal(w.attempts[id]) ==> Next(w, e).attempts[id].state == w.attempts[id].state)
  {
    NextMoves(w, e, id);
  }

  /** Over any run an open attempt succeeds if and only if its first completion has return code zero and
      nothing against it, with no cancellation recorded by then; and likewise for cancelled and failed. */
  lemma SucceedsExactly(w: World, events: seq<Event>, id: Id)
    requires Inv(w) && id in w.attempts && !Terminal(w.attempts[id])
    ensures id in Run(w, events).attempts
    ensures Run(w, events).attempts[id].state == Ended(Succeeded) <==> exists n: nat, r ::
              EndsAt(w, events, id, n, r) && Run(w, events[..n]).attempts[id].reason != CancelRequested
              && r.rc == Some(0) && r.error.None? && !r.cancelled && !r.unknown && !r.partial
    ensures Run(w, events).attempts[id].state == Ended(Cancelled) <==> exists n: nat, r ::
              EndsAt(w, events, id, n, r) && (Run(w, events[..n]).attempts[id].reason == CancelRequested || r.cancelled)
    ensures Run(w, events).attempts[id].state == Ended(Failed) <==> exists n: nat, r ::
              EndsAt(w, events, id, n, r) && Run(w, events[..n]).attempts[id].reason != CancelRequested
              && !r.cancelled && !r.unknown && !r.partial && (r.rc != Some(0) || r.error.Some?)
  {
    EndedBy(w, events, id);
    hide Inv, Run, Completes;
    if Terminal(Run(w, events).attempts[id]) {
      var n: nat, r :| EndsAt(w, events, id, n, r);
      assert Run(w, events).attempts[id].state == Ended(EndOf(Run(w, events[..n]).attempts[id], r));
    }
  }

  /** A repeated callback with the same result changes nothing. */
  lemma FinishTwice(w: World, id: Id, r: Report)
    requires RcOk(w)
    ensures Finish(Finish(w, id, r), id, r) == Finish(w, id, r)
  {
    if id in w.attempts {
      assert Finished(Finished(w.attempts[id], r), r) == Finished(w.attempts[id], r) by { FinishedMoves(w.attempts[id], r); }
      hide Finished, RcOk;
      FinishChanges(w, id, r);
      FinishReleasesOwn(w, id, r);
      FinishSetsDeployment(w, id, r);
      hide Finish;
      FinishSettled(Finish(w, id, r), id, r);
    }
  }

  lemma FinishSettled(w: World, id: Id, r: Report)
    requires id in w.attempts && Finished(w.attempts[id], r) == w.attempts[id]
    requires var a := w.attempts[id];
             && (a.deployment in w.deployments && w.deployments[a.deployment].current == Some(id) ==>
                   w.deployments[a.deployment].state == a.state)
             && !(a.deployment in w.locks && w.locks[a.deployment].owner == ByAttempt(id))
    ensures Finish(w, id, r) == w
  {
    hide Finished;
    var a := w.attempts[id];
    assert w.attempts[id := a] == w.attempts;
    if a.deployment in w.deployments { assert w.deployments[a.deployment := w.deployments[a.deployment]] == w.deployments; }
  }

  lemma FinishSetsDeployment(w: World, id: Id, r: Report)
    requires id in w.attempts
    ensures var a := Finished(w.attempts[id], r);
            a.deployment in Finish(w, id, r).deployments && Finish(w, id, r).deployments[a.deployment].current == Some(id) ==>
              Finish(w, id, r).deployments[a.deployment].state == a.state
  {
    hide Finished;
  }

  // ---------------------------------------------------------------- ownership

  /** In every run a process that matches an attempt was started as that attempt's runner, not one that was
      given its PID later. */
  lemma MatchIsOwn(w: World, events: seq<Event>, id: Id, pid: nat)
    requires Inv(w) && ProcessMatches(Run(w, events), id, pid)
    ensures var v := Run(w, events); (v.boot, v.live[pid]) in v.born && v.born[(v.boot, v.live[pid])] == Some(id)
  {
    RunKeeps(w, events);
  }

  ghost predicate Gone(w: World, id: Id) {
    id in w.recorded && (w.recorded[id].boot != w.boot || forall p :: p in w.live ==> w.live[p] != w.recorded[id].start)
  }

  lemma ExitMeansGone(w: World, id: Id, pid: nat)
    requires ProcessesOk(w) && ProcessMatches(w, id, pid)
    ensures Gone(Next(w, Exit(pid)), id) && Gone(Next(w, Reboot), id)
  {}

  lemma NextStaysGone(w: World, e: Event, id: Id)
    requires ProcessesOk(w) && Gone(w, id) && w.recorded[id].boot <= w.boot
    ensures Gone(Next(w, e), id) && Next(w, e).recorded[id] == w.recorded[id] && w.boot <= Next(w, e).boot
  {
    hide RunnerAlive, Removable, ProcessMatches, PidOf, Finish, Recover, MarkRunning, Cancel, Reserve;
    match e
    case DoFinish(f, r) => FinishChanges(w, f, r);
    case DoRecover(f, row, tracked, rc, tip, young) => RecoverChanges(w, f, row, tracked, rc, tip, young);
    case DoMark(m, spawned) => MarkChanges(w, m, spawned);
    case DoReserve(d, m) => ReserveChanges(w, d, m);
    case DoCancel(d, signalled, tracked) => CancelChanges(w, d, signalled, tracked);
    case _ =>
  }

  /** Once a runner is gone, no later process is ever taken for it, whatever PIDs are used again. */
  lemma {:induction false} RunnerStaysGone(w: World, events: seq<Event>, id: Id, pid: nat)
    requires Inv(w) && Gone(w, id) && w.recorded[id].boot <= w.boot
    ensures !ProcessMatches(Run(w, events), id, pid)
    ensures Inv(Run(w, events)) && Gone(Run(w, events), id) && Run(w, events).recorded[id].boot <= Run(w, events).boot
  {
    hide Next, Run;
    RunStaysGone(w, events, id);
  }

  lemma {:induction false} RunStaysGone(w: World, events: seq<Event>, id: Id)
    requires Inv(w) && Gone(w, id) && w.recorded[id].boot <= w.boot
    ensures Inv(Run(w, events)) && Gone(Run(w, events), id) && Run(w, events).recorded[id].boot <= Run(w, events).boot
  {
    hide Next, RcOk, ProcessesOk;
    if events != [] {
      var n := |events| - 1;
      RunStaysGone(w, events[..n], id);
      NextKeeps(Run(w, events[..n]), events[n]);
      NextStaysGone(Run(w, events[..n]), events[n], id);
    }
  }

  /** The lock of a verified live runner stays with it through every step but its own completion; a pass may
      act on a row read earlier, if only its PID is the attempt's own. */
  lemma LiveRunnerKeepsLock(w: World, e: Event, d: Id)
    requires d in w.locks && RunnerAlive(w, d, w.locks[d])
    requires !(e.DoFinish? && w.locks[d].owner == ByAttempt(e.id)) && (e.DoRecover? ==> NamesRunner(w, e.id, e.row))
    ensures d in Next(w, e).locks && Next(w, e).locks[d].owner == w.locks[d].owner
  {
    match e
    case DoFinish(f, r) => if f in w.attempts { FinishReleasesOwn(w, f, r); }
    case DoRecover(f, row, tracked, rc, tip, young) => RecoverKeepsLock(w, f, row, tracked, rc, tip, young, d);
    case DoMark(m, spawned) => MarkKeepsLocks(w, m, spawned);
    case _ => hide ProcessMatches, PidOf, Finish, Recover, MarkRunning;
  }

  lemma MarkKeepsLocks(w: World, id: Id, spawned: Option<nat>)
    ensures MarkRunning(w, id, spawned).0.locks == w.locks
  {}

  lemma RecoverKeepsLock(w: World, id: Id, row: Option<nat>, tracked: bool, rc: Option<int>, tip: nat, young: bool, d: Id)
    requires d in w.locks && RunnerAlive(w, d, w.locks[d]) && NamesRunner(w, id, row)
    ensures d in Recover(w, id, row, tracked, rc, tip, young).locks
    ensures Recover(w, id, row, tracked, rc, tip, young).locks[d].owner == w.locks[d].owner
  {
    if w.locks[d].owner != ByAttempt(id) && id in w.attempts {
      FinishReleasesOwn(w, id, Lost(rc));
      FinishChanges(w, id, Lost(rc));
      FinishReleasesOwn(Finish(w, id, Lost(rc)), id, Report(rc, Some(tip), None, None, false, false, false));
    }
    hide Finish, Finished, Lost, ProcessMatches;
  }
}
