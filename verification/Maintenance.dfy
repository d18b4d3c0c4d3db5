/** Maintenance admission: shared locks owned by HTTP tasks against one exclusive hold, with callers,
    installers and processes that may vanish at any point. */
module Maintenance {
  import opened Wrappers

  type Id = nat

  /** A tracked request runs and ends; its done callback then closes its descriptor and forgets it. */
  datatype Task = Working | Done

  /** How far a maintenance guard has got; it releases in the opposite order. */
  datatype Guard = Opened | Exclusive | Vetted | Provisioning | Writing | Body | Leaving | Unwinding

  /** What the audit reads from the database. */
  datatype Db = Db(openAttempts: set<string>, workspaceLocks: set<string>)

  /** What a caller waits for: the application itself, on the routes that bypass the gate, or a shield in
      front of its task. A cancellation goes on to the first and stops at the second. */
  datatype Await = Direct | Shielded

  /** shared are the open descriptors with a shared lock, which is all the kernel knows; tasks are the requests
      at work in the API; waiting are the callers still there and what each awaits. */
  datatype World = World(shared: set<Id>, tasks: map<Id, Task>, waiting: map<Id, Await>, guards: map<Id, Guard>,
                         exclusive: Option<Id>, provisioner: Option<Id>, writer: Option<Id>, intent: nat, db: Db)

  predicate Idle(db: Db) { db.openAttempts == {} && db.workspaceLocks == {} }

  datatype Event =
    | Bypass(t: Id)
    | TryShared(t: Id)
    | CheckIntent(t: Id)
    | FinishTask(t: Id)
    | ReleaseTask(t: Id)
    | Answer(t: Id)
    | CallerGone(t: Id)
    | ApiCrash
    | Commit(db: Db)
    | SetIntent(size: nat)
    | OpenGuard(g: Id)
    | LockExclusive(g: Id)
    | VetIntent(g: Id)
    | TakeProvisioning(g: Id)
    | BeginWriter(g: Id)
    | Audit(g: Id, filesIdle: bool)
    | EndBody(g: Id)
    | CloseWriter(g: Id)
    | CloseProvisioning(g: Id)
    | CloseGate(g: Id)
    | GuardCrash(g: Id)
    | OtherProvisioning(taken: bool)

  predicate At(w: World, g: Id, phase: Guard) { g in w.guards && w.guards[g] == phase }

  function Move(w: World, g: Id, phase: Guard): World { w.(guards := w.guards[g := phase]) }

  function DropGuard(w: World, g: Id): World {
    w.(guards := w.guards - {g},
       exclusive := if w.exclusive == Some(g) then None else w.exclusive,
       provisioner := if w.provisioner == Some(g + 1) then None else w.provisioner,
       writer := if w.writer == Some(g) then None else w.writer)
  }

  /** One system call, task callback, commit or crash. Provisioner 0 stands for any process that is not a
      guard; guard g holds that lock as g + 1. */
  function Next(w: World, e: Event): World {
    match e
    case Bypass(t) => if t in w.shared || t in w.waiting then w else w.(waiting := w.waiting[t := Direct])
    case TryShared(t) =>
      if t in w.shared || t in w.waiting || w.exclusive.Some? then w else w.(shared := w.shared + {t})
    case CheckIntent(t) =>
      if t !in w.shared || t in w.tasks then w
      else if w.intent > 0 then w.(shared := w.shared - {t})
      else w.(tasks := w.tasks[t := Working], waiting := w.waiting[t := Shielded])
    case FinishTask(t) => if t in w.tasks then w.(tasks := w.tasks[t := Done]) else w
    case ReleaseTask(t) =>
      if t in w.tasks && w.tasks[t].Done? then w.(shared := w.shared - {t}, tasks := w.tasks - {t}) else w
    case Answer(t) => if t in w.tasks && w.tasks[t].Working? then w else w.(waiting := w.waiting - {t})
    case CallerGone(t) =>
      if t !in w.waiting then w
      else if w.waiting[t].Direct? && t in w.tasks then w.(waiting := w.waiting - {t}, tasks := w.tasks[t := Done])
      else w.(waiting := w.waiting - {t})
    case ApiCrash => w.(shared := {}, tasks := map[], waiting := map[])
    case Commit(db) => if w.writer.Some? then w else w.(db := db)
    case SetIntent(size) => w.(intent := size)
    case OpenGuard(g) => if g in w.guards then w else Move(w, g, Opened)
    case LockExclusive(g) =>
      if !At(w, g, Opened) then w
      else if w.shared != {} || w.exclusive.Some? then DropGuard(w, g)
      else Move(w, g, Exclusive).(exclusive := Some(g))
    case VetIntent(g) => if !At(w, g, Exclusive) then w else if w.intent > 0 then DropGuard(w, g) else Move(w, g, Vetted)
    case TakeProvisioning(g) =>
      if !At(w, g, Vetted) then w
      else if w.provisioner.Some? then DropGuard(w, g) else Move(w, g, Provisioning).(provisioner := Some(g + 1))
    case BeginWriter(g) =>
      if !At(w, g, Provisioning) then w
      else if w.writer.Some? then Move(w, g, Unwinding) else Move(w, g, Writing).(writer := Some(g))
    case Audit(g, filesIdle) =>
      if !At(w, g, Writing) then w else if Idle(w.db) && filesIdle then Move(w, g, Body) else Move(w, g, Leaving)
    case EndBody(g) => if At(w, g, Body) then Move(w, g, Leaving) else w
    case CloseWriter(g) => if At(w, g, Leaving) then Move(w, g, Unwinding).(writer := None) else w
    case CloseProvisioning(g) =>
      if At(w, g, Unwinding) && w.provisioner == Some(g + 1) then w.(provisioner := None) else w
    case CloseGate(g) => if At(w, g, Unwinding) && w.provisioner != Some(g + 1) then DropGuard(w, g) else w
    case GuardCrash(g) => if g in w.guards then DropGuard(w, g) else w
    case OtherProvisioning(taken) =>
      if taken && w.provisioner.None? then w.(provisioner := Some(0))
      else if !taken && w.provisioner == Some(0) then w.(provisioner := None) else w
  }

  function Run(w: World, events: seq<Event>): World {
    if events == [] then w else Next(Run(w, events[..|events| - 1]), events[|events| - 1])
  }

  const EMPTY: World := World({}, map[], map[], map[], None, None, None, 0, Db({}, {}))

  // ---------------------------------------------------------------- invariant

  predicate HasGate(p: Guard) { !p.Opened? }

  predicate HasWriter(p: Guard) { p.Writing? || p.Body? || p.Leaving? }

  predicate HasProvisioning(p: Guard) { p.Provisioning? || p.Writing? || p.Body? || p.Leaving? }

  ghost predicate Inv(w: World) {
    && (forall g :: g in w.guards && HasProvisioning(w.guards[g]) ==> w.provisioner == Some(g + 1))
    && (w.provisioner.Some? && w.provisioner.value > 0 ==> w.provisioner.value - 1 in w.guards && HasGate(w.guards[w.provisioner.value - 1]))
    && (w.exclusive.Some? ==> w.shared == {} && w.exclusive.value in w.guards)
    && (forall g :: g in w.guards && HasGate(w.guards[g]) ==> w.exclusive == Some(g))
    && (forall g :: g in w.guards && HasWriter(w.guards[g]) ==> w.writer == Some(g))
    && (w.writer.Some? ==> w.writer.value in w.guards && HasWriter(w.guards[w.writer.value]))
    && (forall g :: g in w.guards && w.guards[g].Body? ==> Idle(w.db))
    && w.tasks.Keys <= w.shared
    && (forall t :: t in w.waiting && t in w.shared ==> w.waiting[t].Shielded?)
  }

  predicate Requesting(e: Event) {
    || e.Bypass? || e.TryShared? || e.CheckIntent? || e.FinishTask? || e.ReleaseTask? || e.Answer? || e.CallerGone?
    || e.ApiCrash?
  }

  lemma RequestKeeps(w: World, e: Event)
    requires Inv(w) && Requesting(e)
    ensures Inv(Next(w, e))
  {
    hide Idle, DropGuard, Move;
  }

  predicate Unlocking(e: Event) { e.EndBody? || e.CloseWriter? || e.CloseProvisioning? || e.CloseGate? || e.GuardCrash? }

  lemma UnlockingKeeps(w: World, e: Event)
    requires Inv(w) && Unlocking(e)
    ensures Inv(Next(w, e))
  {
    hide Idle;
  }

  lemma OutsideKeeps(w: World, e: Event)
    requires Inv(w) && (e.Commit? || e.SetIntent? || e.OtherProvisioning?)
    ensures Inv(Next(w, e))
  {
    hide Idle;
  }

  lemma GateKeeps(w: World, e: Event)
    requires Inv(w) && (e.OpenGuard? || e.VetIntent?)
    ensures Inv(Next(w, e))
  {
    hide Idle;
  }

  lemma ExclusiveKeeps(w: World, e: Event)
    requires Inv(w) && e.LockExclusive?
    ensures Inv(Next(w, e))
  {
    hide Idle;
  }

  lemma LockingKeeps(w: World, e: Event)
    requires Inv(w) && (e.TakeProvisioning? || e.BeginWriter?)
    ensures Inv(Next(w, e))
  {
    hide Idle;
  }

  lemma AuditKeeps(w: World, e: Event)
    requires Inv(w) && e.Audit?
    ensures Inv(Next(w, e))
  {
    hide Idle;
  }

  lemma NextKeeps(w: World, e: Event)
    requires Inv(w)
    ensures Inv(Next(w, e))
  {
    hide Inv, Next;
    if Requesting(e) { RequestKeeps(w, e); } else if Unlocking(e) { UnlockingKeeps(w, e); }
    else if e.OpenGuard? || e.VetIntent? { GateKeeps(w, e); } else if e.LockExclusive? { ExclusiveKeeps(w, e); }
    else if e.TakeProvisioning? || e.BeginWriter? { LockingKeeps(w, e); } else if e.Audit? { AuditKeeps(w, e); } else { OutsideKeeps(w, e); }
  }

  lemma {:induction false} RunKeeps(events: seq<Event>)
    ensures Inv(Run(EMPTY, events))
  {
    hide Inv, Next;
    if events == [] {
      EmptyInv();
    } else {
      RunKeeps(events[..|events| - 1]);
      NextKeeps(Run(EMPTY, events[..|events| - 1]), events[|events| - 1]);
    }
  }

  lemma EmptyInv()
    ensures Inv(EMPTY)
  {}

  // ---------------------------------------------------------------- exclusion

  /** Inside the body no admitted task is unfinished and the audited facts hold. */
  lemma BodyExcludes(w: World, g: Id)
    requires Inv(w) && At(w, g, Body)
    ensures w.shared == {} && w.tasks == map[] && w.db.openAttempts == {} && w.db.workspaceLocks == {}
    ensures w.exclusive == Some(g) && w.writer == Some(g) && w.provisioner == Some(g + 1)
    ensures forall h :: h in w.guards && h != g ==> w.guards[h] == Opened
  {
    assert w.tasks.Keys == {};
  }

  /** Until its own end or crash the body goes on: nothing is admitted, nothing commits. */
  lemma BodyStep(w: World, g: Id, e: Event)
    requires Inv(w) && At(w, g, Body) && e != EndBody(g) && e != GuardCrash(g)
    ensures At(Next(w, e), g, Body) && Next(w, e).db == w.db
  {
    hide Idle;
  }

  /** Throughout the body of a maintenance hold, whatever callers, tasks, installers and crashes do. */
  lemma {:induction false} BodyHolds(w: World, g: Id, events: seq<Event>)
    requires Inv(w) && At(w, g, Body)
    requires forall e :: e in events ==> e != EndBody(g) && e != GuardCrash(g)
    ensures Inv(Run(w, events)) && At(Run(w, events), g, Body)
    ensures Run(w, events).shared == {} && Run(w, events).tasks == map[] && Run(w, events).provisioner == Some(g + 1)
    ensures Run(w, events).db == w.db && w.db.openAttempts == {} && w.db.workspaceLocks == {}
  {
    BodyExcludes(w, g);
    hide Inv, Next, At, Idle;
    if events != [] {
      var n := |events| - 1;
      assert forall e :: e in events[..n] ==> e in events;
      BodyHolds(w, g, events[..n]);
      assert events[n] in events;
      NextKeeps(Run(w, events[..n]), events[n]);
      BodyStep(Run(w, events[..n]), g, events[n]);
      BodyExcludes(Run(w, events), g);
    }
  }

  /** A guard enters its body only by an audit that found the database and every runner directory idle. */
  lemma BodyEntered(w: World, g: Id, e: Event)
    requires !At(w, g, Body) && At(Next(w, e), g, Body)
    ensures e == Audit(g, true) && At(w, g, Writing) && w.db.openAttempts == {} && w.db.workspaceLocks == {}
    ensures Next(w, e).db == w.db
  {}

  /** Whoever is in its body now entered it by such an audit, on the very database that still stands. */
  lemma {:induction false} BodyWasAudited(w: World, g: Id, events: seq<Event>)
    requires Inv(w) && !At(w, g, Body) && At(Run(w, events), g, Body)
    ensures exists n :: 0 <= n < |events| && events[n] == Audit(g, true) && At(Run(w, events[..n]), g, Writing)
                        && Run(w, events[..n]).db == Run(w, events).db
    ensures Run(w, events).db.openAttempts == {} && Run(w, events).db.workspaceLocks == {}
  {
    hide Inv, Next, At, Idle;
    var n := |events| - 1;
    var before := Run(w, events[..n]);
    RunKeepsFrom(w, events[..n]);
    if At(before, g, Body) {
      BodyWasAudited(w, g, events[..n]);
      var k :| 0 <= k < n && events[..n][k] == Audit(g, true) && At(Run(w, events[..n][..k]), g, Writing)
               && Run(w, events[..n][..k]).db == before.db;
      assert events[..n][..k] == events[..k];
      BodyLeft(before, g, events[n]);
    } else {
      BodyEntered(before, g, events[n]);
    }
  }

  /** A caller enters unless its request is known already, leaves answered only when its request is not at work, and another
      process takes the provisioning lock only when it is free and gives back only its own. */
  lemma CallersExactly(w: World, e: Event)
    ensures e.Bypass? ==> Next(w, e) == if e.t !in w.shared && e.t !in w.waiting then w.(waiting := w.waiting[e.t := Direct]) else w
    ensures e.Answer? ==> (e.t in w.tasks && w.tasks[e.t].Working? ==> Next(w, e) == w)
    ensures e.Answer? ==> (e.t !in w.tasks || w.tasks[e.t].Done? ==> Next(w, e) == w.(waiting := w.waiting - {e.t}))
    ensures e.OtherProvisioning? ==> (e.taken ==> Next(w, e) == if w.provisioner.None? then w.(provisioner := Some(0)) else w)
    ensures e.OtherProvisioning? ==> (!e.taken ==> Next(w, e) == if w.provisioner == Some(0) then w.(provisioner := None) else w)
  {}

  /** A guard gets on only by its own calls and only as the kernel, the intent, the database and the files allow. */
  lemma GuardMoves(w: World, e: Event, g: Id)
    requires g in w.guards && g in Next(w, e).guards && Next(w, e).guards[g] != w.guards[g]
    ensures var p, q := w.guards[g], Next(w, e).guards[g];
            || (e == LockExclusive(g) && p.Opened? && q.Exclusive? && w.shared == {} && w.exclusive.None?)
            || (e == VetIntent(g) && p.Exclusive? && q.Vetted? && w.intent == 0)
            || (e == TakeProvisioning(g) && p.Vetted? && q.Provisioning? && w.provisioner.None?)
            || (e == BeginWriter(g) && p.Provisioning? && if w.writer.None? then q.Writing? else q.Unwinding?)
            || (e.Audit? && e.g == g && p.Writing?
                && if e.filesIdle && w.db.openAttempts == {} && w.db.workspaceLocks == {} then q.Body? else q.Leaving?)
            || (e == EndBody(g) && p.Body? && q.Leaving?) || (e == CloseWriter(g) && p.Leaving? && q.Unwinding?)
  {}

  /** A guard ends by a crash, by a refusal before it holds anything but the gate, or at its end, when it has given the
      other two locks back; then it holds nothing. */
  lemma GuardEnds(w: World, e: Event, g: Id)
    requires Inv(w) && g in w.guards && g !in Next(w, e).guards
    ensures || e == GuardCrash(g)
            || (e == LockExclusive(g) && w.guards[g].Opened? && (w.shared != {} || w.exclusive.Some?))
            || (e == VetIntent(g) && w.guards[g].Exclusive? && w.intent > 0)
            || (e == TakeProvisioning(g) && w.guards[g].Vetted? && w.provisioner.Some?)
            || (e == CloseGate(g) && w.guards[g].Unwinding? && w.provisioner != Some(g + 1) && w.writer != Some(g))
    ensures Next(w, e).exclusive != Some(g) && Next(w, e).provisioner != Some(g + 1) && Next(w, e).writer != Some(g)
  {
    if w.guards[g].Unwinding? { UnwindingHoldsNoWriter(w, g); }
    hide Inv, Next;
    OwnEnd(w, e, g);
    HoldsNothing(w, e, g);
  }

  lemma OwnEnd(w: World, e: Event, g: Id)
    requires g in w.guards && g !in Next(w, e).guards
    ensures || e == GuardCrash(g)
            || (e == LockExclusive(g) && w.guards[g].Opened? && (w.shared != {} || w.exclusive.Some?))
            || (e == VetIntent(g) && w.guards[g].Exclusive? && w.intent > 0)
            || (e == TakeProvisioning(g) && w.guards[g].Vetted? && w.provisioner.Some?)
            || (e == CloseGate(g) && w.guards[g].Unwinding? && w.provisioner != Some(g + 1))
  {
    hide Idle;
  }

  lemma HoldsNothing(w: World, e: Event, g: Id)
    requires g in w.guards && g !in Next(w, e).guards
    ensures Next(w, e).exclusive != Some(g) && Next(w, e).provisioner != Some(g + 1) && Next(w, e).writer != Some(g)
  {
    hide Idle, Next;
    OwnEnd(w, e, g);
    assert Next(w, e) == DropGuard(w, g) by { Drops(w, e, g); }
  }

  lemma Drops(w: World, e: Event, g: Id)
    requires g in w.guards && g !in Next(w, e).guards
    requires e == GuardCrash(g) || e == LockExclusive(g) || e == VetIntent(g) || e == TakeProvisioning(g) || e == CloseGate(g)
    ensures Next(w, e) == DropGuard(w, g)
  {
    hide Idle;
  }

  lemma UnwindingHoldsNoWriter(w: World, g: Id)
    requires Inv(w) && At(w, g, Unwinding)
    ensures w.writer != Some(g)
  {}

  lemma BodyLeft(w: World, g: Id, e: Event)
    requires Inv(w) && At(w, g, Body) && At(Next(w, e), g, Body)
    ensures Next(w, e).db == w.db
  {
    hide Idle;
  }

  lemma {:induction false} RunKeepsFrom(w: World, events: seq<Event>)
    requires Inv(w)
    ensures Inv(Run(w, events))
  {
    hide Inv, Next;
    if events != [] {
      RunKeepsFrom(w, events[..|events| - 1]);
      NextKeeps(Run(w, events[..|events| - 1]), events[|events| - 1]);
    }
  }

  lemma TaskStep(w: World, t: Id, e: Event)
    requires Inv(w) && t in w.tasks && e != ReleaseTask(t) && !e.ApiCrash?
    ensures t in Next(w, e).tasks && (w.tasks[t].Done? ==> Next(w, e).tasks[t].Done?)
    ensures w.tasks[t].Working? && e != FinishTask(t) ==> Next(w, e).tasks[t].Working?
  {
    hide Idle;
  }

  lemma SharedExcludes(w: World, t: Id)
    requires Inv(w) && t in w.tasks
    ensures t in w.shared && w.exclusive.None? && forall g :: g in w.guards ==> w.guards[g] == Opened
  {
    hide Idle;
  }

  /** From its admission to its own release a request keeps the gate through every run, whatever becomes of
      its caller and of any other request: its descriptor stays open, no guard gets past opening the gate, and
      while the request is at work nothing but its own end stops it, no cancellation of its caller either:
      every caller of an admitted request waits behind a shield. */
  lemma {:induction false} TaskOwnsGate(w: World, t: Id, events: seq<Event>)
    requires Inv(w) && t in w.tasks && forall e :: e in events ==> e != ReleaseTask(t) && !e.ApiCrash?
    ensures Inv(Run(w, events)) && t in Run(w, events).tasks && t in Run(w, events).shared
    ensures Run(w, events).exclusive.None? && forall g :: g in Run(w, events).guards ==> Run(w, events).guards[g] == Opened
    ensures w.tasks[t].Working? && FinishTask(t) !in events ==> Run(w, events).tasks[t].Working?
  {
    hide Inv, Next;
    if events != [] {
      var n := |events| - 1;
      assert forall e :: e in events[..n] ==> e in events;
      TaskOwnsGate(w, t, events[..n]);
      assert events[n] in events;
      NextKeeps(Run(w, events[..n]), events[n]);
      TaskStep(Run(w, events[..n]), t, events[n]);
    }
    SharedExcludes(Run(w, events), t);
  }

  /** A caller that stays waits on until its request has ended. */
  lemma {:induction false} AnsweredLast(w: World, t: Id, events: seq<Event>)
    requires t in w.tasks && w.tasks[t].Working? && t in w.waiting
    requires forall e :: e in events ==> e != CallerGone(t) && e != FinishTask(t) && !e.ApiCrash?
    ensures t in Run(w, events).waiting && t in Run(w, events).tasks && Run(w, events).tasks[t].Working?
  {
    hide Idle;
    if events != [] {
      var n := |events| - 1;
      assert forall e :: e in events[..n] ==> e in events;
      AnsweredLast(w, t, events[..n]);
      assert events[n] in events;
    }
  }

  // ---------------------------------------------------------------- the intent survives crashes

  predicate PastIntent(p: Guard) { !p.Opened? && !p.Exclusive? }

  lemma IntentStep(w: World, e: Event)
    requires w.intent > 0 && !e.SetIntent?
    ensures Next(w, e).intent == w.intent
    ensures Next(w, e).tasks.Keys <= w.tasks.Keys
    ensures forall g :: g in Next(w, e).guards && PastIntent(Next(w, e).guards[g]) ==> g in w.guards && PastIntent(w.guards[g])
  {
    hide Idle;
  }

  /** A non-empty intent fails closed: until it is cleared no request starts to work and no guard passes
      its check, across every crash and restart. */
  lemma {:induction false} IntentFailsClosed(w: World, events: seq<Event>)
    requires w.intent > 0 && forall e :: e in events ==> !e.SetIntent?
    ensures Run(w, events).intent == w.intent
    ensures Run(w, events).tasks.Keys <= w.tasks.Keys
    ensures forall g :: g in Run(w, events).guards && PastIntent(Run(w, events).guards[g]) ==> g in w.guards && PastIntent(w.guards[g])
  {
    hide Next, PastIntent;
    if events != [] {
      var n := |events| - 1;
      assert forall e :: e in events[..n] ==> e in events;
      IntentFailsClosed(w, events[..n]);
      assert events[n] in events;
      IntentStep(Run(w, events[..n]), events[n]);
    }
  }

  // ---------------------------------------------------------------- draining

  /** The tracked tasks after n rounds of waiting, and all that was waited for; arrivals are the tasks that
      begin to be tracked while a round waits. */
  function Rounds(active: set<Id>, arrivals: nat -> set<Id>, n: nat): (set<Id>, set<Id>) {
    if n == 0 then (active, {}) else
    var (left, waited) := Rounds(active, arrivals, n - 1);
    (arrivals(n - 1) - (waited + left), waited + left)
  }

  /** After any number of rounds nothing tracked so far was forgotten, ended or not. */
  lemma {:induction false} RoundsCover(active: set<Id>, arrivals: nat -> set<Id>, n: nat)
    ensures var (left, waited) := Rounds(active, arrivals, n);
            active <= waited + left && forall k: nat :: k < n ==> arrivals(k) <= waited + left
  {
    if n > 0 { RoundsCover(active, arrivals, n - 1); }
  }

  class Gate {
    var active: set<Id>

    /** Wait for the tracked tasks, over and over, until none is left: it ends at the first round after which
        nothing is tracked, if there is one, and by then everything that was ever tracked was waited for. */
    method Drain(arrivals: nat -> set<Id>, ghost ending: nat) returns (rounds: nat, waited: set<Id>)
      requires Rounds(active, arrivals, ending).0 == {}
      modifies this
      ensures active == {} && Rounds(old(active), arrivals, rounds) == ({}, waited)
      ensures forall n: nat :: n < rounds ==> Rounds(old(active), arrivals, n).0 != {}
      ensures old(active) <= waited && forall n: nat :: n < rounds ==> arrivals(n) <= waited
    {
      rounds, waited := 0, {};
      while active != {}
        invariant Rounds(old(active), arrivals, rounds) == (active, waited) && rounds <= ending
        invariant forall n: nat :: n < rounds ==> Rounds(old(active), arrivals, n).0 != {}
        decreases ending - rounds
      {
        waited := waited + active;
        active := arrivals(rounds) - waited;
        rounds := rounds + 1;
      }
      RoundsCover(old(active), arrivals, rounds);
    }
  }

  // ---------------------------------------------------------------- the audit

  datatype Identity = Identity(pid: nat, start: nat, boot: nat)

  /** A runner directory: the PID its attempt recorded, whether an attempt recorded it at all, its PID file,
      and its identity file (absent, unreadable, or an identity). */
  datatype Evidence = Absent | Unreadable | Readable(id: Identity)
  datatype Directory = Directory(recordedPid: Option<nat>, recorded: bool, pidFile: Option<Option<nat>>, identity: Evidence)

  /** The PID that the files agree on, or nothing when they do not. */
  function AgreedPid(d: Directory): Result<Option<nat>, string> {
    if d.pidFile.None? then Ok(d.recordedPid)
    else if d.pidFile.value.None? then Err("unverifiable")
    else if d.recordedPid.Some? && d.recordedPid != d.pidFile.value then Err("inconsistent")
    else Ok(d.pidFile.value)
  }

  predicate NeverStarted(d: Directory) {
    AgreedPid(d).Ok? && (AgreedPid(d).value.None? || AgreedPid(d).value == Some(0)) && d.identity.Absent? && d.recorded
  }

  /** No runner of this directory can be alive: it never started, or its whole identity is known and is not
      the identity of a live process. */
  predicate Quiet(d: Directory, live: map<nat, nat>, boot: nat) {
    || NeverStarted(d)
    || (AgreedPid(d).Ok? && d.identity.Readable? && d.identity.id.pid > 0
        && (AgreedPid(d).value.None? || AgreedPid(d).value == Some(d.identity.id.pid))
        && !(d.identity.id.pid in live && d.identity.id == Identity(d.identity.id.pid, live[d.identity.id.pid], boot)))
  }

  /** The files of a directory say one thing: a readable PID file, if there is one, with the recorded PID, if any. */
  predicate FilesAgree(d: Directory) {
    d.pidFile.Some? ==> d.pidFile.value.Some? && (d.recordedPid.Some? ==> d.recordedPid == d.pidFile.value)
  }

  /** What a quiet directory is, over its plain fields. */
  lemma QuietExactly(d: Directory, live: map<nat, nat>, boot: nat)
    ensures var pid := if d.pidFile.Some? then d.pidFile.value else d.recordedPid;
            Quiet(d, live, boot) <==>
              FilesAgree(d)
              && (((pid.None? || pid == Some(0)) && d.identity.Absent? && d.recorded)
                  || (d.identity.Readable? && d.identity.id.pid > 0 && (pid.None? || pid.value == d.identity.id.pid)
                      && !(d.identity.id.pid in live && live[d.identity.id.pid] == d.identity.id.start && d.identity.id.boot == boot)))
  {}

  /** No process that is alive under an identity written in a quiet directory, and none whose identity cannot be
      read, can escape the audit. */
  lemma LiveIsNotQuiet(d: Directory, live: map<nat, nat>, boot: nat)
    ensures d.identity.Unreadable? || !FilesAgree(d) ==> !Quiet(d, live, boot)
    ensures d.identity.Readable? && d.identity.id.pid in live && d.identity.id == Identity(d.identity.id.pid, live[d.identity.id.pid], boot)
      ==> !Quiet(d, live, boot)
  {}

  /** The idle audit: no open attempt, no workspace lock, and every runner directory is quiet. */
  method AssertIdle(db: Db, directories: seq<Directory>, live: map<nat, nat>, boot: nat) returns (idle: bool)
    ensures idle <==> db.openAttempts == {} && db.workspaceLocks == {} && forall d :: d in directories ==> Quiet(d, live, boot)
  {
    if db.openAttempts != {} || db.workspaceLocks != {} { return false; }
    for i := 0 to |directories|
      invariant forall k :: 0 <= k < i ==> Quiet(directories[k], live, boot)
    {
      var d := directories[i];
      assert d in directories;
      var pid := AgreedPid(d);
      if pid.Err? { return false; }
      if !((pid.value.None? || pid.value == Some(0)) && d.identity.Absent? && d.recorded) {
        if !d.identity.Readable? || d.identity.id.pid == 0 { return false; }
        if pid.value.Some? && pid.value != Some(d.identity.id.pid) { return false; }
        var p := d.identity.id.pid;
        if p in live && d.identity.id == Identity(p, live[p], boot) { return false; }
      }
    }
    return true;
  }
}
