/** The turns of a dispatch as steps of the protocol, and what each turn and a whole dispatch come to. */
module SnapshotTurns {
  import opened Wrappers
  import opened SnapshotModel
  import opened SnapshotSafety
  import opened SnapshotSteps
  import opened SnapshotTheorems

  /** A step some other actor takes; the provisioning lock keeps other dispatchers out. */
  predicate Elsewhere(l: Label) { !l.LIntend? && !l.LIssue? && !l.LConclude? && !l.LCrash? }

  predicate AllElsewhere(labels: seq<Label>) { forall i :: 0 <= i < |labels| ==> Elsewhere(labels[i]) }

  /** What one turn of the member loop meets: the others' steps, the guard's answer, whether the
      write left the process, the reply, and whether the process dies first. */
  datatype Turn = Turn(others: seq<Label>, guard: bool, sent: bool, during: seq<Label>, dies: bool, answer: Answer)

  lemma {:induction false} RunAppend(w: World, xs: seq<Label>, ys: seq<Label>)
    ensures Run(w, xs + ys) == Run(Run(w, xs), ys)
    decreases |xs|
  {
    if xs == [] {
      assert xs + ys == ys;
    } else {
      assert (xs + ys)[1..] == xs[1..] + ys;
      RunAppend(Step(w, xs[0]), xs[1..], ys);
    }
  }

  lemma RunSnoc(w: World, xs: seq<Label>, l: Label)
    ensures Run(w, xs + [l]) == Step(Run(w, xs), l)
  {
    RunAppend(w, xs, [l]);
    assert [l][1..] == [];
  }

  /** While a dispatcher is at work nobody else dispatches, and nobody else writes. */
  lemma {:induction false} ForeignFrame(w: World, others: seq<Label>)
    requires w.dispatcher.Some? && AllElsewhere(others)
    ensures Run(w, others).dispatcher == w.dispatcher && Run(w, others).issued == w.issued
    decreases |others|
  {
    if others != [] {
      ForeignStep(w, others[0]);
      ForeignFrame(Step(w, others[0]), others[1..]);
    }
  }

  lemma ForeignStep(w: World, l: Label)
    requires w.dispatcher.Some? && Elsewhere(l)
    ensures Step(w, l).dispatcher == w.dispatcher && Step(w, l).issued == w.issued
  {
    if l.LEnvironment? { HappenFrame(w, l.change); }
  }

  // ---------------------------------------------------------------- the steps of a run of the loop

  /** Up to the committed intent, or the commit that gives up. */
  function Opening(t: Turn): seq<Label> { t.others + [LIntend(t.guard)] }

  /** From the intent on: the write, if it leaves, and then the end of the process or the committed answer. */
  function Closing(t: Turn): seq<Label> {
    t.during + (if t.sent then [LIssue] else []) + [if t.dies then LCrash else LConclude(if t.sent then t.answer else Lost)]
  }

  function TurnLabels(w: World, t: Turn): seq<Label> {
    Opening(t) + (if Run(w, Opening(t)).dispatcher.Some? then Closing(t) else [])
  }

  /** Turn after turn while the dispatch lasts; with no turn left the process ends in the middle. */
  function LoopLabels(w: World, turns: seq<Turn>): seq<Label>
    decreases |turns|
  {
    if w.dispatcher.None? then []
    else if turns == [] then [LCrash]
    else TurnLabels(w, turns[0]) + LoopLabels(Run(w, TurnLabels(w, turns[0])), turns[1..])
  }

  // ---------------------------------------------------------------- what one turn comes to

  /** The dispatcher stands before member index of this operation. */
  ghost predicate Standing(w: World, op: Id, index: nat) {
    Inv(w) && w.dispatcher == Some(Dispatcher(op, index, Ready))
  }

  lemma StandingMeans(w: World, op: Id, index: nat)
    requires Standing(w, op, index)
    ensures op in w.db.ops && index < |w.db.ops[op].rows| && w.db.ops[op].state.Running? && w.db.ops[op].plan.set_ in w.db.sets
    ensures forall j :: index <= j < |w.db.ops[op].rows| ==> w.db.ops[op].rows[j].state.Planned?
    ensures forall j: nat :: j >= index ==> w.issued[(op, j)] == 0
  {
    assert Linked(w.db, w.db.ops[op]);
    forall j: nat | j >= index ensures w.issued[(op, j)] == 0 { if (op, j) in w.issued { } }
  }

  /** While it is dispatched, nobody else changes the operation. */
  lemma {:induction false} ForeignKeepsOp(w: World, others: seq<Label>, op: Id)
    requires w.dispatcher.Some? && AllElsewhere(others) && op in w.db.ops && !w.db.ops[op].state.OpPlanned?
    ensures op in Run(w, others).db.ops && Run(w, others).db.ops[op] == w.db.ops[op]
    decreases |others|
  {
    if others != [] {
      ForeignStep(w, others[0]);
      ForeignStepKeepsOp(w, others[0], op);
      hide Step, Elsewhere;
      ForeignKeepsOp(Step(w, others[0]), others[1..], op);
    }
  }

  lemma ForeignStepKeepsOp(w: World, l: Label, op: Id)
    requires w.dispatcher.Some? && Elsewhere(l) && op in w.db.ops && !w.db.ops[op].state.OpPlanned?
    ensures op in Step(w, l).db.ops && Step(w, l).db.ops[op] == w.db.ops[op]
  {
    if l.LEnvironment? { HappenFrame(w, l.change); }
  }

  /** The deployment or the host is no longer the one the set was made for. */
  predicate TargetChanged(db: Db, s: SnapshotSet) {
    || s.deployment !in db.deployments || db.deployments[s.deployment].sha != s.sha
    || db.deployments[s.deployment].hostId != s.host.id || s.host.id !in db.hosts || db.hosts[s.host.id] != s.host
  }

  /** At its turn the member may not be written: the guard failed or the target changed meanwhile. */
  ghost predicate Refuses(w: World, op: Id, t: Turn) {
    var db := Run(w, t.others).db;
    !t.guard || (op in db.ops && db.ops[op].plan.set_ in db.sets && TargetChanged(db, db.sets[db.ops[op].plan.set_]))
  }

  /** From this row on nothing was started; the rows before it and the rest of the operation are as they were. */
  ghost predicate StoppedFrom(o: Operation, o': Operation, index: nat) {
    && o' == o.(rows := o'.rows) && |o'.rows| == |o.rows|
    && (forall j :: 0 <= j < |o.rows| && j < index ==> o'.rows[j] == o.rows[j])
    && forall j :: index <= j < |o.rows| ==> o'.rows[j] == o.rows[j].(state := NotStarted)
  }

  lemma AfterOthers(w: World, op: Id, index: nat, others: seq<Label>)
    requires Standing(w, op, index) && AllElsewhere(others)
    ensures Standing(Run(w, others), op, index) && Run(w, others).issued == w.issued
    ensures op in w.db.ops && op in Run(w, others).db.ops && Run(w, others).db.ops[op] == w.db.ops[op]
  {
    hide Inv, Run;
    StandingMeans(w, op, index);
    RunKeeps(w, others);
    ForeignFrame(w, others);
    ForeignKeepsOp(w, others, op);
  }

  lemma GivesUp(w: World, op: Id, index: nat, guard: bool)
    requires Standing(w, op, index) && op in w.db.ops && w.db.ops[op].plan.set_ in w.db.sets
    requires !guard || TargetChanged(w.db, w.db.sets[w.db.ops[op].plan.set_])
    ensures var w' := Step(w, LIntend(guard));
            && w'.dispatcher.None? && w'.issued == w.issued && op in w'.db.ops && StoppedFrom(w.db.ops[op], w'.db.ops[op], index)
  {
    StandingMeans(w, op, index);
    hide Inv;
    var o := w.db.ops[op];
    Abandons(o, index);
    assert Step(w, LIntend(guard)) == PutOp(w, op, o.(rows := Abandon(o.rows, index)), None);
    hide *;
  }

  lemma Abandons(o: Operation, index: nat)
    requires index <= |o.rows|
    ensures StoppedFrom(o, o.(rows := Abandon(o.rows, index)), index)
  {}

  /** A turn that refuses its member stops the dispatch: this member and all later ones are marked not
      started, and nothing is sent. */
  lemma TurnRefused(w: World, op: Id, index: nat, t: Turn)
    requires Standing(w, op, index) && AllElsewhere(t.others) && Refuses(w, op, t)
    ensures var w' := Run(w, TurnLabels(w, t));
            && w'.dispatcher.None? && w'.issued == w.issued
            && op in w.db.ops && op in w'.db.ops && StoppedFrom(w.db.ops[op], w'.db.ops[op], index)
  {
    hide Inv, Run, Step, StoppedFrom, TargetChanged;
    AfterOthers(w, op, index, t.others);
    StandingMeans(Run(w, t.others), op, index);
    GivesUp(Run(w, t.others), op, index, t.guard);
    RunSnoc(w, t.others, LIntend(t.guard));
    assert Opening(t) + [] == Opening(t);
  }

  lemma Intends(w: World, op: Id, index: nat)
    requires Standing(w, op, index) && op in w.db.ops && w.db.ops[op].plan.set_ in w.db.sets
    requires !TargetChanged(w.db, w.db.sets[w.db.ops[op].plan.set_])
    ensures var w' := Step(w, LIntend(true));
            && w'.dispatcher == Some(Dispatcher(op, index, Intended)) && w'.issued == w.issued
            && op in w'.db.ops && index < |w.db.ops[op].rows|
            && w'.db.ops[op] == w.db.ops[op].(rows := w.db.ops[op].rows[index := w.db.ops[op].rows[index].(state := RowState.Dispatching)])
  {
    StandingMeans(w, op, index);
    hide Inv;
  }

  /** A reply that names a task of this very member: its node, its guest and the operation's own worker. */
  predicate NamesMember(a: Answer, plan: Plan, vm: nat) {
    a.Reply? && a.upid.Task? && a.upid.node == plan.host.node && a.upid.vm == vm && a.upid.worker == plan.kind
  }

  /** How an operation stands after its member index was written, or may have been. */
  ghost predicate Outcome(w: World, w': World, op: Id, index: nat, t: Turn)
    requires op in w.db.ops && index < |w.db.ops[op].rows|
  {
    var o := w.db.ops[op];
    op in w'.db.ops && var o' := w'.db.ops[op];
    && w'.issued == w.issued + (if t.sent then multiset{(op, index)} else multiset{})
    && o' == o.(rows := o'.rows, state := o'.state) && |o'.rows| == |o.rows|
    && (forall j :: 0 <= j < index ==> o'.rows[j] == o.rows[j])
    && if t.dies then
         w'.dispatcher.None? && o'.state == o.state && o'.rows[index] == o.rows[index].(state := RowState.Dispatching)
         && forall j :: index < j < |o.rows| ==> o'.rows[j] == o.rows[j]
       else if t.sent && NamesMember(t.answer, o.plan, o.rows[index].vm) then
         && w'.dispatcher == (if index + 1 < |o.rows| then Some(Dispatcher(op, index + 1, Ready)) else None)
         && o'.state == o.state && o'.rows[index] == o.rows[index].(state := Accepted, upid := Some(t.answer.upid))
         && forall j :: index < j < |o.rows| ==> o'.rows[j] == o.rows[j]
       else
         && w'.dispatcher.None? && o'.state.NeedsReview? && o'.rows[index] == o.rows[index].(state := Unconfirmed)
         && (forall j :: index < j < |o.rows| ==> o'.rows[j] == o.rows[j].(state := NotStarted))
         && o.plan.set_ in w'.db.sets && w'.db.sets[o.plan.set_].state.SetReview?
  }

  /** From the committed intent on, with others moving before the write. */
  lemma ClosingOutcome(w: World, w2: World, op: Id, index: nat, t: Turn)
    requires Inv(w2) && AllElsewhere(t.during) && w2.dispatcher == Some(Dispatcher(op, index, Intended)) && w2.issued == w.issued
    requires op in w.db.ops && op in w2.db.ops && index < |w.db.ops[op].rows| && w.db.ops[op].state.Running?
    requires w2.db.ops[op] == w.db.ops[op].(rows := w.db.ops[op].rows[index := w.db.ops[op].rows[index].(state := RowState.Dispatching)])
    ensures Outcome(w, Run(w2, Closing(t)), op, index, t)
  {
    hide Inv, Run, Step, Outcome, Elsewhere;
    ForeignFrame(w2, t.during);
    ForeignKeepsOp(w2, t.during, op);
    RunKeeps(w2, t.during);
    var w3 := Run(w2, t.during);
    var done := t.during + if t.sent then [LIssue] else [];
    if t.sent { RunSnoc(w2, t.during, LIssue); } else { assert t.during + [] == t.during; }
    var last := if t.dies then LCrash else LConclude(if t.sent then t.answer else Lost);
    RunSnoc(w2, done, last);
    assert Closing(t) == done + [last];
    Settles(w, w3, op, index, t);
  }

  lemma Settles(w: World, w3: World, op: Id, index: nat, t: Turn)
    requires Inv(w3) && w3.dispatcher == Some(Dispatcher(op, index, Intended)) && w3.issued == w.issued
    requires op in w.db.ops && op in w3.db.ops && index < |w.db.ops[op].rows|
    requires w3.db.ops[op] == w.db.ops[op].(rows := w.db.ops[op].rows[index := w.db.ops[op].rows[index].(state := RowState.Dispatching)])
    ensures var w4 := if t.sent then Step(w3, LIssue) else w3;
            Outcome(w, Step(w4, if t.dies then LCrash else LConclude(if t.sent then t.answer else Lost)), op, index, t)
  {
    assert Linked(w3.db, w3.db.ops[op]);
    hide Inv;
    var w4 := if t.sent then Step(w3, LIssue) else w3;
    assert w4.db == w3.db && w4.issued == w.issued + if t.sent then multiset{(op, index)} else multiset{};
    assert w4.dispatcher == Some(Dispatcher(op, index, if t.sent then Sent else Intended));
    hide Issue;
    if t.dies { DiesThere(w, w4, op, index, t); } else { Answers(w, w4, op, index, t); }
  }

  lemma DiesThere(w: World, w4: World, op: Id, index: nat, t: Turn)
    requires t.dies && op in w.db.ops && op in w4.db.ops && index < |w.db.ops[op].rows|
    requires w4.db.ops[op] == w.db.ops[op].(rows := w.db.ops[op].rows[index := w.db.ops[op].rows[index].(state := RowState.Dispatching)])
    requires w4.issued == w.issued + if t.sent then multiset{(op, index)} else multiset{}
    ensures Outcome(w, Step(w4, LCrash), op, index, t)
  {}

  lemma Answers(w: World, w4: World, op: Id, index: nat, t: Turn)
    requires !t.dies && op in w.db.ops && op in w4.db.ops && index < |w.db.ops[op].rows|
    requires w4.db.ops[op] == w.db.ops[op].(rows := w.db.ops[op].rows[index := w.db.ops[op].rows[index].(state := RowState.Dispatching)])
    requires w4.dispatcher == Some(Dispatcher(op, index, if t.sent then Sent else Intended))
    requires w4.issued == w.issued + if t.sent then multiset{(op, index)} else multiset{}
    requires w4.db.ops[op].plan.set_ in w4.db.sets
    ensures Outcome(w, Step(w4, LConclude(if t.sent then t.answer else Lost)), op, index, t)
  {
    var o := w.db.ops[op];
    var a := if t.sent then t.answer else Lost;
    var w' := Step(w4, LConclude(a));
    assert w' == Conclude(w4, a);
    var row := w4.db.ops[op].rows[index];
    if t.sent && NamesMember(t.answer, o.plan, o.rows[index].vm) {
      AcceptsReply(w4, op, index, t.answer.upid);
    } else {
      DoubtsReply(w4, op, index, a);
    }
    hide Step, Conclude, NamesMember;
  }

  lemma AcceptsReply(w: World, op: Id, index: nat, upid: Upid)
    requires op in w.db.ops && index < |w.db.ops[op].rows| && w.db.ops[op].plan.set_ in w.db.sets
    requires w.dispatcher == Some(Dispatcher(op, index, Sent))
    requires NamesMember(Reply(upid), w.db.ops[op].plan, w.db.ops[op].rows[index].vm)
    ensures var o := w.db.ops[op];
            Conclude(w, Reply(upid)) ==
              PutOp(w, op, o.(rows := o.rows[index := o.rows[index].(state := Accepted, upid := Some(upid))]),
                    if index + 1 < |o.rows| then Some(Dispatcher(op, index + 1, Ready)) else None)
  {}

  lemma DoubtsReply(w: World, op: Id, index: nat, a: Answer)
    requires op in w.db.ops && index < |w.db.ops[op].rows| && w.db.ops[op].plan.set_ in w.db.sets
    requires w.dispatcher.Some? && w.dispatcher.value.op == op && w.dispatcher.value.index == index && !w.dispatcher.value.phase.Ready?
    requires a.Reply? ==> w.dispatcher.value.phase.Sent? && !NamesMember(a, w.db.ops[op].plan, w.db.ops[op].rows[index].vm)
    ensures var o, w' := w.db.ops[op], Conclude(w, a);
            && w'.dispatcher.None? && w'.issued == w.issued && op in w'.db.ops
            && w'.db.ops[op] == o.(rows := w'.db.ops[op].rows, state := NeedsReview) && |w'.db.ops[op].rows| == |o.rows|
            && (forall j :: 0 <= j < index ==> w'.db.ops[op].rows[j] == o.rows[j])
            && w'.db.ops[op].rows[index] == o.rows[index].(state := Unconfirmed)
            && (forall j :: index < j < |o.rows| ==> w'.db.ops[op].rows[j] == o.rows[j].(state := NotStarted))
            && o.plan.set_ in w'.db.sets && w'.db.sets[o.plan.set_].state.SetReview?
  {}

  /** A turn that does not refuse its member commits the intent; what follows is decided by the write, the
      death of the process and the reply alone. */
  lemma TurnTaken(w: World, op: Id, index: nat, t: Turn)
    requires Standing(w, op, index) && AllElsewhere(t.others) && AllElsewhere(t.during) && !Refuses(w, op, t)
    ensures op in w.db.ops && index < |w.db.ops[op].rows|
    ensures Outcome(w, Run(w, TurnLabels(w, t)), op, index, t)
  {
    hide Inv, Run, Step, Outcome, TargetChanged, Elsewhere;
    var w1 := Run(w, t.others);
    StandingMeans(w, op, index);
    AfterOthers(w, op, index, t.others);
    StandingMeans(w1, op, index);
    Intends(w1, op, index);
    RunSnoc(w, t.others, LIntend(true));
    RunKeeps(w, Opening(t));
    RunAppend(w, Opening(t), Closing(t));
    ClosingOutcome(w, Run(w, Opening(t)), op, index, t);
  }

  // ---------------------------------------------------------------- what a whole dispatch comes to

  /** The dispatch is still going on after its first i turns. */
  ghost predicate Reached(w: World, turns: seq<Turn>, i: nat)
    decreases i
  {
    w.dispatcher.Some? && (i > 0 ==> turns != [] && Reached(Run(w, TurnLabels(w, turns[0])), turns[1..], i - 1))
  }

  ghost function Turned(w: World, turns: seq<Turn>, i: nat): World
    requires i <= |turns|
    decreases i
  {
    if i == 0 then w else Turned(Run(w, TurnLabels(w, turns[0])), turns[1..], i - 1)
  }

  ghost predicate Quiet(turns: seq<Turn>) {
    forall i :: 0 <= i < |turns| ==> AllElsewhere(turns[i].others) && AllElsewhere(turns[i].during)
  }

  /** After one turn the dispatch is over, with at most this member written, or stands before the next. */
  lemma OneTurn(w: World, op: Id, index: nat, t: Turn)
    requires Standing(w, op, index) && AllElsewhere(t.others) && AllElsewhere(t.during)
    ensures var w' := Run(w, TurnLabels(w, t));
            && Inv(w') && (forall j: nat :: j > index ==> w'.issued[(op, j)] == 0)
            && (w'.dispatcher.None? || Standing(w', op, index + 1))
            && (Refuses(w, op, t) ==> w'.dispatcher.None? && w'.issued[(op, index)] == 0)
            && op in w.db.ops && op in w'.db.ops && |w'.db.ops[op].rows| == |w.db.ops[op].rows|
  {
    hide Inv, Run, TurnLabels, Refuses;
    StandingMeans(w, op, index);
    RunKeeps(w, TurnLabels(w, t));
    if Refuses(w, op, t) { TurnRefused(w, op, index, t); } else { TurnTaken(w, op, index, t); }
  }

  lemma EmptyLoop(w: World)
    ensures w.dispatcher.None? ==> forall turns :: Run(w, LoopLabels(w, turns)) == w
    ensures Run(w, LoopLabels(w, [])).issued == w.issued && Run(w, LoopLabels(w, [])).dispatcher.None?
  {
    assert [LCrash][1..] == [];
  }

  /** If the dispatch does not reach turn i, or turn i refuses its member, then neither that member nor any
      later one is written. */
  lemma {:induction false} NothingFrom(w: World, op: Id, index: nat, turns: seq<Turn>, i: nat)
    requires Standing(w, op, index) && Quiet(turns) && i < |turns|
    requires Reached(w, turns, i) ==> Refuses(Turned(w, turns, i), op, turns[i])
    ensures forall j: nat :: j >= index + i ==> Run(w, LoopLabels(w, turns)).issued[(op, j)] == 0
    decreases i
  {
    hide Inv, Run, TurnLabels, Refuses, LoopLabels;
    assert AllElsewhere(turns[0].others) && AllElsewhere(turns[0].during);
    OneTurn(w, op, index, turns[0]);
    LoopSteps(w, turns);
    var w' := Run(w, TurnLabels(w, turns[0]));
    if w'.dispatcher.None? {
      EmptyLoop(w');
    } else {
      assert forall k :: 0 <= k < |turns| - 1 ==> turns[1..][k] == turns[k + 1];
      NothingFrom(w', op, index + 1, turns[1..], i - 1);
    }
  }

  /** A dispatch that reaches a turn which refuses its member ends there: this row and every later one are
      not started and were never written. */
  lemma {:induction false} StopsAt(w: World, op: Id, index: nat, turns: seq<Turn>, i: nat)
    requires Standing(w, op, index) && Quiet(turns) && i < |turns|
    requires Reached(w, turns, i) && Refuses(Turned(w, turns, i), op, turns[i])
    ensures var w' := Run(w, LoopLabels(w, turns));
            && w'.dispatcher.None? && op in w'.db.ops && op in w.db.ops && |w'.db.ops[op].rows| == |w.db.ops[op].rows|
            && (forall j :: index + i <= j < |w'.db.ops[op].rows| ==> w'.db.ops[op].rows[j].state.NotStarted?)
            && forall j: nat :: j >= index + i ==> w'.issued[(op, j)] == 0
    decreases i
  {
    hide Inv, Run, TurnLabels, Refuses, LoopLabels;
    assert AllElsewhere(turns[0].others) && AllElsewhere(turns[0].during);
    NothingFrom(w, op, index, turns, i);
    OneTurn(w, op, index, turns[0]);
    LoopSteps(w, turns);
    var w' := Run(w, TurnLabels(w, turns[0]));
    if i == 0 {
      TurnRefused(w, op, index, turns[0]);
      EmptyLoop(w');
    } else {
      assert forall k :: 0 <= k < |turns| - 1 ==> turns[1..][k] == turns[k + 1];
      StopsAt(w', op, index + 1, turns[1..], i - 1);
    }
  }

  /** Where a dispatch stops: no member from a failed guard on is written; and if the dispatch comes to a turn
      that refuses its member, that row and all later ones are not started. */
  ghost predicate Stops(w: World, w': World, op: Id, turns: seq<Turn>) {
    && (forall i: nat, j: nat :: i < |turns| && !turns[i].guard && j >= i ==> w'.issued[(op, j)] == 0)
    && forall i :: 0 <= i < |turns| && Reached(w, turns, i) && Refuses(Turned(w, turns, i), op, turns[i]) ==>
         op in w'.db.ops && forall j :: i <= j < |w'.db.ops[op].rows| ==>
           w'.db.ops[op].rows[j].state.NotStarted? && w'.issued[(op, j)] == 0
  }

  lemma DispatchStops(w: World, op: Id, turns: seq<Turn>)
    requires Standing(w, op, 0) && Quiet(turns)
    ensures Stops(w, Run(w, LoopLabels(w, turns)), op, turns)
  {
    hide Inv, Run, LoopLabels, Reached, Turned, Standing, Quiet;
    var w' := Run(w, LoopLabels(w, turns));
    forall i: nat, j: nat | i < |turns| && !turns[i].guard && j >= i ensures w'.issued[(op, j)] == 0 {
      NothingFrom(w, op, 0, turns, i);
    }
    forall i | 0 <= i < |turns| && Reached(w, turns, i) && Refuses(Turned(w, turns, i), op, turns[i])
      ensures op in w'.db.ops && forall j :: i <= j < |w'.db.ops[op].rows| ==>
                w'.db.ops[op].rows[j].state.NotStarted? && w'.issued[(op, j)] == 0
    {
      StopsAt(w, op, 0, turns, i);
    }
  }

  // ---------------------------------------------------------------- an undisturbed dispatch

  /** A turn in which nothing interferes and the write is answered with this task. */
  function Smooth(upid: Upid): Turn { Turn([], true, true, [], false, Reply(upid)) }

  function AllSmooth(upids: seq<Upid>): seq<Turn> { seq(|upids|, i requires 0 <= i < |upids| => Smooth(upids[i])) }

  /** The dispatcher stands before member index of an operation that is still bound to its target. */
  ghost predicate Before(w: World, op: Id, index: nat) {
    && Inv(w) && w.dispatcher == Some(Dispatcher(op, index, Ready))
    && op in w.db.ops && index < |w.db.ops[op].rows|
    && w.db.ops[op].plan.set_ in w.db.sets && Bound(w.db, w.db.sets[w.db.ops[op].plan.set_])
  }

  /** The world with member index accepted under this task. */
  function AcceptedAt(w: World, op: Id, index: nat, upid: Upid): World
    requires op in w.db.ops && index < |w.db.ops[op].rows|
  {
    var o := w.db.ops[op];
    PutOp(w, op, o.(rows := o.rows[index := o.rows[index].(state := Accepted, upid := Some(upid))]),
          if index + 1 < |o.rows| then Some(Dispatcher(op, index + 1, Ready)) else None)
      .(issued := w.issued + multiset{(op, index)})
  }

  lemma ThreeSteps(w: World, a: Label, b: Label, c: Label)
    ensures Run(w, [a, b, c]) == Step(Step(Step(w, a), b), c)
  {
    hide Step;
    assert [a, b, c][1..] == [b, c] && [b, c][1..] == [c] && [c][1..] == [];
    var w1 := Step(w, a);
    assert Run(w, [a, b, c]) == Run(w1, [b, c]);
    assert Run(w1, [b, c]) == Run(Step(w1, b), [c]);
  }

  lemma OneStep(w: World, a: Label)
    ensures Run(w, [a]) == Step(w, a)
  {
    hide Step;
    assert [a][1..] == [];
  }

  lemma SmoothSteps(w: World, op: Id, index: nat, upid: Upid)
    requires Before(w, op, index)
    requires ValidTask(Some(upid), w.db.ops[op].plan.host.node, w.db.ops[op].rows[index].vm, w.db.ops[op].plan.kind)
    ensures Step(w, LIntend(true)).dispatcher.Some?
    ensures Step(Step(Step(w, LIntend(true)), LIssue), LConclude(Reply(upid))) == AcceptedAt(w, op, index, upid)
  {
    hide Inv;
    var o := w.db.ops[op];
    var rows := o.rows[index := o.rows[index].(state := RowState.Dispatching)];
    var w1 := Step(w, LIntend(true));
    assert w1 == PutOp(w, op, o.(rows := rows), Some(Dispatcher(op, index, Intended)));
    var accepted := o.rows[index].(state := Accepted, upid := Some(upid));
    assert rows[index := accepted] == o.rows[index := accepted];
    assert w.db.ops[op := o.(rows := rows)][op := o.(rows := rows[index := accepted])] == w.db.ops[op := o.(rows := rows[index := accepted])];
  }

  lemma SmoothTurn(w: World, op: Id, index: nat, upid: Upid)
    requires Before(w, op, index)
    requires ValidTask(Some(upid), w.db.ops[op].plan.host.node, w.db.ops[op].rows[index].vm, w.db.ops[op].plan.kind)
    ensures TurnLabels(w, Smooth(upid)) == [LIntend(true), LIssue, LConclude(Reply(upid))]
    ensures Run(w, TurnLabels(w, Smooth(upid))) == AcceptedAt(w, op, index, upid)
  {
    hide Step, Inv, Run, Bound;
    SmoothSteps(w, op, index, upid);
    var t := Smooth(upid);
    assert Opening(t) == [LIntend(true)];
    OneStep(w, LIntend(true));
    assert Closing(t) == [LIssue, LConclude(Reply(upid))];
    assert Opening(t) + Closing(t) == [LIntend(true), LIssue, LConclude(Reply(upid))];
    ThreeSteps(w, LIntend(true), LIssue, LConclude(Reply(upid)));
  }

  /** Where the dispatcher stands after an undisturbed turn. */
  lemma SmoothNext(w: World, op: Id, index: nat, upid: Upid)
    requires Before(w, op, index)
    requires ValidTask(Some(upid), w.db.ops[op].plan.host.node, w.db.ops[op].rows[index].vm, w.db.ops[op].plan.kind)
    ensures var w1 := AcceptedAt(w, op, index, upid);
            Inv(w1) && if index + 1 < |w.db.ops[op].rows| then Before(w1, op, index + 1) else w1.dispatcher.None?
  {
    SmoothTurn(w, op, index, upid);
    RunKeeps(w, TurnLabels(w, Smooth(upid)));
    hide Inv, Run, TurnLabels;
  }

  /** The operation's rows from this index on are accepted under these tasks and were written once; nothing
      else of the operation changed. */
  ghost predicate Submitted(w: World, w': World, op: Id, index: nat, upids: seq<Upid>)
    requires op in w.db.ops && index + |upids| == |w.db.ops[op].rows|
  {
    && op in w'.db.ops && |w'.db.ops[op].rows| == |w.db.ops[op].rows|
    && w'.db.ops[op] == w.db.ops[op].(rows := w'.db.ops[op].rows)
    && (forall i :: 0 <= i < index ==> w'.db.ops[op].rows[i] == w.db.ops[op].rows[i])
    && (forall i :: index <= i < |w.db.ops[op].rows| ==>
          w'.db.ops[op].rows[i] == w.db.ops[op].rows[i].(state := Accepted, upid := Some(upids[i - index])))
    && (forall i :: 0 <= i < |w.db.ops[op].rows| ==> w'.issued[(op, i)] == w.issued[(op, i)] + if i < index then 0 else 1)
  }

  lemma SubmittedCons(w: World, w': World, op: Id, index: nat, upids: seq<Upid>)
    requires op in w.db.ops && upids != [] && index + |upids| == |w.db.ops[op].rows|
    requires Submitted(AcceptedAt(w, op, index, upids[0]), w', op, index + 1, upids[1..])
    ensures Submitted(w, w', op, index, upids)
  {}

  lemma SubmittedNone(w: World, op: Id)
    requires op in w.db.ops
    ensures Submitted(w, w, op, |w.db.ops[op].rows|, [])
  {}

  lemma LoopSteps(w: World, turns: seq<Turn>)
    requires w.dispatcher.Some? && turns != []
    ensures Run(w, LoopLabels(w, turns)) == Run(Run(w, TurnLabels(w, turns[0])), LoopLabels(Run(w, TurnLabels(w, turns[0])), turns[1..]))
  {
    hide Run, TurnLabels;
    RunAppend(w, TurnLabels(w, turns[0]), LoopLabels(Run(w, TurnLabels(w, turns[0])), turns[1..]));
  }

  /** Every remaining member is answered with a task that names it. */
  ghost predicate Named(w: World, op: Id, index: nat, upids: seq<Upid>)
    requires op in w.db.ops && index + |upids| == |w.db.ops[op].rows|
  {
    forall i :: index <= i < |w.db.ops[op].rows| ==>
      ValidTask(Some(upids[i - index]), w.db.ops[op].plan.host.node, w.db.ops[op].rows[i].vm, w.db.ops[op].plan.kind)
  }

  lemma SmoothFirst(w: World, op: Id, index: nat, upids: seq<Upid>)
    requires Before(w, op, index) && index + |upids| == |w.db.ops[op].rows| && Named(w, op, index, upids)
    ensures var w1 := AcceptedAt(w, op, index, upids[0]);
            && op in w1.db.ops && index + |upids| == |w1.db.ops[op].rows| && Named(w1, op, index + 1, upids[1..])
            && (if |upids| > 1 then Before(w1, op, index + 1) else w1.dispatcher.None?)
            && Run(w, LoopLabels(w, AllSmooth(upids))) == Run(w1, LoopLabels(w1, AllSmooth(upids[1..])))
  {
    hide *;
    StandsBefore(w, op, index);
    NamedFirst(w, op, index, upids);
    SmoothTurn(w, op, index, upids[0]);
    SmoothNext(w, op, index, upids[0]);
    FirstTurn(upids);
    LoopSteps(w, AllSmooth(upids));
  }

  /** A plan that has just been started stands before its first member. */
  lemma StartsBefore(w: World, deployment: Id, setId: Id, digest: Plan, attempt: Id, guards: bool, alive: bool)
    requires Inv(w) && Executable(w, deployment, setId, digest, attempt, guards, alive)
    ensures Before(Step(w, LBegin(deployment, setId, digest, attempt, guards, alive)), digest.id, 0)
  {
    StepKeeps(w, LBegin(deployment, setId, digest, attempt, guards, alive));
    assert OpOk(digest.id, w.db.ops[digest.id]) && 0 < |w.db.ops[digest.id].rows|;
    hide Inv;
    StartKeepsTarget(w, deployment, setId, digest, attempt, guards, alive);
    hide Step, Executable, Bound;
  }

  lemma StartKeepsTarget(w: World, deployment: Id, setId: Id, digest: Plan, attempt: Id, guards: bool, alive: bool)
    requires Executable(w, deployment, setId, digest, attempt, guards, alive)
    ensures var w' := Step(w, LBegin(deployment, setId, digest, attempt, guards, alive));
            && w'.dispatcher == Some(Dispatcher(digest.id, 0, Ready)) && digest.id in w.db.ops && digest.id in w'.db.ops
            && w'.db.ops[digest.id].rows == w.db.ops[digest.id].rows
            && w'.db.ops[digest.id].plan.set_ in w'.db.sets && Bound(w'.db, w'.db.sets[w'.db.ops[digest.id].plan.set_])
  {
    assert w.db.ops[digest.id].plan.set_ == setId;
    hide SupersedeOthers, LockFree;
  }

  lemma StandsBefore(w: World, op: Id, index: nat)
    requires Before(w, op, index)
    ensures w.dispatcher.Some? && op in w.db.ops && index < |w.db.ops[op].rows|
  {}

  lemma NamedFirst(w: World, op: Id, index: nat, upids: seq<Upid>)
    requires op in w.db.ops && upids != [] && index + |upids| == |w.db.ops[op].rows| && Named(w, op, index, upids)
    ensures ValidTask(Some(upids[0]), w.db.ops[op].plan.host.node, w.db.ops[op].rows[index].vm, w.db.ops[op].plan.kind)
    ensures var w1 := AcceptedAt(w, op, index, upids[0]);
            op in w1.db.ops && index + |upids| == |w1.db.ops[op].rows| && Named(w1, op, index + 1, upids[1..])
  {
    hide ValidTask;
  }

  lemma FirstTurn(upids: seq<Upid>)
    requires upids != []
    ensures AllSmooth(upids) != [] && AllSmooth(upids)[0] == Smooth(upids[0]) && AllSmooth(upids)[1..] == AllSmooth(upids[1..])
  {}

  /** A dispatch that nothing disturbs submits every remaining member, in order, exactly once, and leaves
      each accepted under the task it was answered with. */
  lemma {:induction false} SmoothDispatch(w: World, op: Id, index: nat, upids: seq<Upid>)
    requires Before(w, op, index) && index + |upids| == |w.db.ops[op].rows| && Named(w, op, index, upids)
    ensures Run(w, LoopLabels(w, AllSmooth(upids))).dispatcher.None?
    ensures Submitted(w, Run(w, LoopLabels(w, AllSmooth(upids))), op, index, upids)
    decreases |upids|
  {
    SmoothFirst(w, op, index, upids);
    var w1 := AcceptedAt(w, op, index, upids[0]);
    hide *;
    if |upids| == 1 {
      SubmittedNone(w1, op);
      NoLoop(w1);
      assert upids[1..] == [];
    } else {
      SmoothDispatch(w1, op, index + 1, upids[1..]);
    }
    SubmittedCons(w, Run(w1, LoopLabels(w1, AllSmooth(upids[1..]))), op, index, upids);
  }

  lemma NoLoop(w: World)
    requires w.dispatcher.None?
    ensures forall turns :: LoopLabels(w, turns) == []
    ensures Run(w, []) == w
  {}
}
