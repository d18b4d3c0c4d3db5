/** The reserve call: an audit, then transactions and availability probes in turn, while other
    authors keep committing to the same ledger. */
module LedgerService {
  import opened Wrappers
  import opened FirstFit
  import opened VmAllocationModel
  import opened VmAllocationSoundness
  import opened VmAllocationTheorems
  import opened LedgerModel
  import opened LedgerSafety
  import LedgerAnswers

  /** The database file that every worker shares. */
  class Database {
    var l: Ledger

    constructor (l0: Ledger)
      ensures l == l0
    {
      l := l0;
    }

    /** What the others commit while this call is not holding the writer lock. */
    method Others(events: seq<Event>)
      modifies this
      ensures l == Run(old(l), events)
    {
      l := Run(l, events);
    }

    /** Release one authoring lease by its identifier. */
    method Release(id: nat, owner: string, host: string) returns (refused: Option<LedgerError>)
      modifies this
      ensures (l, refused) == ReleaseLease(old(l), id, owner, host)
      ensures KeysOk(old(l)) ==> LedgerAnswers.Releases(old(l), l, id, owner, host, refused)
    {
      if KeysOk(l) { LedgerAnswers.ReleaseExactly(l, id, owner, host); }
      var row := ById(l.leases, id);
      if row.None? { return Some(LedgerError.Expired); }
      if row.value.owner != owner || row.value.host != host { return Some(Ownership); }
      l := l.(leases := Without(l.leases, id));
      return None;
    }

    /** The claims and unexpired leases that stand in the way of a binding, one by one. */
    method FindConflict(rows: seq<VmRow>, lease: Option<Lease>) returns (found: bool)
      ensures found == Conflicts(l, rows, lease)
    {
      for i := 0 to |l.claims|
        invariant forall k :: 0 <= k < i ==> !Overlap(rows, l.claims[k].rows)
      {
        if Overlap(rows, l.claims[i].rows) { return true; }
      }
      var live := Unexpired(l.leases, l.now);
      for i := 0 to |live|
        invariant forall k :: 0 <= k < i ==> (lease.Some? && live[k].id == lease.value.id) || !Overlap(rows, live[k].rows)
      {
        if !(lease.Some? && live[i].id == lease.value.id) && Overlap(rows, live[i].rows) { return true; }
      }
      return false;
    }

    method FindProtected(rows: seq<VmRow>, ranges: Ranges) returns (found: bool)
      ensures found == AnyProtected(rows, ranges)
    {
      for i := 0 to |rows|
        invariant forall k :: 0 <= k < i ==> !InRanges(rows[k].vmid, ranges)
      {
        var hit := CheckRanges(rows[i].vmid, ranges);
        if hit { return true; }
      }
      return false;
    }

    /** Bind a deployment, consuming its draft lease in the same transaction. */
    method Bind(d: Deployment, rows: seq<VmRow>, draft: Option<Draft>) returns (refused: Option<LedgerError>)
      modifies this
      ensures (l, refused) == BindTx(old(l), d, rows, draft)
      ensures KeysOk(old(l)) ==> (refused.None? <==> LedgerAnswers.MayBind(old(l), d, rows, draft))
      ensures KeysOk(old(l)) && refused.None? ==> LedgerAnswers.Bound(old(l), l, d, rows, draft)
      ensures refused.Some? ==> l == old(l)
    {
      hide NoDuplicates, AnyProtected, Conflicts, DraftLease, ValidOverrides, KeysOk, LedgerAnswers.MayBind, LedgerAnswers.Bound;
      if KeysOk(l) { LedgerAnswers.BindExactly(l, d, rows, draft); }
      if !NoDuplicates(rows) { return Some(ManifestInvalid); }
      if d.host !in l.hosts { return Some(TargetChanged); }
      var host := l.hosts[d.host];
      var existing := ClaimOf(l.claims, d.id);
      if existing.Some? {
        var c := existing.value;
        if (c.host, c.apiUrl, c.node, c.sha) != (d.host, host.apiUrl, host.node, d.sha) { return Some(TargetChanged); }
        return if c.rows != rows then Some(MappingChanged) else None;
      }
      var lease := DraftLease(l, draft, host, rows);
      if lease.Err? { return Some(lease.error); }
      if !ValidOverrides(host.overrides) { return Some(Planning(Invalid)); }
      var hit := FindProtected(rows, DEFAULT_PROTECTED + host.overrides);
      if hit { return Some(ProtectedId); }
      hit := FindConflict(rows, lease.value);
      if hit { return Some(Held); }
      var source := if lease.value.Some? then Some(lease.value.value.rows) else None;
      l := l.(claims := l.claims + [Claim(d.id, d.sha, host.id, host.apiUrl, host.node, rows, source)]);
      if lease.value.Some? { l := l.(leases := Without(l.leases, lease.value.value.id)); }
      return None;
    }
  }

  /** The answers of the probes so far, in the order they were asked. */
  type Log = seq<(nat, bool)>

  function FreeIn(log: Log): set<nat> { set i | 0 <= i < |log| && log[i].1 :: log[i].0 }

  function BusyIn(log: Log): Claims { set i | 0 <= i < |log| && !log[i].1 :: ("", log[i].0) }

  ghost predicate NoRepeats(log: Log) { forall i, j :: 0 <= i < j < |log| ==> log[i].0 != log[j].0 }

  lemma LogGrows(log: Log, v: nat, free: bool)
    ensures FreeIn(log + [(v, free)]) == FreeIn(log) + (if free then {v} else {})
    ensures BusyIn(log + [(v, free)]) == BusyIn(log) + (if free then {} else {("", v)})
  {
    var all := log + [(v, free)];
    assert all[|log|] == (v, free) && forall i :: 0 <= i < |log| ==> all[i] == log[i];
    forall x | x in FreeIn(log) ensures x in FreeIn(all) {
      var i :| 0 <= i < |log| && log[i].1 && log[i].0 == x;
      assert all[i].1 && all[i].0 == x;
    }
    forall x | x in BusyIn(log) ensures x in BusyIn(all) {
      var i :| 0 <= i < |log| && !log[i].1 && ("", log[i].0) == x;
      assert !all[i].1 && ("", all[i].0) == x;
    }
  }

  lemma {:induction false} PendingDistinct(rows: seq<VmRow>, free: set<nat>)
    requires forall u, v :: 0 <= u < v < |rows| ==> rows[u].vmid != rows[v].vmid
    ensures forall i, j :: 0 <= i < j < |Pending(rows, free)| ==> Pending(rows, free)[i] != Pending(rows, free)[j]
  {
    if rows != [] {
      PendingDistinct(rows[1..], free);
      var rest := Pending(rows[1..], free);
      assert forall v :: v in rest ==> v != rows[0].vmid;
      assert forall j :: 0 <= j < |rest| ==> rest[j] in rest;
    }
  }

  /** What a transaction leaves to be probed was neither confirmed free nor found busy before. */
  lemma PendingIsNew(l: Ledger, host: Host, r: Request, owner: string, audit: Taken, log: Log)
    requires ValidRequest(r) && Plannable(r)
    requires ReserveTx(l, host, r, owner, Taken(audit.ids + BusyIn(log), audit.ips), FreeIn(log)).1.Unproven?
    ensures var pending := ReserveTx(l, host, r, owner, Taken(audit.ids + BusyIn(log), audit.ips), FreeIn(log)).1.pending;
            && pending != []
            && (forall i, j :: 0 <= i < j < |pending| ==> pending[i] != pending[j])
            && forall i, k :: 0 <= i < |pending| && 0 <= k < |log| ==> pending[i] != log[k].0
  {
    var occupied := Taken(audit.ids + BusyIn(log), audit.ips);
    var current := OfProject(Unexpired(l.leases, l.now), r.project);
    var taken := AllTaken(occupied, OthersFor(l, current));
    var rows := PlanRequest(r, host.overrides, taken, StoredRows(current)).value;
    var pending := Pending(rows, FreeIn(log));
    assert ReserveTx(l, host, r, owner, occupied, FreeIn(log)).1 == Unproven(pending) && pending != [];
    hide ReserveTx, PlanRequest, AllTaken, OthersFor, ValidRequest, Plannable, Describes;
    PlanSound(r, host.overrides, taken, StoredRows(current));
    PendingDistinct(rows, FreeIn(log));
    AllTakenKeeps(occupied, OthersFor(l, current));
    forall i, k | 0 <= i < |pending| && 0 <= k < |log| ensures pending[i] != log[k].0 {
      assert pending[i] in pending;
      var u :| 0 <= u < |rows| && rows[u].vmid == pending[i];
      assert ("", rows[u].vmid) in Ids(rows);
      if log[k].1 { assert log[k].0 in FreeIn(log); } else { assert ("", log[k].0) in BusyIn(log); }
    }
  }

  /** Whether somebody else holds the project's unexpired lease; asked once, before the audit. */
  method WrongOwner(l: Ledger, project: string, owner: string, host: string) returns (wrong: bool)
    ensures wrong <==> Foreign(l, project, owner, host)
  {
    var row := OfProject(l.leases, project);
    wrong := row.Some? && row.value.expires > l.now && (row.value.owner != owner || row.value.host != host);
  }

  /** Ask Proxmox about each pending VMID of one round. */
  method Probe(pending: seq<nat>, before: Log, answer: nat -> bool) returns (log: Log)
    requires NoRepeats(before)
    requires forall i, j :: 0 <= i < j < |pending| ==> pending[i] != pending[j]
    requires forall i, k :: 0 <= i < |pending| && 0 <= k < |before| ==> pending[i] != before[k].0
    ensures NoRepeats(log) && |log| == |before| + |pending| && before <= log
    ensures forall i :: 0 <= i < |pending| ==> log[|before| + i] == (pending[i], answer(pending[i]))
  {
    log := before;
    for i := 0 to |pending|
      invariant |log| == |before| + i && before <= log
      invariant forall k :: 0 <= k < i ==> log[|before| + k] == (pending[k], answer(pending[k]))
      invariant forall k :: 0 <= k < |before| ==> log[k] == before[k]
      invariant NoRepeats(log)
    {
      assert forall k :: 0 <= k < |log| ==> log[k].0 != pending[i] by {
        forall k | 0 <= k < |log| ensures log[k].0 != pending[i] {
          if k >= |before| { assert log[|before| + (k - |before|)].0 == pending[k - |before|]; }
        }
      }
      log := log + [(pending[i], answer(pending[i]))];
    }
  }

  /** What the others commit before each of the first n rounds, in order. */
  function Joined(schedule: nat -> seq<Event>, n: nat): seq<Event> {
    if n == 0 then [] else Joined(schedule, n - 1) + schedule(n - 1)
  }

  /** Every entry of the log is what Proxmox answered, in the round in which it was asked. */
  ghost predicate Answered(log: Log, asked: seq<nat>, answer: (nat, nat) -> bool, rounds: nat) {
    && |asked| == |log|
    && (forall i :: 0 <= i < |log| ==> asked[i] < rounds && log[i].1 == answer(asked[i], log[i].0))
    && forall i, j :: 0 <= i < j < |log| ==> asked[i] <= asked[j]
  }

  /** Proxmox was asked about this VMID and answered that it is free. */
  ghost predicate AnsweredFree(vmid: nat, log: Log, asked: seq<nat>, answer: (nat, nat) -> bool)
    requires |asked| == |log|
  {
    exists i :: 0 <= i < |log| && log[i].0 == vmid && answer(asked[i], vmid)
  }

  /** The transaction of the last round, on what had been committed and confirmed by then. */
  function LastTx(read: Ledger, host: Host, r: Request, owner: string, audit: Taken, log: Log): (Ledger, Outcome)
    requires Plannable(r)
  {
    ReserveTx(read, host, r, owner, Taken(audit.ids + BusyIn(log), audit.ips), FreeIn(log))
  }

  /** Somebody else holds the project's unexpired lease. */
  predicate Foreign(l: Ledger, project: string, owner: string, host: string) {
    var row := OfProject(l.leases, project);
    row.Some? && row.value.expires > l.now && (row.value.owner != owner || row.value.host != host)
  }

  /** The retry loop. It ends after at most MAX_PROBES probes, never asks about a VMID twice, and saves
      a lease only when every VMID in it was answered free during this call, with a plan computed
      from the ledger that the same transaction read. Otherwise the others' work is all that changed, and
      the error is the first check's, the last transaction's, or the probe bound's. */
  method Reserve(db: Database, host: Host, r: Request, owner: string, audit: Taken,
                 schedule: nat -> seq<Event>, answer: (nat, nat) -> bool)
      returns (saved: Result<Lease, LedgerError>, log: Log, ghost rounds: nat, ghost asked: seq<nat>, ghost read: Ledger)
    requires ValidRequest(r) && Plannable(r)
    modifies db
    ensures |log| <= MAX_PROBES && NoRepeats(log) && Answered(log, asked, answer, rounds)
    ensures read == Run(old(db.l), Joined(schedule, rounds))
    ensures saved.Ok? ==>
              && LastTx(read, host, r, owner, audit, log) == (db.l, Saved(saved.value))
              && forall v :: 0 <= v < |saved.value.rows| ==> AnsweredFree(saved.value.rows[v].vmid, log, asked, answer)
    ensures saved.Ok? ==>
              && saved.value in db.l.leases && saved.value.expires == read.now + r.leaseSeconds && db.l.now == read.now
              && saved.value.project == r.project && saved.value.owner == owner && saved.value.host == host.id
              && saved.value.node == host.node && saved.value.apiUrl == host.apiUrl
    ensures saved.Ok? && KeysOk(read) ==> LedgerAnswers.Writes(read, db.l, saved.value, host, r, owner, saved.value.rows)
    ensures saved.Err? ==> db.l == read
    ensures rounds == 0 <==> Foreign(old(db.l), r.project, owner, host.id)
    ensures rounds == 0 ==> saved == Err(Ownership) && log == []
    ensures rounds > 0 && saved.Err? ==>
              || LastTx(read, host, r, owner, audit, log).1 == Refused(saved.error)
              || (saved.error == ProbesExhausted && LastTx(read, host, r, owner, audit, log).1.Unproven?
                  && |log| + |LastTx(read, host, r, owner, audit, log).1.pending| > MAX_PROBES)
  {
    hide ReserveTx, Pending, ValidRequest, Plannable, FreeIn, BusyIn, Run, Joined, KeysOk, LedgerAnswers.Writes;
    log, rounds, asked, read := [], 0, [], db.l;
    RunNothing(db.l);
    NoneJoined(schedule);
    var wrong := WrongOwner(db.l, r.project, owner, host.id);
    if wrong { return Err(Ownership), log, rounds, asked, read; }
    var probes, round := 0, 0;
    while probes <= MAX_PROBES
      invariant probes == |log| <= MAX_PROBES && NoRepeats(log)
      invariant Answered(log, asked, answer, round)
      invariant db.l == Run(old(db.l), Joined(schedule, round))
      decreases MAX_PROBES + 1 - probes
    {
      JoinedMore(old(db.l), schedule, round);
      db.Others(schedule(round));
      read, rounds := db.l, round + 1;
      var (l', outcome) := ReserveTx(db.l, host, r, owner, Taken(audit.ids + BusyIn(log), audit.ips), FreeIn(log));
      if outcome.Refused? { return Err(outcome.error), log, rounds, asked, read; }
      if outcome.Saved? {
        SavedIsProven(db.l, host, r, owner, Taken(audit.ids + BusyIn(log), audit.ips), FreeIn(log));
        SavedFields(db.l, host, r, owner, Taken(audit.ids + BusyIn(log), audit.ips), FreeIn(log));
        if KeysOk(db.l) { SavedIsWritten(db.l, host, r, owner, Taken(audit.ids + BusyIn(log), audit.ips), FreeIn(log)); }
        Confirmed(log, asked, answer, rounds, outcome.lease.rows);
        db.l := l';
        return Ok(outcome.lease), log, rounds, asked, read;
      }
      PendingIsNew(db.l, host, r, owner, audit, log);
      if probes + |outcome.pending| > MAX_PROBES { break; }
      ghost var before := log;
      log := Probe(outcome.pending, log, (v: nat) => answer(round, v));
      asked := AskedMore(before, log, asked, answer, round, outcome.pending);
      probes, round := probes + |outcome.pending|, round + 1;
    }
    return Err(ProbesExhausted), log, rounds, asked, read;
  }

  lemma NoneJoined(schedule: nat -> seq<Event>)
    ensures Joined(schedule, 0) == []
  {}

  lemma JoinedMore(l: Ledger, schedule: nat -> seq<Event>, n: nat)
    ensures Run(l, Joined(schedule, n + 1)) == Run(Run(l, Joined(schedule, n)), schedule(n))
  {
    RunConcat(l, Joined(schedule, n), schedule(n));
  }

  /** A confirmed VMID was answered free. */
  lemma Confirmed(log: Log, asked: seq<nat>, answer: (nat, nat) -> bool, rounds: nat, rows: seq<VmRow>)
    requires |asked| == |log| && forall i :: 0 <= i < |log| ==> log[i].1 == answer(asked[i], log[i].0)
    requires forall v :: 0 <= v < |rows| ==> rows[v].vmid in FreeIn(log)
    ensures forall v :: 0 <= v < |rows| ==> AnsweredFree(rows[v].vmid, log, asked, answer)
  {
    forall v | 0 <= v < |rows| ensures AnsweredFree(rows[v].vmid, log, asked, answer) {
      var i :| 0 <= i < |log| && log[i].1 && log[i].0 == rows[v].vmid;
      assert answer(asked[i], rows[v].vmid);
    }
  }

  /** A round's probes were all answered in that round. */
  lemma AskedMore(before: Log, log: Log, asked: seq<nat>, answer: (nat, nat) -> bool, round: nat, pending: seq<nat>)
      returns (all: seq<nat>)
    requires Answered(before, asked, answer, round) && |log| == |before| + |pending| && before <= log
    requires forall i :: 0 <= i < |pending| ==> log[|before| + i] == (pending[i], answer(round, pending[i]))
    ensures Answered(log, all, answer, round + 1)
  {
    all := asked + seq(|pending|, i => round);
    forall i | 0 <= i < |log| ensures log[i].1 == answer(all[i], log[i].0) {
      if i >= |before| { assert log[|before| + (i - |before|)] == (pending[i - |before|], answer(round, pending[i - |before|])); }
    }
  }

  lemma SavedIsWritten(l: Ledger, host: Host, r: Request, owner: string, occupied: Taken, free: set<nat>)
    requires KeysOk(l) && Plannable(r) && ReserveTx(l, host, r, owner, occupied, free).1.Saved?
    ensures var (l', o) := ReserveTx(l, host, r, owner, occupied, free);
            LedgerAnswers.Writes(l, l', o.lease, host, r, owner, o.lease.rows)
  {
    hide KeysOk, ReserveTx, PlanRequest, AllTaken, Plannable, LedgerAnswers.Foreign, LedgerAnswers.Considered, LedgerAnswers.OwnLease;
    LedgerAnswers.ReserveDecides(l, host, r, owner, occupied, free);
  }

  /** A saved lease is in the ledger, runs from the transaction's own time, and is the caller's. */
  lemma SavedFields(l: Ledger, host: Host, r: Request, owner: string, occupied: Taken, free: set<nat>)
    requires Plannable(r) && ReserveTx(l, host, r, owner, occupied, free).1.Saved?
    ensures var (l', o) := ReserveTx(l, host, r, owner, occupied, free);
            && o.lease in l'.leases && o.lease.expires == l.now + r.leaseSeconds && l'.now == l.now && o.lease.project == r.project
            && o.lease.owner == owner && o.lease.host == host.id && o.lease.node == host.node && o.lease.apiUrl == host.apiUrl
  {
    hide ReserveTx, PlanRequest, AllTaken, Plannable, OthersFor, StoredRows, Pending;
    LedgerAnswers.ReserveIs(l, host, r, owner, occupied, free);
  }

  /** A saved lease with any time at all is live in the ledger that it was saved to. */
  lemma SavedIsLive(l: Ledger, host: Host, r: Request, owner: string, occupied: Taken, free: set<nat>)
    requires Plannable(r) && ReserveTx(l, host, r, owner, occupied, free).1.Saved? && r.leaseSeconds > 0
    ensures Live(ReserveTx(l, host, r, owner, occupied, free).0, ReserveTx(l, host, r, owner, occupied, free).1.lease)
  {
    hide ReserveTx, Plannable;
    SavedFields(l, host, r, owner, occupied, free);
  }

  lemma SavedIsProven(l: Ledger, host: Host, r: Request, owner: string, occupied: Taken, free: set<nat>)
    requires Plannable(r) && ReserveTx(l, host, r, owner, occupied, free).1.Saved?
    ensures var rows := ReserveTx(l, host, r, owner, occupied, free).1.lease.rows;
            forall v :: 0 <= v < |rows| ==> rows[v].vmid in free
  {
    var rows := ReserveTx(l, host, r, owner, occupied, free).1.lease.rows;
    hide PlanRequest, AllTaken, OthersFor;
    assert Pending(rows, free) == [];
    forall v | 0 <= v < |rows| ensures rows[v].vmid in free {
      assert rows[v].vmid !in Pending(rows, free);
    }
  }

  lemma RunNothing(l: Ledger)
    ensures Run(l, []) == l
  {}

  lemma {:induction false} RunConcat(l: Ledger, a: seq<Event>, b: seq<Event>)
    ensures Run(l, a + b) == Run(Run(l, a), b)
  {
    hide Next;
    if b == [] {
      assert a + b == a;
    } else {
      assert (a + b)[..|a + b| - 1] == a + b[..|b| - 1];
      RunConcat(l, a, b[..|b| - 1]);
    }
  }
}
