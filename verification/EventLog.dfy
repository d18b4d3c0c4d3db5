/** The append-only event log as a file of cells, with crashes that lose any unsynced tail, at any byte. */
module EventLog {
  import opened Wrappers

  /** An event record: its sequence number, its attempt, and the raw file it came from, if any. */
  datatype Record = Record(seqNo: nat, attempt: string, source: Option<string>)

  /** A whole JSON body, the whole sentinel text, a non-empty proper part of either, or a newline. */
  datatype Cell = Body(rec: Record) | Quotes | Part | Newline

  type File = seq<Cell>

  // ---------------------------------------------------------------- reading

  /** The line being read: only a line that is exactly one body parses to an event. */
  datatype Line = Blank | Event(rec: Record) | Mark | Broken

  function Extend(line: Line, c: Cell): Line {
    if line.Blank? && c.Body? then Event(c.rec) else if line.Blank? && c.Quotes? then Mark else Broken
  }

  /** The events of the finished lines, whether one of those was unreadable, and the unfinished line. */
  datatype View = View(done: seq<Record>, torn: bool, line: Line)

  function Take(v: View, c: Cell): View {
    if !c.Newline? then v.(line := Extend(v.line, c))
    else match v.line
      case Event(r) => View(v.done + [r], v.torn, Blank)
      case Mark => v.(line := Blank)
      case _ => View(v.done, true, Blank)
  }

  function Read(f: File): View {
    if f == [] then View([], false, Blank) else Take(Read(f[..|f| - 1]), f[|f| - 1])
  }

  /** Line iteration yields an unterminated last line too. */
  function Events(f: File): seq<Record> {
    Read(f).done + (if Read(f).line.Event? then [Read(f).line.rec] else [])
  }

  ghost predicate LineStart(f: File) { f == [] || f[|f| - 1] == Newline }

  /** What a piece of a line is read as: a record or a sentinel only when it is exactly that. */
  lemma {:induction false} LineExactly(f: File, cells: File)
    requires LineStart(f) && Newline !in cells
    ensures Read(f + cells).done == Read(f).done && Read(f + cells).torn == Read(f).torn
    ensures Read(f + cells).line ==
            if cells == [] then Blank else if |cells| == 1 && cells[0].Body? then Event(cells[0].rec)
            else if cells == [Quotes] then Mark else Broken
  {
    if cells == [] {
      assert f + cells == f;
      if f != [] { assert Read(f).line.Blank?; }
    } else {
      var front := cells[..|cells| - 1];
      assert forall c :: c in front ==> c in cells;
      LineExactly(f, front);
      assert (f + cells)[..|f + cells| - 1] == f + front && (f + cells)[|f + cells| - 1] == cells[|cells| - 1];
      assert cells[|cells| - 1] in cells;
    }
  }

  /** A finished line adds its record when it is exactly one, nothing when it is a sentinel, and else is unreadable. */
  lemma FinishedLine(f: File, cells: File)
    requires LineStart(f) && Newline !in cells
    ensures var v := Read(f + cells + [Newline]);
            && v.done == Read(f).done + (if |cells| == 1 && cells[0].Body? then [cells[0].rec] else [])
            && (v.torn <==> Read(f).torn || !(|cells| == 1 && (cells[0].Body? || cells[0].Quotes?)))
            && v.line.Blank?
  {
    LineExactly(f, cells);
    assert (f + cells + [Newline])[..|f + cells|] == f + cells;
    hide Read;
    FinishLine(f + cells);
  }

  lemma FinishLine(f: File)
    ensures Read(f + [Newline]) == Take(Read(f), Newline)
  {
    assert (f + [Newline])[..|f|] == f;
  }

  // ---------------------------------------------------------------- writing, crashing, observing

  function Entry(r: Record): File { [Body(r), Newline, Quotes, Newline] }

  function MaxSeq(rs: seq<Record>): (m: nat)
    ensures forall r :: r in rs ==> r.seqNo <= m
    ensures m == 0 || exists r :: r in rs && r.seqNo == m
  {
    if rs == [] then 0 else
    var rest := MaxSeq(rs[..|rs| - 1]);
    var last := rs[|rs| - 1].seqNo;
    if last > rest then last else rest
  }

  function Sources(rs: seq<Record>, attempt: string): set<string> {
    set r | r in rs && r.attempt == attempt && r.source.Some? :: r.source.value
  }

  /** One observer process: its writer's counter, its attempt, and the raw names it will not replay. */
  datatype Observer = Observer(counter: nat, attempt: string, seen: set<string>)

  datatype Log = Log(file: File, synced: nat, observer: Option<Observer>)

  /** A new observer recovers its counter and its receipts from what it can read. */
  function Observe(l: Log, attempt: string): Log {
    l.(observer := Some(Observer(MaxSeq(Events(l.file)), attempt, Sources(Events(l.file), attempt))))
  }

  /** Append one event; a raw source is appended only when it was not seen. */
  function Append(l: Log, source: Option<string>, sync: bool): Log
    requires l.observer.Some?
  {
    var o := l.observer.value;
    if source.Some? && source.value in o.seen then l else
    var r := Record(o.counter + 1, o.attempt, source);
    var file := l.file + Entry(r);
    Log(file, if sync then |file| else l.synced,
        Some(Observer(o.counter + 1, o.attempt, o.seen + (if source.Some? then {source.value} else {}))))
  }

  /** A crash keeps a prefix no shorter than what was synced, perhaps with its last cell torn. */
  predicate MayLose(l: Log, cut: nat, torn: bool) {
    l.synced <= cut <= |l.file| && (torn ==> cut < |l.file| && !l.file[cut].Newline?)
  }

  /** A crash may keep any prefix that holds all that was synced, and may tear the cell after it. */
  lemma CrashKeepsSynced(l: Log, cut: nat, torn: bool)
    requires l.synced <= |l.file|
    ensures Perform(l, Lose(l.synced, false)).file == l.file[..l.synced]
    ensures var f := Perform(l, Lose(cut, torn)).file;
            |f| >= l.synced && f[..l.synced] == l.file[..l.synced]
    ensures l.synced <= cut < |l.file| ==> Perform(l, Lose(cut, false)).file == l.file[..cut]
    ensures l.synced <= cut < |l.file| && l.file[cut] != Newline ==> Perform(l, Lose(cut, true)).file == l.file[..cut] + [Part]
  {
    hide Observe, Append;
  }

  datatype Act = Start(attempt: string) | Write(source: Option<string>, sync: bool) | Lose(cut: nat, torn: bool) | Sync

  function Perform(l: Log, a: Act): Log {
    match a
    case Start(attempt) => Observe(l, attempt)
    case Write(source, sync) => if l.observer.Some? then Append(l, source, sync) else l
    case Lose(cut, torn) =>
      if MayLose(l, cut, torn) then Log(l.file[..cut] + (if torn then [Part] else []), l.synced, None) else l
    case Sync => l.(synced := |l.file|)
  }

  function Run(l: Log, acts: seq<Act>): Log {
    if acts == [] then l else Perform(Run(l, acts[..|acts| - 1]), acts[|acts| - 1])
  }

  const EMPTY_LOG: Log := Log([], 0, None)

  // ---------------------------------------------------------------- order and uniqueness

  ghost predicate Increasing(rs: seq<Record>) {
    forall i, j :: 0 <= i < j < |rs| ==> rs[i].seqNo < rs[j].seqNo
  }

  ghost predicate UniqueSources(rs: seq<Record>) {
    forall i, j :: 0 <= i < j < |rs| && rs[i].attempt == rs[j].attempt && rs[i].source.Some? ==> rs[i].source != rs[j].source
  }

  ghost predicate Good(f: File) { Increasing(Events(f)) && UniqueSources(Events(f)) }

  /** Good, however a crash may shorten it. */
  ghost predicate GoodThroughout(f: File) { forall k :: 0 <= k <= |f| ==> Good(f[..k]) }

  ghost predicate Inv(l: Log) {
    && l.synced <= |l.file| && GoodThroughout(l.file)
    && (l.observer.Some? ==>
          && (forall r :: r in Events(l.file) ==> r.seqNo <= l.observer.value.counter)
          && Sources(Events(l.file), l.observer.value.attempt) <= l.observer.value.seen)
  }

  lemma ReadSnoc(f: File, c: Cell)
    ensures Read(f + [c]) == Take(Read(f), c)
  {
    assert (f + [c])[..|f + [c]| - 1] == f;
  }

  lemma GoodSnoc(f: File, c: Cell)
    requires GoodThroughout(f) && Good(f + [c])
    ensures GoodThroughout(f + [c])
  {
    hide Good;
    forall k | 0 <= k <= |f + [c]| ensures Good((f + [c])[..k]) {
      if k <= |f| { assert (f + [c])[..k] == f[..k]; } else { assert (f + [c])[..k] == f + [c]; }
    }
  }

  lemma GoodPrefix(f: File, k: nat)
    requires GoodThroughout(f) && k <= |f|
    ensures GoodThroughout(f[..k])
  {
    hide Good;
    forall j | 0 <= j <= k ensures Good(f[..k][..j]) { assert f[..k][..j] == f[..j]; }
  }

  /** A cell that starts no event on a fresh line leaves a subsequence of the events. */
  lemma DullCell(f: File, c: Cell)
    requires Good(f) && !(c.Body? && Read(f).line.Blank?)
    ensures Good(f + [c]) && (forall r :: r in Events(f + [c]) ==> r in Events(f))
  {
    ReadSnoc(f, c);
    var a, b := Events(f), Events(f + [c]);
    assert b == a || (a != [] && b == a[..|a| - 1]);
  }

  lemma BodyCell(f: File, r: Record)
    requires Good(f) && Read(f).line.Blank?
    requires (forall e :: e in Events(f) ==> e.seqNo < r.seqNo)
    requires r.source.Some? ==> r.source.value !in Sources(Events(f), r.attempt)
    ensures Good(f + [Body(r)]) && Events(f + [Body(r)]) == Events(f) + [r]
  {
    ReadSnoc(f, Body(r));
    var a := Events(f);
    assert Events(f + [Body(r)]) == a + [r];
    assert forall i :: 0 <= i < |a| ==> a[i] in a;
    forall i | 0 <= i < |a| && a[i].attempt == r.attempt && a[i].source.Some? ensures a[i].source != r.source {
      assert a[i] in a && a[i].source.value in Sources(a, r.attempt);
    }
  }

  /** The first cell of an append: the event itself on a clean tail, nothing readable on a torn one. */
  lemma EntryStart(f: File, r: Record)
    requires GoodThroughout(f) && (forall e :: e in Events(f) ==> e.seqNo < r.seqNo)
    requires r.source.Some? ==> r.source.value !in Sources(Events(f), r.attempt)
    ensures GoodThroughout(f + [Body(r)]) && forall e :: e in Events(f + [Body(r)]) ==> e in Events(f) || e == r
  {
    assert f[..|f|] == f && Good(f[..|f|]);
    if Read(f).line.Blank? { BodyCell(f, r); } else { DullCell(f, Body(r)); }
    GoodSnoc(f, Body(r));
  }

  lemma DullCells(f: File, c: Cell)
    requires GoodThroughout(f) && !c.Body?
    ensures GoodThroughout(f + [c]) && forall e :: e in Events(f + [c]) ==> e in Events(f)
  {
    assert f[..|f|] == f && Good(f[..|f|]);
    DullCell(f, c);
    GoodSnoc(f, c);
  }

  lemma EntryKeeps(f: File, r: Record)
    requires GoodThroughout(f) && (forall e :: e in Events(f) ==> e.seqNo < r.seqNo)
    requires r.source.Some? ==> r.source.value !in Sources(Events(f), r.attempt)
    ensures GoodThroughout(f + Entry(r)) && forall e :: e in Events(f + Entry(r)) ==> e in Events(f) || e == r
  {
    hide GoodThroughout, Events;
    EntryStart(f, r);
    DullCells(f + [Body(r)], Newline);
    DullCells(f + [Body(r)] + [Newline], Quotes);
    DullCells(f + [Body(r)] + [Newline] + [Quotes], Newline);
    assert f + Entry(r) == f + [Body(r)] + [Newline] + [Quotes] + [Newline];
  }

  lemma PerformKeeps(l: Log, a: Act)
    requires Inv(l)
    ensures Inv(Perform(l, a))
  {
    hide GoodThroughout, Events, Entry;
    match a
    case Write(source, sync) =>
      if l.observer.Some? && !(source.Some? && source.value in l.observer.value.seen) {
        var o := l.observer.value;
        EntryKeeps(l.file, Record(o.counter + 1, o.attempt, source));
      }
    case Lose(cut, torn) =>
      if MayLose(l, cut, torn) {
        GoodPrefix(l.file, cut);
        if torn { DullCells(l.file[..cut], Part); }
        assert l.file[..cut] + [] == l.file[..cut];
      }
    case _ =>
  }

  /** Across any observers, restarts and crashes, torn tails included: the readable sequence numbers
      are strictly increasing and no raw event has two readable records in one attempt. */
  lemma {:induction false} RunOrdered(acts: seq<Act>)
    ensures Inv(Run(EMPTY_LOG, acts)) && Good(Run(EMPTY_LOG, acts).file)
  {
    if acts == [] {
      assert forall k :: 0 <= k <= 0 ==> EMPTY_LOG.file[..k] == [];
    } else {
      RunOrdered(acts[..|acts| - 1]);
      PerformKeeps(Run(EMPTY_LOG, acts[..|acts| - 1]), acts[|acts| - 1]);
    }
    var f := Run(EMPTY_LOG, acts).file;
    assert f[..|f|] == f;
  }
}
