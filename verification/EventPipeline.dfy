/** From raw runner files to receipts in the log: the watcher's scans, its completeness, and the
    cleanup that deletes raw files against receipts. */
module EventPipeline {
  import opened Wrappers
  import opened EventLog
  import opened EventReaders

  // ---------------------------------------------------------------- many appends

  function Entries(rs: seq<Record>): File {
    if rs == [] then [] else Entries(rs[..|rs| - 1]) + Entry(rs[|rs| - 1])
  }

  lemma EntriesSnoc(rs: seq<Record>, r: Record)
    ensures Entries(rs + [r]) == Entries(rs) + Entry(r)
  {
    assert (rs + [r])[..|rs|] == rs;
  }

  lemma ReadEntry(f: File, r: Record)
    ensures Read(f + Entry(r)).line.Blank?
    ensures Read(f).line.Blank? ==> Read(f + Entry(r)).done == Read(f).done + [r]
    ensures !Read(f).line.Blank? ==> Read(f + Entry(r)).done == Read(f).done
  {
    hide Read;
    ReadSnoc(f, Body(r));
    ReadSnoc(f + [Body(r)], Newline);
    ReadSnoc(f + [Body(r)] + [Newline], Quotes);
    ReadSnoc(f + [Body(r)] + [Newline] + [Quotes], Newline);
    assert f + Entry(r) == f + [Body(r)] + [Newline] + [Quotes] + [Newline];
  }

  /** On a clean tail every appended record is readable; a torn tail swallows exactly the first. */
  lemma {:induction false} ReadEntries(f: File, rs: seq<Record>)
    ensures rs != [] ==> Read(f + Entries(rs)).line.Blank?
    ensures Read(f).line.Blank? ==> Read(f + Entries(rs)).line.Blank? && Read(f + Entries(rs)).done == Read(f).done + rs
    ensures !Read(f).line.Blank? && rs != [] ==> Read(f + Entries(rs)).done == Read(f).done + rs[1..]
  {
    hide Read, Entry;
    if rs == [] {
      assert f + Entries(rs) == f;
    } else {
      var n := |rs| - 1;
      ReadEntries(f, rs[..n]);
      ReadEntry(f + Entries(rs[..n]), rs[n]);
      assert f + Entries(rs) == f + Entries(rs[..n]) + Entry(rs[n]);
      assert rs == rs[..n] + [rs[n]];
      if n == 0 {
        assert f + Entries(rs[..0]) == f && rs[1..] == [];
      } else {
        assert rs[1..] == rs[..n][1..] + [rs[n]];
      }
    }
  }

  // ---------------------------------------------------------------- the watcher

  /** The raw directory and the stop signal as they develop: files stay, parsed files stay parsable,
      and a stop is not taken back. */
  datatype World = World(listing: nat -> seq<string>, parsable: (nat, string) -> bool, stopped: nat -> bool)

  ghost predicate Develops(w: World) {
    && (forall t: nat, u: nat, n: string :: t <= u && n in w.listing(t) ==> n in w.listing(u))
    && (forall t: nat, u: nat, n: string :: t <= u && w.parsable(t, n) ==> w.parsable(u, n))
    && forall t: nat, u: nat :: t <= u && w.stopped(t) ==> w.stopped(u)
  }

  /** Records of raw files not seen before, each file once, numbered on from the counter. */
  ghost predicate Appended(rs: seq<Record>, attempt: string, counter: nat, seen: set<string>) {
    && (forall i :: 0 <= i < |rs| ==> Stamped(rs[i], attempt, counter + 1 + i, seen))
    && forall i, j :: 0 <= i < j < |rs| ==> rs[i].source != rs[j].source
  }

  ghost predicate Stamped(r: Record, attempt: string, seqNo: nat, seen: set<string>) {
    r.seqNo == seqNo && r.attempt == attempt && r.source.Some? && r.source.value !in seen
  }

  lemma AppendedSnoc(rs: seq<Record>, attempt: string, counter: nat, seen: set<string>, name: string)
    requires Appended(rs, attempt, counter, seen) && name !in seen + Sources(rs, attempt)
    ensures Appended(rs + [Record(counter + |rs| + 1, attempt, Some(name))], attempt, counter, seen)
  {
    forall i | 0 <= i < |rs| ensures rs[i].source != Some(name) {
      assert Stamped(rs[i], attempt, counter + 1 + i, seen) && rs[i] in rs;
      assert rs[i].source.value in Sources(rs, attempt);
    }
  }

  lemma AppendedConcat(a: seq<Record>, b: seq<Record>, attempt: string, counter: nat, seen: set<string>)
    requires Appended(a, attempt, counter, seen)
    requires Appended(b, attempt, counter + |a|, seen + Sources(a, attempt))
    ensures Appended(a + b, attempt, counter, seen)
  {
    var all := a + b;
    forall i | 0 <= i < |all| ensures Stamped(all[i], attempt, counter + 1 + i, seen) {
      if i < |a| { assert Stamped(a[i], attempt, counter + 1 + i, seen); }
      else { assert Stamped(b[i - |a|], attempt, counter + |a| + 1 + (i - |a|), seen + Sources(a, attempt)); }
    }
    forall i, j | 0 <= i < |a| && 0 <= j < |b| ensures a[i].source != b[j].source {
      assert Stamped(a[i], attempt, counter + 1 + i, seen) && a[i] in a;
      assert a[i].source.value in Sources(a, attempt);
      assert Stamped(b[j], attempt, counter + |a| + 1 + j, seen + Sources(a, attempt));
    }
  }

  /** The receipts of one attempt, and its greatest sequence number. */
  method Receipts(events: seq<Record>, attempt: string) returns (known: set<string>, top: nat)
    ensures known == Sources(events, attempt)
    ensures forall r :: r in events && r.attempt == attempt ==> r.seqNo <= top
    ensures top == 0 || exists r :: r in events && r.attempt == attempt && r.seqNo == top
  {
    known, top := {}, 0;
    for i := 0 to |events|
      invariant known == Sources(events[..i], attempt)
      invariant forall k :: 0 <= k < i && events[k].attempt == attempt ==> events[k].seqNo <= top
      invariant top == 0 || exists k :: 0 <= k < i && events[k].attempt == attempt && events[k].seqNo == top
    {
      SourcesSnoc(events[..i], events[i], attempt);
      assert events[..i + 1] == events[..i] + [events[i]];
      hide Sources;
      if events[i].attempt == attempt {
        if events[i].seqNo > top { top := events[i].seqNo; }
        if events[i].source.Some? { known := known + {events[i].source.value}; }
      }
    }
    assert events[..|events|] == events;
  }

  class Watcher {
    const attempt: string
    var file: File
    var counter: nat
    var seen: set<string>
    var cursor: nat
    var reported: nat
    var reports: seq<nat>

    /** A watcher starts from what the log says: counter, cursor, and receipts of its attempt. */
    constructor (f: File, a: string)
      ensures attempt == a && file == f && counter == MaxSeq(Events(f)) && seen == Sources(Events(f), a)
      ensures (forall r :: r in Events(f) && r.attempt == a ==> r.seqNo <= cursor) && cursor <= counter
      ensures cursor == 0 || exists r :: r in Events(f) && r.attempt == a && r.seqNo == cursor
      ensures reported == 0 && reports == []
    {
      hide Events, Sources;
      var last := RecoverSeq(f);
      var events := ReadRange(f, 0, None);
      UntilAll(Events(f));
      var known, top := Receipts(events, a);
      attempt, file, counter, seen, cursor, reported, reports := a, f, last, known, top, 0, [];
    }

    /** One scan of a listing, from the given tick on: append each parsable file not seen before. */
    method Scan(w: World, names: seq<string>, start: nat) returns (now: nat, added: seq<Record>)
      requires Develops(w)
      modifies this`file, this`counter, this`seen, this`cursor
      ensures now == start + |names|
      ensures file == old(file) + Entries(added) && counter == old(counter) + |added|
      ensures Appended(added, attempt, old(counter), old(seen)) && seen == old(seen) + Sources(added, attempt)
      ensures cursor == if added == [] then old(cursor) else counter
      ensures forall n :: n in names && w.parsable(start, n) ==> n in seen
      ensures FromFiles(added, w, names, now)
    {
      hide *;
      NoFiles(w, names, start);
      now, added := start, [];
      NoneAdded(file, attempt, counter, seen);
      for i := 0 to |names|
        invariant now == start + i
        invariant file == old(file) + Entries(added) && counter == old(counter) + |added|
        invariant Appended(added, attempt, old(counter), old(seen)) && seen == old(seen) + Sources(added, attempt)
        invariant cursor == if added == [] then old(cursor) else counter
        invariant forall k :: 0 <= k < i && w.parsable(start, names[k]) ==> names[k] in seen
        invariant FromFiles(added, w, names, now)
      {
        FilesStay(w, start, now);
        if names[i] !in seen && w.parsable(now, names[i]) {
          var r := Record(counter + 1, attempt, Some(names[i]));
          JoinOne(old(file), added, attempt, old(counter), old(seen), names[i], r);
          Ingest(r, names[i]);
          OneFile(added, w, names, now, r, i);
          added := added + [r];
        }
        FilesStay(w, now, now + 1);
        FromFilesLater(added, w, names, now);
        now := now + 1;
      }
    }

    /** Mark the raw file as seen and append its record. */
    method Ingest(r: Record, name: string)
      requires r == Record(counter + 1, attempt, Some(name))
      modifies this`file, this`counter, this`seen, this`cursor
      ensures file == old(file) + Entry(r) && counter == cursor == old(counter) + 1 && seen == old(seen) + {name}
    {
      seen, counter := seen + {name}, counter + 1;
      file := file + Entry(r);
      cursor := counter;
    }

    /** Tell the owner about a cursor that moved, and only then. */
    method Report()
      requires reported <= cursor
      modifies this`reports, this`reported
      ensures reported == cursor
      ensures reports == if cursor > old(reported) then old(reports) + [cursor] else old(reports)
      ensures forall before, start :: Progress(before, start, old(reports), old(reported)) ==> Progress(before, start, reports, reported)
    {
      if cursor > reported {
        reports := reports + [cursor];
        reported := cursor;
      }
    }

    /** Scan until a scan that began after the stop was observed has finished. */
    method Run(w: World, deadline: nat) returns (began: nat, added: seq<Record>)
      requires Develops(w) && w.stopped(deadline) && reported <= cursor <= counter
      modifies this
      ensures w.stopped(began)
      ensures forall t: nat, n: string :: t <= began && n in w.listing(t) && w.parsable(t, n) ==> n in seen
      ensures file == old(file) + Entries(added)
      ensures Appended(added, attempt, old(counter), old(seen)) && seen == old(seen) + Sources(added, attempt)
      ensures Progress(old(reports), old(reported), reports, reported) && reported == cursor
      ensures FromFiles(added, w, w.listing(began), began + |w.listing(began)|)
    {
      hide *;
      var now := 0;
      NoFiles(w, w.listing(0), 0);
      began, added := 0, [];
      NoneAdded(file, attempt, counter, seen);
      NoProgress(reports, reported);
      while true
        invariant reported <= cursor <= counter == old(counter) + |added|
        invariant file == old(file) + Entries(added)
        invariant Appended(added, attempt, old(counter), old(seen)) && seen == old(seen) + Sources(added, attempt)
        invariant Progress(old(reports), old(reported), reports, reported)
        invariant FromFiles(added, w, w.listing(now), now)
        decreases deadline - now
      {
        var final := w.stopped(now);
        began := now;
        var next, more := Scan(w, w.listing(now), now);
        JoinScans(old(file), added, more, attempt, old(counter), old(seen));
        JoinFiles(added, more, w, w.listing(now), now, next);
        added := added + more;
        Report();
        if final {
          EarlierFiles(w, began, seen);
          return;
        }
        StopStays(w, deadline, now);
        ListingStays(w, added, now, next);
        now := next + 1;
      }
    }
  }

  /** Every one of these records is of a listed file that was parsable by then. */
  ghost predicate FromFiles(rs: seq<Record>, w: World, names: seq<string>, now: nat) {
    forall r :: r in rs ==> r.source.Some? && r.source.value in names && w.parsable(now, r.source.value)
  }

  lemma NoFiles(w: World, names: seq<string>, now: nat)
    ensures FromFiles([], w, names, now)
  {}

  lemma OneFile(rs: seq<Record>, w: World, names: seq<string>, now: nat, r: Record, i: nat)
    requires FromFiles(rs, w, names, now) && i < |names| && r.source == Some(names[i]) && w.parsable(now, names[i])
    ensures FromFiles(rs + [r], w, names, now)
  {}

  lemma FromFilesLater(rs: seq<Record>, w: World, names: seq<string>, now: nat)
    requires FromFiles(rs, w, names, now) && forall n :: w.parsable(now, n) ==> w.parsable(now + 1, n)
    ensures FromFiles(rs, w, names, now + 1)
  {}

  /** Files stay listed and parsable, so earlier records are of files of any later listing. */
  lemma ListingStays(w: World, rs: seq<Record>, now: nat, next: nat)
    requires Develops(w) && now <= next && FromFiles(rs, w, w.listing(now), next)
    ensures FromFiles(rs, w, w.listing(next + 1), next + 1)
  {}

  lemma JoinFiles(a: seq<Record>, b: seq<Record>, w: World, names: seq<string>, now: nat, next: nat)
    requires Develops(w) && now <= next && FromFiles(a, w, names, now) && FromFiles(b, w, names, next)
    ensures FromFiles(a + b, w, names, next)
  {}

  /** What was reported since is increasing from where it started, and the last report is where it stands. */
  ghost predicate Progress(before: seq<nat>, start: nat, reports: seq<nat>, reported: nat) {
    && before <= reports
    && (forall i, j :: |before| <= i < j < |reports| ==> reports[i] < reports[j])
    && (forall i :: |before| <= i < |reports| ==> start < reports[i] <= reported)
    && reported == if |reports| > |before| then reports[|reports| - 1] else start
  }

  lemma FilesStay(w: World, t: nat, u: nat)
    requires Develops(w) && t <= u
    ensures forall n :: w.parsable(t, n) ==> w.parsable(u, n)
  {}

  lemma StopStays(w: World, t: nat, u: nat)
    requires Develops(w) && w.stopped(t) && !w.stopped(u)
    ensures u < t
  {}

  lemma EarlierFiles(w: World, began: nat, seen: set<string>)
    requires Develops(w) && forall n :: n in w.listing(began) && w.parsable(began, n) ==> n in seen
    ensures forall t: nat, n: string :: t <= began && n in w.listing(t) && w.parsable(t, n) ==> n in seen
  {}

  lemma JoinScans(f: File, a: seq<Record>, b: seq<Record>, attempt: string, counter: nat, seen: set<string>)
    requires Appended(a, attempt, counter, seen)
    requires Appended(b, attempt, counter + |a|, seen + Sources(a, attempt))
    ensures Appended(a + b, attempt, counter, seen)
    ensures f + Entries(a) + Entries(b) == f + Entries(a + b)
    ensures seen + Sources(a, attempt) + Sources(b, attempt) == seen + Sources(a + b, attempt)
  {
    hide *;
    AppendedConcat(a, b, attempt, counter, seen);
    EntriesConcat(a, b);
    SourcesConcat(a, b, attempt);
  }

  lemma JoinOne(f: File, rs: seq<Record>, attempt: string, counter: nat, seen: set<string>, name: string, r: Record)
    requires Appended(rs, attempt, counter, seen) && name !in seen + Sources(rs, attempt)
    requires r == Record(counter + |rs| + 1, attempt, Some(name))
    ensures Appended(rs + [r], attempt, counter, seen)
    ensures f + Entries(rs) + Entry(r) == f + Entries(rs + [r])
    ensures seen + Sources(rs, attempt) + {name} == seen + Sources(rs + [r], attempt)
  {
    hide *;
    AppendedSnoc(rs, attempt, counter, seen, name);
    EntriesSnoc(rs, r);
    SourcesSnoc(rs, r, attempt);
  }

  lemma NoneAdded(f: File, attempt: string, counter: nat, seen: set<string>)
    ensures f == f + Entries([])
    ensures Appended([], attempt, counter, seen) && seen == seen + Sources([], attempt)
  {}

  lemma NoProgress(reports: seq<nat>, reported: nat)
    ensures Progress(reports, reported, reports, reported)
  {}

  lemma UntilAll(rs: seq<Record>)
    ensures Until(rs, 0, None) == rs
  {}

  lemma SourcesSnoc(rs: seq<Record>, r: Record, attempt: string)
    ensures Sources(rs + [r], attempt)
      == Sources(rs, attempt) + (if r.attempt == attempt && r.source.Some? then {r.source.value} else {})
  {
    assert forall x :: x in rs + [r] <==> x in rs || x == r;
  }

  lemma SourcesConcat(a: seq<Record>, b: seq<Record>, attempt: string)
    ensures Sources(a + b, attempt) == Sources(a, attempt) + Sources(b, attempt)
  {
    assert forall x :: x in a + b <==> x in a || x in b;
  }

  lemma {:induction false} EntriesConcat(a: seq<Record>, b: seq<Record>)
    ensures Entries(a + b) == Entries(a) + Entries(b)
  {
    hide Entry;
    if b == [] {
      assert a + b == a;
    } else {
      var n := |b| - 1;
      EntriesConcat(a, b[..n]);
      assert (a + b)[..|a + b| - 1] == a + b[..n];
    }
  }

  // ---------------------------------------------------------------- completeness

  /** Exactly one readable record of this raw file in this attempt. */
  ghost predicate RecordedOnce(rs: seq<Record>, attempt: string, name: string) {
    exists i :: 0 <= i < |rs| && rs[i].attempt == attempt && rs[i].source == Some(name)
      && forall j :: 0 <= j < |rs| && rs[j].attempt == attempt && rs[j].source == Some(name) ==> j == i
  }

  /** After a watcher that started from the log's own receipts has appended, everything it has seen is
      recorded exactly once if and only if the tail was clean or nothing had to be appended. */
  lemma SeenIsRecorded(f: File, rs: seq<Record>, attempt: string, seen: set<string>)
    requires Good(f) && seen == Sources(Events(f), attempt)
    requires Appended(rs, attempt, MaxSeq(Events(f)), seen)
    ensures (forall n :: n in seen + Sources(rs, attempt) ==> RecordedOnce(Events(f + Entries(rs)), attempt, n))
      <==> Read(f).line.Blank? || rs == []
  {
    hide Good, Read, Events, Sources, Appended, Entries, RecordedOnce, MaxSeq;
    if rs == [] {
      NothingAppended(f, attempt, seen);
    } else if Read(f).line.Blank? {
      CleanRecordsAll(f, rs, attempt, seen);
    } else {
      TornLosesOne(f, rs, attempt, seen);
    }
  }

  /** Every file listed and parsable at this moment has exactly one readable record. */
  ghost predicate AllRecorded(w: World, t: nat, log: File, attempt: string) {
    forall n :: n in w.listing(t) && w.parsable(t, n) ==> RecordedOnce(Events(log), attempt, n)
  }

  /** Every file listed and parsable at this moment has a receipt in the log. */
  ghost predicate AllReceipted(w: World, t: nat, f: File, attempt: string) {
    forall n :: n in w.listing(t) && w.parsable(t, n) ==> n in Sources(Events(f), attempt)
  }

  /** No listed file becomes parsable while the final scan, which began at t, goes over the listing. */
  ghost predicate Settled(w: World, t: nat) {
    forall n :: n in w.listing(t) && w.parsable(t + |w.listing(t)|, n) ==> w.parsable(t, n)
  }

  /** Observe a raw directory from a log to the end. On a clean tail every parsable raw file that was there
      when the stop was seen, or earlier, has exactly one readable record, under any arrivals. On a torn tail
      that is so, once the files have settled, if and only if there was none without a receipt. */
  method ObserveAttempt(f: File, attempt: string, w: World, deadline: nat) returns (log: File, began: nat)
    requires Good(f) && Develops(w) && w.stopped(deadline)
    ensures w.stopped(began) && f <= log
    ensures Read(f).line.Blank? ==> forall t: nat :: t <= began ==> AllRecorded(w, t, log, attempt)
    ensures Settled(w, began) ==>
              (AllRecorded(w, began, log, attempt) <==> Read(f).line.Blank? || AllReceipted(w, began, f, attempt))
  {
    hide *;
    var watcher := new Watcher(f, attempt);
    var seen := watcher.seen;
    var added;
    began, added := watcher.Run(w, deadline);
    log := watcher.file;
    SeenIsRecorded(f, added, attempt, seen);
    Lengths(f, added);
    SeenCovers(w, began, log, attempt, watcher.seen);
    if Settled(w, began) { WhenSettled(f, added, attempt, w, began, watcher.seen); }
  }

  lemma SeenCovers(w: World, began: nat, log: File, attempt: string, seen: set<string>)
    requires forall t: nat, n: string :: t <= began && n in w.listing(t) && w.parsable(t, n) ==> n in seen
    ensures (forall n :: n in seen ==> RecordedOnce(Events(log), attempt, n)) ==>
              forall t: nat :: t <= began ==> AllRecorded(w, t, log, attempt)
  {
    hide RecordedOnce, Events;
  }

  lemma WhenSettled(f: File, rs: seq<Record>, attempt: string, w: World, began: nat, seen: set<string>)
    requires Good(f) && Appended(rs, attempt, MaxSeq(Events(f)), Sources(Events(f), attempt))
    requires seen == Sources(Events(f), attempt) + Sources(rs, attempt) && Settled(w, began)
    requires FromFiles(rs, w, w.listing(began), began + |w.listing(began)|)
    requires forall n :: n in w.listing(began) && w.parsable(began, n) ==> n in seen
    ensures AllRecorded(w, began, f + Entries(rs), attempt)
      <==> Read(f).line.Blank? || AllReceipted(w, began, f, attempt)
  {
    hide *;
    SeenIsRecorded(f, rs, attempt, Sources(Events(f), attempt));
    if rs != [] && !Read(f).line.Blank? {
      TornLosesFirst(f, rs, attempt, Sources(Events(f), attempt));
      FirstIsUnreceipted(f, rs, attempt, w, began);
      NotAll(w, began, f, f + Entries(rs), attempt, rs[0].source.value);
    } else {
      AllAreSeen(f, rs, attempt, w, began, seen);
    }
  }

  lemma FirstIsUnreceipted(f: File, rs: seq<Record>, attempt: string, w: World, began: nat)
    requires rs != [] && Appended(rs, attempt, MaxSeq(Events(f)), Sources(Events(f), attempt)) && Settled(w, began)
    requires FromFiles(rs, w, w.listing(began), began + |w.listing(began)|)
    ensures rs[0].source.Some? && rs[0].source.value !in Sources(Events(f), attempt)
    ensures rs[0].source.value in w.listing(began) && w.parsable(began, rs[0].source.value)
  {
    hide Events, MaxSeq, Sources;
    assert rs[0] in rs && Stamped(rs[0], attempt, MaxSeq(Events(f)) + 1, Sources(Events(f), attempt));
  }

  lemma NotAll(w: World, t: nat, f: File, log: File, attempt: string, n: string)
    requires n in w.listing(t) && w.parsable(t, n)
    ensures !RecordedOnce(Events(log), attempt, n) ==> !AllRecorded(w, t, log, attempt)
    ensures n !in Sources(Events(f), attempt) ==> !AllReceipted(w, t, f, attempt)
  {
    hide RecordedOnce, Events, Sources;
  }

  lemma AllAreSeen(f: File, rs: seq<Record>, attempt: string, w: World, t: nat, seen: set<string>)
    requires seen == Sources(Events(f), attempt) + Sources(rs, attempt)
    requires forall n :: n in w.listing(t) && w.parsable(t, n) ==> n in seen
    requires forall n :: n in seen ==> RecordedOnce(Events(f + Entries(rs)), attempt, n)
    ensures AllRecorded(w, t, f + Entries(rs), attempt) && (rs == [] ==> AllReceipted(w, t, f, attempt))
  {
    hide RecordedOnce, Events, Entries;
    NoSources(attempt);
  }

  lemma Lengths(f: File, rs: seq<Record>)
    ensures f <= f + Entries(rs) && (f + Entries(rs) == f ==> rs == [])
  {
    if rs != [] { assert |Entry(rs[|rs| - 1])| == 4 && |f + Entries(rs)| > |f|; }
  }

  lemma NothingAppended(f: File, attempt: string, seen: set<string>)
    requires Good(f) && seen == Sources(Events(f), attempt)
    ensures forall n :: n in seen + Sources([], attempt) ==> RecordedOnce(Events(f + Entries([])), attempt, n)
  {
    assert f + Entries([]) == f && seen + Sources([], attempt) == seen;
    SourcesOnce(Events(f), attempt);
  }

  lemma CleanRecordsAll(f: File, rs: seq<Record>, attempt: string, seen: set<string>)
    requires Good(f) && seen == Sources(Events(f), attempt) && Read(f).line.Blank?
    requires Appended(rs, attempt, MaxSeq(Events(f)), seen)
    ensures forall n :: n in seen + Sources(rs, attempt) ==> RecordedOnce(Events(f + Entries(rs)), attempt, n)
  {
    CleanEvents(f, rs);
    assert UniqueSources(Events(f));
    hide *;
    JoinOnce(Events(f), rs, attempt, MaxSeq(Events(f)), seen);
    SourcesConcat(Events(f), rs, attempt);
    SourcesOnce(Events(f) + rs, attempt);
  }

  lemma CleanEvents(f: File, rs: seq<Record>)
    requires Read(f).line.Blank?
    ensures Events(f + Entries(rs)) == Events(f) + rs
  {
    ReadEntries(f, rs);
  }

  lemma TornLosesOne(f: File, rs: seq<Record>, attempt: string, seen: set<string>)
    requires rs != [] && seen == Sources(Events(f), attempt) && !Read(f).line.Blank?
    requires Appended(rs, attempt, MaxSeq(Events(f)), seen)
    ensures exists n :: n in seen + Sources(rs, attempt) && !RecordedOnce(Events(f + Entries(rs)), attempt, n)
  {
    TornLosesFirst(f, rs, attempt, seen);
  }

  /** On a torn tail the first file appended is the one without a record. */
  lemma TornLosesFirst(f: File, rs: seq<Record>, attempt: string, seen: set<string>)
    requires rs != [] && seen == Sources(Events(f), attempt) && !Read(f).line.Blank?
    requires Appended(rs, attempt, MaxSeq(Events(f)), seen)
    ensures rs[0].source.Some? && rs[0].source.value in Sources(rs, attempt)
    ensures !RecordedOnce(Events(f + Entries(rs)), attempt, rs[0].source.value)
  {
    ReadEntries(f, rs);
    var after := Events(f + Entries(rs));
    assert after == Read(f).done + rs[1..];
    assert forall r :: r in Read(f).done ==> r in Events(f);
    hide Read, Events, Sources, Appended, Entries, RecordedOnce, MaxSeq;
    FirstIsLost(Events(f), after, rs, attempt, MaxSeq(Events(f)), seen);
  }

  lemma SourcesOnce(rs: seq<Record>, attempt: string)
    requires UniqueSources(rs)
    ensures forall n :: n in Sources(rs, attempt) ==> RecordedOnce(rs, attempt, n)
  {
    forall n | n in Sources(rs, attempt) ensures RecordedOnce(rs, attempt, n) {
      var r :| r in rs && r.attempt == attempt && r.source == Some(n);
      var i :| 0 <= i < |rs| && rs[i] == r;
      assert forall j :: 0 <= j < |rs| && rs[j].attempt == attempt && rs[j].source == Some(n) ==> j == i;
    }
  }

  lemma JoinOnce(a: seq<Record>, b: seq<Record>, attempt: string, counter: nat, seen: set<string>)
    requires UniqueSources(a) && seen == Sources(a, attempt) && Appended(b, attempt, counter, seen)
    ensures UniqueSources(a + b)
  {
    forall i, j | 0 <= i < |a| && 0 <= j < |b| && a[i].attempt == b[j].attempt && a[i].source.Some?
      ensures a[i].source != b[j].source
    {
      assert Stamped(b[j], attempt, counter + 1 + j, seen);
      assert a[i] in a;
      if a[i].attempt == attempt { assert a[i].source.value in Sources(a, attempt); }
    }
  }

  lemma FirstIsLost(before: seq<Record>, after: seq<Record>, rs: seq<Record>, attempt: string, counter: nat, seen: set<string>)
    requires rs != [] && seen == Sources(before, attempt) && Appended(rs, attempt, counter, seen)
    requires forall r :: r in after ==> r in before || r in rs[1..]
    ensures rs[0].source.Some? && rs[0].source.value in Sources(rs, attempt)
    ensures !RecordedOnce(after, attempt, rs[0].source.value)
  {
    assert Stamped(rs[0], attempt, counter + 1, seen) && rs[0] in rs;
    forall r | r in after && r.attempt == attempt && r.source.Some? ensures r.source != rs[0].source {
      if r in before {
        assert r.source.value in Sources(before, attempt);
      } else {
        var k :| 0 <= k < |rs| - 1 && rs[1..][k] == r;
        assert rs[0].source != rs[k + 1].source;
      }
    }
  }

  // ---------------------------------------------------------------- a log cut by a crash

  const CRASHED: seq<Act> := [Start("run"), Write(Some("1.json"), false), Lose(1, false)]

  /** A crash right after the body of the first record leaves that body without its newline. */
  lemma CrashLeavesBody()
    ensures Run(EMPTY_LOG, CRASHED) == Log([Body(Record(1, "run", Some("1.json")))], 0, None)
  {
    var r := Record(1, "run", Some("1.json"));
    assert CRASHED[..2][..1] == [Start("run")] && [Start("run")][..0] == [] && CRASHED[..2] == [Start("run"), Write(Some("1.json"), false)];
    assert Run(EMPTY_LOG, []) == EMPTY_LOG;
    assert Events([]) == [] && MaxSeq([]) == 0 && Sources([], "run") == {};
    assert Run(EMPTY_LOG, [Start("run")]) == Log([], 0, Some(Observer(0, "run", {})));
    var l := Run(EMPTY_LOG, CRASHED[..2]);
    assert l == Log([] + Entry(r), 0, Some(Observer(1, "run", {} + {"1.json"})));
    assert l.file[..1] == [Body(r)] && [Body(r)] + [] == [Body(r)];
    assert MayLose(l, 1, false);
    assert Run(EMPTY_LOG, CRASHED) == Perform(l, Lose(1, false));
  }

  lemma LoneBody(r: Record)
    ensures Read([Body(r)]) == View([], false, Event(r)) && Events([Body(r)]) == [r]
  {
    assert Read([]) == View([], false, Blank) && [Body(r)][..0] == [];
    assert [] + [r] == [r];
  }

  /** After that crash the next observer's first record glues itself to the body: neither is readable. */
  lemma CrashLosesRecord()
    ensures var f := Run(EMPTY_LOG, CRASHED).file;
            var rs := [Record(2, "run", Some("2.json"))];
            && Good(f) && Sources(Events(f), "run") == {"1.json"} && Appended(rs, "run", MaxSeq(Events(f)), {"1.json"})
            && Events(f + Entries(rs)) == []
  {
    CrashLeavesBody();
    RunOrdered(CRASHED);
    hide Run, Good;
    var f, r := Run(EMPTY_LOG, CRASHED).file, Record(1, "run", Some("1.json"));
    LoneBody(r);
    var rs := [Record(2, "run", Some("2.json"))];
    assert MaxSeq([]) == 0 && [r][..0] == [];
    assert MaxSeq([r]) == 1 && Sources([r], "run") == {"1.json"};
    assert Stamped(rs[0], "run", 2, {"1.json"});
    ReadEntries(f, rs);
    hide Read, MaxSeq, Sources, Entries;
    assert rs[1..] == [];
    NothingReadable(f + Entries(rs));
  }

  lemma NothingReadable(f: File)
    requires Read(f).done == [] && Read(f).line.Blank?
    ensures Events(f) == []
  {}

  // ---------------------------------------------------------------- cleanup

  datatype RawFile = RawFile(name: string, regularJson: bool)
  datatype Report = Report(removed: set<string>, retained: nat, stdoutRemoved: bool, synced: bool)

  /** A line that stops the cleanup: it parses as no JSON value. */
  predicate Unreadable(f: File) { Read(f).torn || Read(f).line.Broken? }

  /** Delete raw files of an exited attempt that have receipts in the log; one unreadable line, and
      nothing is deleted. The log is made durable before the first deletion. */
  method CleanupOutput(f: File, attempt: string, directory: seq<RawFile>, stdout: bool) returns (report: Report)
    ensures Unreadable(f) ==> report == Report({}, 0, false, false)
    ensures forall n :: n in report.removed ==>
              (exists r :: r in Events(f) && r.attempt == attempt && r.source == Some(n)) && exists e :: e in directory && e.name == n && e.regularJson
    ensures !Unreadable(f) ==>
              && report.synced
              && report.removed == (set e | e in directory && e.regularJson && e.name in Sources(Events(f), attempt) :: e.name)
              && (report.stdoutRemoved <==> stdout && Sources(Events(f), attempt) != {}
                                            && forall e :: e in directory ==> e.regularJson && e.name in Sources(Events(f), attempt))
  {
    var receipts := ReadReceipts(f, attempt);
    if receipts.None? { return Report({}, 0, false, false); }
    report := DeleteAgainst(receipts.value, directory, stdout);
  }

  /** The receipts of one attempt, unless some line parses as no JSON value. */
  method ReadReceipts(f: File, attempt: string) returns (receipts: Option<set<string>>)
    ensures receipts.None? <==> Unreadable(f)
    ensures receipts.Some? ==> receipts.value == Sources(Events(f), attempt)
  {
    hide *;
    var lines := Lines(f);
    var known: set<string> := {};
    NoLines(lines);
    LinesAreEvents(f);
    UnreadableIsALine(f);
    NoSources(attempt);
    for i := 0 to |lines|
      invariant known == Sources(EventsOf(lines[..i]), attempt)
      invariant forall k :: 0 <= k < i ==> !lines[k].Broken? && !lines[k].Blank?
    {
      var line := lines[i];
      if line.Broken? || line.Blank? {
        assert line in lines;
        return None;
      }
      LineSources(lines[..i], line, attempt);
      assert lines[..i + 1] == lines[..i] + [line];
      if line.Event? && line.rec.attempt == attempt && line.rec.source.Some? { known := known + {line.rec.source.value}; }
    }
    assert lines[..|lines|] == lines;
    return Some(known);
  }

  lemma NoLines(lines: seq<Line>)
    ensures EventsOf(lines[..0]) == []
  {}

  lemma LineSources(lines: seq<Line>, line: Line, attempt: string)
    ensures Sources(EventsOf(lines + [line]), attempt)
      == Sources(EventsOf(lines), attempt)
         + (if line.Event? && line.rec.attempt == attempt && line.rec.source.Some? then {line.rec.source.value} else {})
  {
    EventsOfSnoc(lines, line);
    hide EventsOf, Sources;
    if line.Event? { SourcesSnoc(EventsOf(lines), line.rec, attempt); }
    else { assert EventsOf(lines) + [] == EventsOf(lines); }
  }

  lemma NoSources(attempt: string)
    ensures Sources([], attempt) == {}
  {}

  method DeleteAgainst(receipts: set<string>, directory: seq<RawFile>, stdout: bool) returns (report: Report)
    ensures report.synced
    ensures report.removed == (set e | e in directory && e.regularJson && e.name in receipts :: e.name)
    ensures report.stdoutRemoved <==> stdout && receipts != {} && forall e :: e in directory ==> e.regularJson && e.name in receipts
  {
    var removed: set<string>, retained := {}, 0;
    for i := 0 to |directory|
      invariant removed == set k | 0 <= k < i && directory[k].regularJson && directory[k].name in receipts :: directory[k].name
      invariant retained == 0 <==> forall k :: 0 <= k < i ==> directory[k].regularJson && directory[k].name in receipts
    {
      if directory[i].name in receipts && directory[i].regularJson {
        removed := removed + {directory[i].name};
      } else {
        retained := retained + 1;
      }
    }
    report := Report(removed, retained, stdout && receipts != {} && retained == 0, true);
  }

  lemma UnreadableIsALine(f: File)
    ensures Unreadable(f) <==> exists x :: x in Lines(f) && (x.Broken? || x.Blank?)
  {
    FinishedIsDone(f);
    var line := Read(f).line;
    assert forall x :: x in Lines(f) <==> x in Finished(f) || (x == line && !line.Blank?);
  }

  // ---------------------------------------------------------------- conservation

  lemma {:induction false} DoneGrows(f: File, g: File)
    requires f <= g
    ensures Read(f).done <= Read(g).done
    decreases |g|
  {
    if |f| < |g| {
      DoneGrows(f, g[..|g| - 1]);
    } else {
      assert f == g;
    }
  }

  lemma {:induction false} SyncedStays(l: Log, acts: seq<Act>, f: File)
    requires f <= l.file && |f| <= l.synced <= |l.file|
    ensures f <= Run(l, acts).file && |f| <= Run(l, acts).synced <= |Run(l, acts).file|
  {
    hide Events, Entry, MaxSeq, Sources;
    if acts != [] { SyncedStays(l, acts[..|acts| - 1], f); }
  }

  /** A receipt that justified a deletion survives every later append, restart and crash if and only if
      it stands on a finished line; an unterminated last record is lost to the next append. */
  lemma ReceiptSurvives(f: File, observer: Option<Observer>, attempt: string, name: string)
    requires Good(f) && name in Sources(Events(f), attempt)
    ensures (forall acts :: name in Sources(Events(Run(Log(f, |f|, observer), acts).file), attempt))
      <==> name in Sources(Read(f).done, attempt)
  {
    var l := Log(f, |f|, observer);
    if name in Sources(Read(f).done, attempt) {
      forall acts ensures name in Sources(Events(Run(l, acts).file), attempt) {
        hide Sources, Read;
        SyncedStays(l, acts, f);
        DoneGrows(f, Run(l, acts).file);
        StillRecorded(Read(f).done, Events(Run(l, acts).file), attempt, name);
      }
    } else {
      var acts := [Start(attempt), Write(None, false)];
      LosingWrite(l, attempt);
      assert name !in Sources(Events(Run(l, acts).file), attempt) by { hide Run; }
    }
  }

  /** A crash, a cleanup that makes the log durable and deletes against it, and one more append: the receipt
      that justified the deletion is gone. */
  lemma CleanedReceiptIsLost()
    ensures var f := Run(EMPTY_LOG, CRASHED).file;
            && !Unreadable(f) && "1.json" in Sources(Events(f), "run")
            && "1.json" !in Sources(Events(Run(Log(f, |f|, None), [Start("run"), Write(None, false)]).file), "run")
  {
    CrashLeavesBody();
    var f, r := Run(EMPTY_LOG, CRASHED).file, Record(1, "run", Some("1.json"));
    LoneBody(r);
    assert r in Events(f);
    LosingWrite(Log(f, |f|, None), "run");
    hide Run;
  }

  lemma StillRecorded(a: seq<Record>, b: seq<Record>, attempt: string, name: string)
    requires a <= b && name in Sources(a, attempt)
    ensures name in Sources(b, attempt)
  {
    var r :| r in a && r.attempt == attempt && r.source == Some(name);
    assert r in b;
  }

  lemma TwoActs(l: Log, a: Act, b: Act)
    ensures Run(l, [a, b]) == Perform(Perform(l, a), b)
  {
    hide Perform;
    assert [a, b][..1] == [a] && [a][..0] == [];
    assert Run(l, [a]) == Perform(Run(l, []), a);
  }

  lemma LosingWrite(l: Log, attempt: string)
    requires Read(l.file).line.Event?
    ensures Events(Run(l, [Start(attempt), Write(None, false)]).file) == Read(l.file).done
  {
    TwoActs(l, Start(attempt), Write(None, false));
    var r := Record(MaxSeq(Events(l.file)) + 1, attempt, None);
    StartThenWrite(l, attempt, r);
    ReadEntry(l.file, r);
    hide Read, Run, Perform, Entry, MaxSeq;
    assert Events(l.file + Entry(r)) == Read(l.file + Entry(r)).done + [];
  }

  lemma StartThenWrite(l: Log, attempt: string, r: Record)
    requires r == Record(MaxSeq(Events(l.file)) + 1, attempt, None)
    ensures Perform(Perform(l, Start(attempt)), Write(None, false)).file == l.file + Entry(r)
  {
    hide Events, MaxSeq, Sources, Entry;
  }
}
