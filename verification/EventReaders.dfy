/** Reading the event log: sequence recovery, range reads with an early stop, and tailing. */
module EventReaders {
  import opened Wrappers
  import opened EventLog

  /** The lines a file iteration yields; an unterminated last line counts when it is not empty. */
  function Finished(f: File): seq<Line> {
    if f == [] then [] else
    var before := Finished(f[..|f| - 1]);
    if f[|f| - 1].Newline? then before + [Read(f[..|f| - 1]).line] else before
  }

  function Lines(f: File): seq<Line> {
    Finished(f) + (if Read(f).line.Blank? then [] else [Read(f).line])
  }

  function EventsOf(lines: seq<Line>): seq<Record> {
    if lines == [] then [] else
    EventsOf(lines[..|lines| - 1]) + (if lines[|lines| - 1].Event? then [lines[|lines| - 1].rec] else [])
  }

  lemma EventsOfSnoc(lines: seq<Line>, x: Line)
    ensures EventsOf(lines + [x]) == EventsOf(lines) + (if x.Event? then [x.rec] else [])
  {
    assert (lines + [x])[..|lines|] == lines;
  }

  lemma {:induction false} FinishedIsDone(f: File)
    ensures EventsOf(Finished(f)) == Read(f).done
    ensures Read(f).torn <==> exists x :: x in Finished(f) && (x.Broken? || x.Blank?)
  {
    if f != [] {
      FinishedIsDone(f[..|f| - 1]);
      var x := Read(f[..|f| - 1]).line;
      EventsOfSnoc(Finished(f[..|f| - 1]), x);
      if f[|f| - 1].Newline? {
        assert Finished(f)[|Finished(f)| - 1] == x;
        assert forall y :: y in Finished(f) <==> y in Finished(f[..|f| - 1]) || y == x;
      }
    }
  }

  lemma LinesAreEvents(f: File)
    ensures EventsOf(Lines(f)) == Events(f)
  {
    FinishedIsDone(f);
    EventsOfSnoc(Finished(f), Read(f).line);
    assert Finished(f) + [] == Finished(f);
  }

  lemma MaxSeqSnoc(rs: seq<Record>, r: Record)
    ensures MaxSeq(rs + [r]) == if r.seqNo > MaxSeq(rs) then r.seqNo else MaxSeq(rs)
  {
    assert (rs + [r])[..|rs|] == rs;
  }

  method RecoverSeq(f: File) returns (last: nat)
    ensures last == MaxSeq(Events(f))
  {
    var lines := Lines(f);
    last := 0;
    LinesAreEvents(f);
    assert MaxSeq(EventsOf(lines[..0])) == 0;
    hide *;
    for i := 0 to |lines|
      invariant last == MaxSeq(EventsOf(lines[..i]))
    {
      assert lines[..i + 1] == lines[..i] + [lines[i]];
      EventsOfSnoc(lines[..i], lines[i]);
      if lines[i].Event? {
        MaxSeqSnoc(EventsOf(lines[..i]), lines[i].rec);
        if lines[i].rec.seqNo > last { last := lines[i].rec.seqNo; }
      } else {
        assert EventsOf(lines[..i]) + [] == EventsOf(lines[..i]);
      }
    }
    assert lines[..|lines|] == lines;
  }

  // ---------------------------------------------------------------- ranges

  predicate Wanted(r: Record, from: int, to: Option<int>) { from <= r.seqNo && (to.Some? ==> r.seqNo <= to.value) }

  /** The plain range filter. */
  function Between(rs: seq<Record>, from: int, to: Option<int>): seq<Record> {
    if rs == [] then [] else
    Between(rs[..|rs| - 1], from, to) + (if Wanted(rs[|rs| - 1], from, to) then [rs[|rs| - 1]] else [])
  }

  /** Reading stops at the first record beyond the range. */
  function Until(rs: seq<Record>, from: int, to: Option<int>): seq<Record> {
    if rs == [] then []
    else if rs[0].seqNo < from then Until(rs[1..], from, to)
    else if to.Some? && rs[0].seqNo > to.value then []
    else [rs[0]] + Until(rs[1..], from, to)
  }

  lemma {:induction false} BetweenCons(r: Record, rs: seq<Record>, from: int, to: Option<int>)
    ensures Between([r] + rs, from, to) == (if Wanted(r, from, to) then [r] else []) + Between(rs, from, to)
  {
    if rs == [] {
      assert [r] + rs == [r] && [r][..0] == [];
      assert Between([r], from, to) == Between([r][..0], from, to) + (if Wanted(r, from, to) then [r] else []);
    } else {
      BetweenCons(r, rs[..|rs| - 1], from, to);
      assert ([r] + rs)[..|rs|] == [r] + rs[..|rs| - 1];
    }
  }

  lemma {:induction false} NoneBeyond(rs: seq<Record>, from: int, to: Option<int>)
    requires to.Some? && forall r :: r in rs ==> r.seqNo > to.value
    ensures Between(rs, from, to) == []
  {
    if rs != [] { NoneBeyond(rs[..|rs| - 1], from, to); }
  }

  /** On increasing records the early stop loses nothing: it is the plain filter. */
  lemma {:induction false} StopIsFilter(rs: seq<Record>, from: int, to: Option<int>)
    requires Increasing(rs)
    ensures Until(rs, from, to) == Between(rs, from, to)
  {
    if rs != [] {
      IncreasingTail(rs);
      assert Increasing(rs[1..]) && forall r :: r in rs[1..] ==> r.seqNo > rs[0].seqNo;
      hide Increasing;
      assert rs == [rs[0]] + rs[1..];
      BetweenCons(rs[0], rs[1..], from, to);
      StopIsFilter(rs[1..], from, to);
      hide Between;
      if to.Some? && rs[0].seqNo > to.value { NoneBeyond(rs[1..], from, to); }
      assert [] + Between(rs[1..], from, to) == Between(rs[1..], from, to);
    }
  }

  lemma IncreasingTail(rs: seq<Record>)
    requires Increasing(rs) && rs != []
    ensures Increasing(rs[1..]) && forall r :: r in rs[1..] ==> r.seqNo > rs[0].seqNo
  {
    forall r | r in rs[1..] ensures r.seqNo > rs[0].seqNo {
      var i :| 0 <= i < |rs| - 1 && rs[1..][i] == r;
      assert rs[0].seqNo < rs[i + 1].seqNo;
    }
  }

  method ReadRange(f: File, from: int, to: Option<int>) returns (out: seq<Record>)
    ensures out == Until(Events(f), from, to)
  {
    var lines := Lines(f);
    out := [];
    LinesAreEvents(f);
    EventsFromAll(lines, 0);
    assert Events(f) == EventsFrom(lines, 0);
    hide Events, Lines, EventsOf;
    var i := 0;
    while i < |lines|
      invariant i <= |lines|
      invariant Until(Events(f), from, to) == out + Until(EventsFrom(lines, i), from, to)
    {
      if lines[i].Event? {
        var r := lines[i].rec;
        assert EventsFrom(lines, i)[1..] == EventsFrom(lines, i + 1);
        if r.seqNo >= from {
          if to.Some? && r.seqNo > to.value { return; }
          assert out + ([r] + Until(EventsFrom(lines, i + 1), from, to)) == out + [r] + Until(EventsFrom(lines, i + 1), from, to);
          out := out + [r];
        }
      } else {
        assert EventsFrom(lines, i) == EventsFrom(lines, i + 1);
      }
      i := i + 1;
    }
  }

  /** The events of the lines from the i-th on. */
  function EventsFrom(lines: seq<Line>, i: nat): seq<Record>
    requires i <= |lines|
    decreases |lines| - i
  {
    if i == |lines| then [] else (if lines[i].Event? then [lines[i].rec] else []) + EventsFrom(lines, i + 1)
  }

  lemma {:induction false} EventsFromAll(lines: seq<Line>, i: nat)
    requires i <= |lines|
    ensures EventsOf(lines) == EventsOf(lines[..i]) + EventsFrom(lines, i)
    decreases |lines| - i
  {
    if i == |lines| {
      assert lines[..i] == lines;
    } else {
      EventsFromAll(lines, i + 1);
      assert lines[..i + 1] == lines[..i] + [lines[i]];
      EventsOfSnoc(lines[..i], lines[i]);
    }
  }

  // ---------------------------------------------------------------- tailing

  /** What a tail yields over successive sights of the file: each drains what lies beyond the last. */
  function Drained(views: seq<File>, from: int): seq<Record> {
    if views == [] then [] else
    var before := Drained(views[..|views| - 1], from);
    before + Until(Events(views[|views| - 1]), Cursor(before, from) + 1, None)
  }

  function Cursor(yielded: seq<Record>, from: int): int {
    if yielded == [] then from - 1 else yielded[|yielded| - 1].seqNo
  }

  method TailEvents(views: seq<File>, from: int) returns (yielded: seq<Record>)
    ensures yielded == Drained(views, from)
  {
    yielded := [];
    var last := from - 1;
    for i := 0 to |views|
      invariant yielded == Drained(views[..i], from) && last == Cursor(yielded, from)
    {
      assert views[..i + 1][..i] == views[..i];
      var batch := ReadRange(views[i], last + 1, None);
      yielded := yielded + batch;
      if batch != [] { last := batch[|batch| - 1].seqNo; }
    }
    assert views[..|views|] == views;
  }

  lemma {:induction false} BetweenIncreasing(rs: seq<Record>, from: int, to: Option<int>)
    requires Increasing(rs)
    ensures Increasing(Between(rs, from, to))
    ensures forall r :: r in Between(rs, from, to) <==> r in rs && Wanted(r, from, to)
  {
    if rs != [] {
      var n := |rs| - 1;
      BetweenIncreasing(rs[..n], from, to);
      var before := Between(rs[..n], from, to);
      forall i | 0 <= i < |before| ensures before[i].seqNo < rs[n].seqNo {
        assert before[i] in rs[..n];
        var k :| 0 <= k < n && rs[..n][k] == before[i];
        assert rs[k].seqNo < rs[n].seqNo;
      }
    }
  }

  /** One more batch after what was yielded so far. */
  lemma BatchIncreasing(before: seq<Record>, rs: seq<Record>, from: int)
    requires Increasing(before) && Increasing(rs) && forall r :: r in before ==> r.seqNo >= from
    ensures var all := before + Until(rs, Cursor(before, from) + 1, None);
            Increasing(all) && forall r :: r in all ==> r.seqNo >= from
  {
    var batch := Until(rs, Cursor(before, from) + 1, None);
    assert before != [] ==> before[|before| - 1] in before;
    StopIsFilter(rs, Cursor(before, from) + 1, None);
    BetweenIncreasing(rs, Cursor(before, from) + 1, None);
    hide Until, Between;
    assert forall j :: 0 <= j < |batch| ==> batch[j] in batch;
  }

  /** A tail never yields one sequence number twice, nor one below its start: whatever views it gets,
      torn ones included. */
  lemma {:induction false} TailNeverRepeats(views: seq<File>, from: int)
    requires forall v :: v in views ==> Increasing(Events(v))
    ensures Increasing(Drained(views, from)) && forall r :: r in Drained(views, from) ==> r.seqNo >= from
  {
    hide Events, Until, Increasing;
    if views == [] {
      assert Increasing([]) by { NothingIncreases(); }
    } else {
      var n := |views| - 1;
      TailNeverRepeats(views[..n], from);
      assert views[n] in views;
      BatchIncreasing(Drained(views[..n], from), Events(views[n]), from);
    }
  }

  lemma NothingIncreases()
    ensures Increasing([])
  {}

  lemma DrainedStep(views: seq<File>, from: int)
    requires views != []
    ensures var before := Drained(views[..|views| - 1], from);
            Drained(views, from) == before + Until(Events(views[|views| - 1]), Cursor(before, from) + 1, None)
  {}

  lemma {:induction false} BetweenConcat(a: seq<Record>, b: seq<Record>, from: int, to: Option<int>)
    ensures Between(a + b, from, to) == Between(a, from, to) + Between(b, from, to)
  {
    if b == [] {
      assert a + b == a;
    } else {
      assert (a + b)[..|a + b| - 1] == a + b[..|b| - 1];
      BetweenConcat(a, b[..|b| - 1], from, to);
    }
  }

  lemma {:induction false} BetweenNone(rs: seq<Record>, from: int)
    requires forall r :: r in rs ==> r.seqNo < from
    ensures Between(rs, from, None) == []
  {
    if rs != [] { BetweenNone(rs[..|rs| - 1], from); }
  }

  lemma {:induction false} BetweenSame(rs: seq<Record>, from: int, low: int)
    requires forall r :: r in rs ==> (r.seqNo >= from <==> r.seqNo >= low)
    ensures Between(rs, from, None) == Between(rs, low, None)
  {
    if rs != [] { BetweenSame(rs[..|rs| - 1], from, low); }
  }

  /** While the readable records only grow, a tail has yielded exactly the readable records at or
      above its start: each once, none missing. */
  lemma {:induction false} TailComplete(views: seq<File>, from: int)
    requires views != [] && forall v :: v in views ==> Increasing(Events(v))
    requires forall i :: 0 < i < |views| ==> Events(views[i - 1]) <= Events(views[i])
    ensures Drained(views, from) == Between(Events(views[|views| - 1]), from, None)
  {
    hide Events, Increasing, Until, Between;
    var n := |views| - 1;
    DrainedStep(views, from);
    assert views[n] in views;
    if n == 0 {
      assert Drained(views[..0], from) == [];
      StopIsFilter(Events(views[0]), from, None);
    } else {
      TailComplete(views[..n], from);
      assert views[n - 1] in views && Events(views[n - 1]) <= Events(views[n]);
      DrainMore(Events(views[n - 1]), Events(views[n]), from);
    }
  }

  /** What a read of a range returns: on increasing records, exactly the readable ones within both bounds. */
  lemma RangeExactly(f: File, from: int, to: Option<int>)
    requires Increasing(Events(f))
    ensures Increasing(Until(Events(f), from, to))
    ensures forall r :: r in Until(Events(f), from, to) <==> r in Events(f) && r.seqNo >= from && (to.Some? ==> r.seqNo <= to.value)
  {
    StopIsFilter(Events(f), from, to);
    BetweenIncreasing(Events(f), from, to);
  }

  /** The documented promise, only events after the start, is kept if and only if no readable record has the
      start itself as its number. */
  lemma OnlyAfterExactly(views: seq<File>, from: int)
    requires views != [] && forall v :: v in views ==> Increasing(Events(v))
    requires forall i :: 0 < i < |views| ==> Events(views[i - 1]) <= Events(views[i])
    ensures (forall r :: r in Drained(views, from) ==> r.seqNo > from)
      <==> forall r :: r in Events(views[|views| - 1]) ==> r.seqNo != from
  {
    assert views[|views| - 1] in views;
    hide Events, Drained, Increasing, Between;
    TailComplete(views, from);
    BetweenIncreasing(Events(views[|views| - 1]), from, None);
  }

  /** A log of one record, tailed from that record's number: the record is yielded again. */
  lemma StartIsYielded(r: Record)
    ensures Events([Body(r), Newline]) == [r] && Drained([[Body(r), Newline]], r.seqNo) == [r]
  {
    var f := [Body(r), Newline];
    assert f[..1] == [Body(r)] && [Body(r)][..0] == [] && [] + [r] == [r];
    assert Read([Body(r)]) == View([], false, Event(r)) && Read(f) == View([r], false, Blank);
    var views: seq<File> := [f];
    assert views[..0] == [] && Drained([], r.seqNo) == [];
    DrainedStep(views, r.seqNo);
    OneFromItself(r);
  }

  lemma OneFromItself(r: Record)
    ensures Until([r], r.seqNo, None) == [r]
  {
    var rs: seq<Record> := [r];
    assert rs[1..] == [];
  }

  lemma DrainMore(a: seq<Record>, b: seq<Record>, from: int)
    requires Increasing(b) && a <= b
    ensures var before := Between(a, from, None);
            before + Until(b, Cursor(before, from) + 1, None) == Between(b, from, None)
  {
    var c := Cursor(Between(a, from, None), from) + 1;
    var more := b[|a|..];
    assert b == a + more;
    hide *;
    MoreIsBeyond(a, more, from);
    StopIsFilter(b, c, None);
    BetweenConcat(a, more, c, None);
    BetweenConcat(a, more, from, None);
    BetweenNone(a, c);
    BetweenSame(more, from, c);
    assert [] + Between(more, c, None) == Between(more, c, None);
  }

  lemma MoreIsBeyond(a: seq<Record>, more: seq<Record>, from: int)
    requires Increasing(a + more)
    ensures var c := Cursor(Between(a, from, None), from) + 1;
            && (forall r :: r in a ==> r.seqNo < c)
            && forall r :: r in more ==> (r.seqNo >= from <==> r.seqNo >= c)
  {
    var b := a + more;
    assert forall i :: 0 <= i < |a| ==> b[i] == a[i];
    assert forall j :: 0 <= j < |more| ==> b[|a| + j] == more[j];
    var before := Between(a, from, None);
    BetweenIncreasing(a, from, None);
    hide Between;
    forall r | r in a ensures r.seqNo <= Cursor(before, from) { LastIsGreatest(a, from, r); }
    assert before != [] ==> before[|before| - 1] in before;
    forall r, x | r in more && x in a ensures x.seqNo < r.seqNo {
      var k :| 0 <= k < |a| && a[k] == x;
      var m :| 0 <= m < |more| && more[m] == r;
      assert b[k].seqNo < b[|a| + m].seqNo;
    }
  }

  lemma LastIsGreatest(a: seq<Record>, from: int, r: Record)
    requires Increasing(a) && r in a
    ensures r.seqNo <= Cursor(Between(a, from, None), from)
  {
    BetweenIncreasing(a, from, None);
    var before := Between(a, from, None);
    if r.seqNo >= from {
      var k :| 0 <= k < |before| && before[k] == r;
    } else if before != [] {
      assert before[|before| - 1] in before;
    }
  }
}
