/** The known-secret layer as a whole: its needles, its walk over an event, and its guarantee. */
module TaintedEvents {
  import opened Json
  import opened TaintedStrings

  // ---------------------------------------------------------------- needles

  const HEX: string := "0123456789abcdef"

  function Unit(n: nat): string {
    ['\\', 'u', HEX[n / 4096 % 16], HEX[n / 256 % 16], HEX[n / 16 % 16], HEX[n % 16]]
  }

  /** One character inside a JSON string, escaped as JSON output does in either Unicode mode. */
  function EscapeChar(c: char, ascii: bool): string {
    if c == '\\' then ['\\', '\\']
    else if c == '"' then ['\\', '"']
    else if c == '\n' then ['\\', 'n']
    else if c == '\r' then ['\\', 'r']
    else if c == '\t' then ['\\', 't']
    else if c == '\U{0C}' then ['\\', 'f']
    else if c == '\U{08}' then ['\\', 'b']
    else if c < ' ' then Unit(c as int)
    else if ascii && c > '~' then
      var n := c as int;
      if n < 0x10000 then Unit(n) else Unit(0xD800 + (n - 0x10000) / 1024) + Unit(0xDC00 + (n - 0x10000) % 1024)
    else [c]
  }

  function Escape(s: string, ascii: bool): string {
    if s == "" then "" else Escape(s[..|s| - 1], ascii) + EscapeChar(s[|s| - 1], ascii)
  }

  function NeedleSet(secrets: set<string>): set<string> {
    var known := set t | t in secrets && t != "";
    known + (set t | t in known :: Escape(t, true)) + (set t | t in known :: Escape(t, false))
  }

  lemma UnitSafe(n: nat)
    ensures BracketFree(Unit(n)) && '\\' in Unit(n)
  {
    assert forall i :: 0 <= i < 16 ==> HEX[i] != '[' && HEX[i] != ']';
    assert Unit(n)[0] == '\\';
  }

  lemma EscapeCharSafe(c: char, ascii: bool)
    ensures EscapeChar(c, ascii) != "" && (EscapeChar(c, ascii) == [c] || '\\' in EscapeChar(c, ascii))
    ensures c != '[' && c != ']' ==> BracketFree(EscapeChar(c, ascii))
  {
    hide Unit;
    var n := c as int;
    UnitSafe(n);
    if n >= 0x10000 {
      UnitSafe(0xD800 + (n - 0x10000) / 1024);
      UnitSafe(0xDC00 + (n - 0x10000) % 1024);
    }
  }

  /** Escaping leaves a secret as it is, or puts a backslash into it; it never shortens it. */
  lemma {:induction false} EscapeSafe(s: string, ascii: bool)
    ensures Escape(s, ascii) == s || '\\' in Escape(s, ascii)
    ensures |Escape(s, ascii)| >= |s|
    ensures BracketFree(s) ==> BracketFree(Escape(s, ascii))
  {
    hide EscapeChar;
    if s != "" {
      var front, last := s[..|s| - 1], s[|s| - 1];
      var a, b := Escape(front, ascii), EscapeChar(last, ascii);
      EscapeSafe(front, ascii);
      EscapeCharSafe(last, ascii);
      assert s == front + [last];
      assert forall c :: c in a + b <==> c in a || c in b;
      assert forall c :: c in s <==> c in front || c == last;
    }
  }

  lemma NoEmptyNeedle(secrets: set<string>)
    ensures "" !in NeedleSet(secrets)
  {
    forall t, ascii | t != "" ensures Escape(t, ascii) != "" { EscapeSafe(t, ascii); }
  }

  // ---------------------------------------------------------------- the walk

  function Marks(s: string, needles: seq<string>, path: Path): seq<Path>
    requires "" !in needles
  {
    if needles == [] then [] else
    var last := needles[|needles| - 1];
    var before := needles[..|needles| - 1];
    Marks(s, before, path) + (if Contains(RedactString(s, before), last) then [path] else [])
  }

  function RedactTree(j: Json, needles: seq<string>): Json
    requires "" !in needles
  {
    match j
    case Str(s) => Str(RedactString(s, needles))
    case Arr(items) => Arr(seq(|items|, i requires 0 <= i < |items| => RedactTree(items[i], needles)))
    case Obj(fields) => Obj(seq(|fields|, i requires 0 <= i < |fields| => (fields[i].0, RedactTree(fields[i].1, needles))))
    case _ => j
  }

  /** The audit entries of the first k members. */
  function MarksOfItems(items: seq<Json>, needles: seq<string>, path: Path, k: nat): seq<Path>
    requires "" !in needles && k <= |items|
    decreases Arr(items), k
  {
    if k == 0 then [] else
    MarksOfItems(items, needles, path, k - 1) + MarksOfTree(items[k - 1], needles, path + [Index(k - 1)])
  }

  function MarksOfFields(fields: seq<(string, Json)>, needles: seq<string>, path: Path, k: nat): seq<Path>
    requires "" !in needles && k <= |fields|
    decreases Obj(fields), k
  {
    if k == 0 then [] else
    MarksOfFields(fields, needles, path, k - 1) + MarksOfTree(fields[k - 1].1, needles, path + [Key(fields[k - 1].0)])
  }

  function MarksOfTree(j: Json, needles: seq<string>, path: Path): seq<Path>
    requires "" !in needles
    decreases j
  {
    match j
    case Str(s) => Marks(s, needles, path)
    case Arr(items) => MarksOfItems(items, needles, path, |items|)
    case Obj(fields) => MarksOfFields(fields, needles, path, |fields|)
    case _ => []
  }

  /** No string value, at any depth, contains any needle. */
  ghost predicate CleanTree(j: Json, needles: seq<string>) {
    match j
    case Str(s) => forall t :: t in needles ==> !Contains(s, t)
    case Arr(items) => forall i :: 0 <= i < |items| ==> CleanTree(items[i], needles)
    case Obj(fields) => forall i :: 0 <= i < |fields| ==> CleanTree(fields[i].1, needles)
    case _ => true
  }

  /** Needles that no marker can complete are gone from every string, whatever the other needles are. */
  lemma {:induction false} RedactedIsClean(j: Json, needles: seq<string>, gone: seq<string>)
    requires "" !in needles && forall t :: t in gone ==> t in needles && !Completable(t)
    ensures CleanTree(RedactTree(j, needles), gone)
  {
    hide Contains, Completable;
    match j
    case Str(s) => forall t | t in gone ensures !Contains(RedactString(s, needles), t) { OneGone(s, needles, t); }
    case Arr(items) =>
      forall i | 0 <= i < |items| ensures CleanTree(RedactTree(items[i], needles), gone) { RedactedIsClean(items[i], needles, gone); }
    case Obj(fields) =>
      forall i | 0 <= i < |fields| ensures CleanTree(RedactTree(fields[i].1, needles), gone) {
        RedactedIsClean(fields[i].1, needles, gone);
      }
    case _ =>
  }

  lemma {:induction false} NoMarks(s: string, needles: seq<string>, path: Path)
    requires "" !in needles && forall t :: t in needles ==> !Contains(s, t)
    ensures Marks(s, needles, path) == []
  {
    hide Contains;
    if needles != [] {
      NoMarks(s, needles[..|needles| - 1], path);
      CleanUnchanged(s, needles[..|needles| - 1]);
    }
  }

  /** A clean event passes unchanged and fires nothing. */
  lemma {:induction false} CleanPasses(j: Json, needles: seq<string>, path: Path)
    requires "" !in needles && CleanTree(j, needles)
    ensures RedactTree(j, needles) == j && MarksOfTree(j, needles, path) == []
    decreases j, 1
  {
    hide Contains;
    match j
    case Str(s) =>
      CleanUnchanged(s, needles);
      NoMarks(s, needles, path);
    case Arr(items) =>
      forall i | 0 <= i < |items| ensures RedactTree(items[i], needles) == items[i] { CleanPasses(items[i], needles, path); }
      CleanItems(items, needles, path, |items|);
    case Obj(fields) =>
      forall i | 0 <= i < |fields| ensures RedactTree(fields[i].1, needles) == fields[i].1 { CleanPasses(fields[i].1, needles, path); }
      CleanFields(fields, needles, path, |fields|);
    case _ =>
  }

  lemma {:induction false} CleanItems(items: seq<Json>, needles: seq<string>, path: Path, k: nat)
    requires "" !in needles && k <= |items| && forall i :: 0 <= i < |items| ==> CleanTree(items[i], needles)
    ensures MarksOfItems(items, needles, path, k) == []
    decreases Arr(items), 0, k
  {
    if k > 0 {
      CleanItems(items, needles, path, k - 1);
      CleanPasses(items[k - 1], needles, path + [Index(k - 1)]);
    }
  }

  lemma {:induction false} CleanFields(fields: seq<(string, Json)>, needles: seq<string>, path: Path, k: nat)
    requires "" !in needles && k <= |fields| && forall i :: 0 <= i < |fields| ==> CleanTree(fields[i].1, needles)
    ensures MarksOfFields(fields, needles, path, k) == []
    decreases Obj(fields), 0, k
  {
    if k > 0 {
      CleanFields(fields, needles, path, k - 1);
      CleanPasses(fields[k - 1].1, needles, path + [Key(fields[k - 1].0)]);
    }
  }

  // ---------------------------------------------------------------- the layer

  /** A longest string of a non-empty set. */
  method Longest(strings: set<string>) returns (best: string)
    requires strings != {}
    ensures best in strings && forall t :: t in strings ==> |t| <= |best|
  {
    best :| best in strings;
    var rest := strings - {best};
    while rest != {}
      invariant rest <= strings && best in strings
      invariant forall t :: t in strings && t !in rest ==> |t| <= |best|
      decreases |rest|
    {
      var t :| t in rest;
      if |t| > |best| { best := t; }
      rest := rest - {t};
    }
  }

  method ByLength(strings: set<string>) returns (sorted: seq<string>)
    ensures Sorted(sorted) && forall t :: t in sorted <==> t in strings
  {
    var rest := strings;
    sorted := [];
    while rest != {}
      invariant Sorted(sorted) && rest <= strings
      invariant forall t :: t in sorted <==> t in strings && t !in rest
      invariant forall s, t :: s in sorted && t in rest ==> |t| <= |s|
      decreases |rest|
    {
      var t := Longest(rest);
      assert forall i :: 0 <= i < |sorted| ==> sorted[i] in sorted;
      sorted := sorted + [t];
      rest := rest - {t};
    }
  }

  class TaintedLayer {
    const needles: seq<string>

    /** Needles are the non-empty secrets and their escaped forms, longest first. */
    constructor (secrets: set<string>)
      ensures Sorted(needles) && "" !in needles && forall t :: t in needles <==> t in NeedleSet(secrets)
    {
      NoEmptyNeedle(secrets);
      var sorted := ByLength(NeedleSet(secrets));
      needles := sorted;
    }

    method RedactOne(s: string, path: Path, fired: seq<Path>) returns (out: string, more: seq<Path>)
      requires "" !in needles
      ensures out == RedactString(s, needles) && more == fired + Marks(s, needles, path)
    {
      hide Replace, Contains;
      out, more := s, fired;
      for i := 0 to |needles|
        invariant "" !in needles[..i]
        invariant out == RedactString(s, needles[..i]) && more == fired + Marks(s, needles[..i], path)
      {
        assert needles[..i + 1][..i] == needles[..i] && needles[i] in needles;
        if Contains(out, needles[i]) {
          out := Replace(out, needles[i], MARKER);
          more := more + [path];
        } else {
          ReplaceAbsent(out, needles[i], MARKER);
        }
      }
      assert needles[..|needles|] == needles;
    }

    /** The walk: every string member is replaced, every list and object is walked in turn. */
    method Walk(j: Json, path: Path, fired: seq<Path>) returns (out: Json, more: seq<Path>)
      requires "" !in needles
      ensures out == RedactTree(j, needles) && more == fired + MarksOfTree(j, needles, path)
      decreases j, 1
    {
      hide RedactString, Marks, MarksOfItems, MarksOfFields;
      match j
      case Str(s) =>
        var t;
        t, more := RedactOne(s, path, fired);
        out := Str(t);
      case Arr(items) =>
        var done;
        done, more := WalkItems(items, path, fired);
        out := Arr(done);
      case Obj(fields) =>
        var done;
        done, more := WalkFields(fields, path, fired);
        out := Obj(done);
      case _ =>
        out, more := j, fired;
    }

    method WalkItems(items: seq<Json>, path: Path, fired: seq<Path>) returns (done: seq<Json>, more: seq<Path>)
      requires "" !in needles
      ensures |done| == |items| && forall k :: 0 <= k < |items| ==> done[k] == RedactTree(items[k], needles)
      ensures more == fired + MarksOfItems(items, needles, path, |items|)
      decreases Arr(items), 0
    {
      hide RedactTree, MarksOfTree;
      done, more := [], fired;
      for i := 0 to |items|
        invariant |done| == i && forall k :: 0 <= k < i ==> done[k] == RedactTree(items[k], needles)
        invariant more == fired + MarksOfItems(items, needles, path, i)
      {
        var item;
        item, more := Walk(items[i], path + [Index(i)], more);
        done := done + [item];
      }
    }

    method WalkFields(fields: seq<(string, Json)>, path: Path, fired: seq<Path>) returns (done: seq<(string, Json)>, more: seq<Path>)
      requires "" !in needles
      ensures |done| == |fields| && forall k :: 0 <= k < |fields| ==> done[k] == (fields[k].0, RedactTree(fields[k].1, needles))
      ensures more == fired + MarksOfFields(fields, needles, path, |fields|)
      decreases Obj(fields), 0
    {
      hide RedactTree, MarksOfTree;
      done, more := [], fired;
      for i := 0 to |fields|
        invariant |done| == i && forall k :: 0 <= k < i ==> done[k] == (fields[k].0, RedactTree(fields[k].1, needles))
        invariant more == fired + MarksOfFields(fields, needles, path, i)
      {
        var value;
        value, more := Walk(fields[i].1, path + [Key(fields[i].0)], more);
        done := done + [(fields[i].0, value)];
      }
    }

    /** Redact an event. No needle that a marker cannot complete is left in any string at any depth; when all
        needles are such, redacting again changes nothing and fires nothing. */
    method Redact(event: Json) returns (out: Json, fired: seq<Path>)
      requires "" !in needles
      ensures out == RedactTree(event, needles) && fired == MarksOfTree(event, needles, [])
      ensures forall gone :: (forall t :: t in gone ==> t in needles && !Completable(t)) ==> CleanTree(out, gone)
      ensures Safe(needles) ==>
                CleanTree(out, needles) && RedactTree(out, needles) == out && MarksOfTree(out, needles, []) == []
    {
      if needles == [] {
        NothingTainted(event);
        CleanPasses(event, needles, []);
        out, fired := event, [];
      } else {
        out, fired := Walk(event, [], []);
      }
      forall gone: seq<string> | forall t :: t in gone ==> t in needles && !Completable(t) ensures CleanTree(out, gone) {
        RedactedIsClean(event, needles, gone);
      }
      if Safe(needles) { CleanPasses(out, needles, []); }
    }
  }

  lemma {:induction false} NothingTainted(j: Json)
    ensures CleanTree(j, [])
  {
    match j
    case Arr(items) => forall i | 0 <= i < |items| ensures CleanTree(items[i], []) { NothingTainted(items[i]); }
    case Obj(fields) => forall i | 0 <= i < |fields| ensures CleanTree(fields[i].1, []) { NothingTainted(fields[i].1); }
    case _ =>
  }

  /** One such case: a needle that reaches over a bracket is put together by another needle's marker. */
  lemma BracketsMayLeak()
    ensures Sorted(["a[", "b"]) && RedactString("ab", ["a[", "b"]) == "a" + MARKER
    ensures Contains(RedactString("ab", ["a[", "b"]), "a[")
  {
    var needles := ["a[", "b"];
    assert needles[..1] == ["a["] && needles[..1][..0] == [];
    assert Replace("ab", "a[", MARKER) == "ab" by {
      assert "ab"[1] != "a["[1] && "ab"[1..] == "b" && "b"[1..] == "";
    }
    assert Replace("ab", "b", MARKER) == "a" + MARKER by {
      assert "ab"[1..] == "b" && "b"[1..] == "" && MARKER + "" == MARKER;
    }
    assert At("a" + MARKER, "a[", 0);
  }
}
