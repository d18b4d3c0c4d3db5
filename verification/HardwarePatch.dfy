/** Patching a network device's property string: what changes, what does not, and what parses back. */
module HardwarePatch {
  import opened Wrappers
  import opened HardwareStrings

  /** A supported setting and its new value; None removes it. */
  type Change = (string, Option<string>)

  function Assign(m: Entries, key: string, value: string): Entries {
    if m == [] then [(key, value)]
    else if m[0].0 == key then [(key, value)] + m[1..] else [m[0]] + Assign(m[1..], key, value)
  }

  function Remove(m: Entries, key: string): Entries {
    if m == [] then [] else if m[0].0 == key then m[1..] else [m[0]] + Remove(m[1..], key)
  }

  /** The first k changes, in order. */
  function Apply(m: Entries, changes: seq<Change>, k: nat): Entries
    requires k <= |changes|
  {
    if k == 0 then m else
    var before := Apply(m, changes, k - 1);
    var c := changes[k - 1];
    if c.1.None? then Remove(before, c.0) else Assign(before, c.0, c.1.value)
  }

  function Patch(raw: string, changes: seq<Change>): Result<string, HardwareError> {
    var m := Parts(raw);
    if m.Err? then Err(m.error) else Ok(Print(Apply(m.value, changes, |changes|)))
  }

  method PatchNic(raw: string, changes: seq<Change>) returns (r: Result<string, HardwareError>)
    ensures r == Patch(raw, changes)
  {
    var m := ParseParts(raw);
    if m.Err? { return Err(m.error); }
    var values := m.value;
    for i := 0 to |changes|
      invariant values == Apply(m.value, changes, i)
    {
      if changes[i].1.None? {
        values := Remove(values, changes[i].0);
      } else {
        values := Assign(values, changes[i].0, changes[i].1.value);
      }
    }
    return Ok(Print(values));
  }

  // ---------------------------------------------------------------- patching nothing

  /** Some item is written with the parser's own name for a bare first item. */
  predicate LiteralFirst(raw: string) {
    exists i | 0 <= i < |Split(raw)| :: '=' in Split(raw)[i] && Cut(Split(raw)[i]).0 == FIRST
  }

  lemma {:induction false} JoinShorter(a: seq<string>, b: seq<string>)
    requires |a| == |b| && forall i :: 0 <= i < |a| ==> |a[i]| <= |b[i]|
    ensures |Join(a)| <= |Join(b)|
    ensures (exists i :: 0 <= i < |a| && |a[i]| < |b[i]|) ==> |Join(a)| < |Join(b)|
  {
    if |a| > 1 {
      JoinShorter(a[1..], b[1..]);
      if exists i :: 0 <= i < |a| && |a[i]| < |b[i]| {
        var i :| 0 <= i < |a| && |a[i]| < |b[i]|;
        if i > 0 { assert |a[1..][i - 1]| < |b[1..][i - 1]|; }
      }
    }
  }

  lemma ItemBack(item: string, index: nat, e: Entry)
    requires ParsedEntry(item, index, e) && ParseItem(item, index) == Some(e)
    ensures |Item(e)| <= |item| && (Item(e) == item <==> !('=' in item && Cut(item).0 == FIRST))
    ensures Item(e) != item ==> |Item(e)| < |item|
  {}

  lemma {:induction false} ParsedItems(items: seq<string>, k: nat, i: nat)
    requires i < k <= |items| && ParseItems(items, k).Ok?
    ensures |ParseItems(items, k).value| == k && ParseItem(items[i], i) == Some(ParseItems(items, k).value[i])
  {
    ParsedLength(items, k);
    if i < k - 1 { ParsedItems(items, k - 1, i); } else { ParsedLength(items, k - 1); }
  }

  lemma {:induction false} ParsedLength(items: seq<string>, k: nat)
    requires k <= |items| && ParseItems(items, k).Ok?
    ensures |ParseItems(items, k).value| == k
  {
    if k > 0 { ParsedLength(items, k - 1); }
  }

  /** An empty patch gives the same string back if and only if no item is literally keyed _first. */
  lemma PatchNothing(raw: string)
    requires Parts(raw).Ok?
    ensures Patch(raw, []) == Ok(raw) <==> !LiteralFirst(raw)
  {
    var m, items := Parts(raw).value, Split(raw);
    PartsShape(raw);
    JoinSplit(raw);
    forall i | 0 <= i < |m|
      ensures |Items(m)[i]| <= |items[i]| && (Items(m)[i] == items[i] <==> !('=' in items[i] && Cut(items[i]).0 == FIRST))
      ensures Items(m)[i] != items[i] ==> |Items(m)[i]| < |items[i]|
    {
      ParsedItems(items, |items|, i);
      ItemBack(items[i], i, m[i]);
    }
    hide ParsedEntry, Item, Split, Cut, Parts;
    JoinShorter(Items(m), items);
    if !LiteralFirst(raw) { assert Items(m) == items; }
  }

  /** An accepted string that an empty patch changes. */
  lemma LiteralFirstIsLost()
    ensures Parts("_first=x").Ok? && LiteralFirst("_first=x") && Patch("_first=x", []) == Ok("x")
  {
    hide *;
    var raw := "_first=x";
    OneItem(raw);
    OneParsed(raw);
    OnePrinted();
    NoChanges(raw);
  }

  lemma OneItem(raw: string)
    requires raw == "_first=x"
    ensures Split(raw) == [raw] && '=' in raw && Cut(raw) == (FIRST, "x")
    ensures LiteralFirst(raw)
  {
    assert raw == FIRST + ['='] + "x" && Join([raw]) == raw && raw[6] == '=';
    CutPrinted(FIRST, "x");
    hide Cut, Split;
    assert forall c :: c in raw ==> c != ',' by { assert forall i :: 0 <= i < |raw| ==> raw[i] != ','; }
    SplitJoin([raw]);
    assert Split(raw)[0] == raw;
  }

  lemma OneParsed(raw: string)
    requires raw == "_first=x" && Split(raw) == [raw] && '=' in raw && Cut(raw) == (FIRST, "x")
    ensures Parts(raw) == Ok([(FIRST, "x")])
  {
    hide Cut, Split;
    assert forall i :: 0 <= i < |raw| ==> !Control(raw[i]);
    assert Acceptable(raw);
    hide Acceptable;
    assert ParseItems([raw], 0) == Ok([]) && [] + [(FIRST, "x")] == [(FIRST, "x")];
    assert ParseItem(raw, 0) == Some((FIRST, "x"));
    hide ParseItem;
    assert ParseItems([raw], 1) == Ok([(FIRST, "x")]);
  }

  lemma NoChanges(raw: string)
    requires Parts(raw).Ok?
    ensures Patch(raw, []) == Ok(Print(Parts(raw).value))
  {
    hide Parts, Print;
  }

  lemma OnePrinted()
    ensures Print([(FIRST, "x")]) == "x"
  {
    assert Items([(FIRST, "x")]) == ["x"];
  }

  // ---------------------------------------------------------------- overlays

  function Find(m: Entries, key: string): Option<string> {
    if m == [] then None else if m[0].0 == key then Some(m[0].1) else Find(m[1..], key)
  }

  /** The entries that no change mentions, in order. */
  function Unlisted(m: Entries, keys: set<string>): Entries {
    if m == [] then [] else (if m[0].0 in keys then [] else [m[0]]) + Unlisted(m[1..], keys)
  }

  function ChangedKeys(changes: seq<Change>): set<string> { set c | c in changes :: c.0 }

  ghost predicate DistinctKeys(m: Entries) { forall i, j :: 0 <= i < j < |m| ==> m[i].0 != m[j].0 }

  lemma {:induction false} AssignSpec(m: Entries, key: string, value: string)
    ensures forall k :: Find(Assign(m, key, value), k) == if k == key then Some(value) else Find(m, k)
    ensures forall e :: e in Assign(m, key, value) ==> e == (key, value) || (e in m && e.0 != key) || !DistinctKeys(m)
    ensures DistinctKeys(m) ==> DistinctKeys(Assign(m, key, value))
    ensures forall e :: e in Assign(m, key, value) ==> e.0 == key || exists d :: d in m && d.0 == e.0
    ensures forall keys :: key in keys ==> Unlisted(Assign(m, key, value), keys) == Unlisted(m, keys)
  {
    if m != [] {
      AssignSpec(m[1..], key, value);
      var rest := Assign(m[1..], key, value);
      if DistinctKeys(m) {
        assert DistinctKeys(m[1..]) && forall d :: d in m[1..] ==> d.0 != m[0].0;
        assert forall i :: 0 <= i < |rest| ==> rest[i] in rest;
      }
    }
  }

  lemma {:induction false} NotFound(m: Entries, key: string)
    ensures Find(m, key).None? <==> forall e :: e in m ==> e.0 != key
  {
    if m != [] { NotFound(m[1..], key); }
  }

  lemma {:induction false} RemoveSpec(m: Entries, key: string)
    requires DistinctKeys(m)
    ensures forall k :: Find(Remove(m, key), k) == if k == key then None else Find(m, k)
    ensures forall e :: e in Remove(m, key) ==> e in m
    ensures DistinctKeys(Remove(m, key))
    ensures forall keys :: key in keys ==> Unlisted(Remove(m, key), keys) == Unlisted(m, keys)
  {
    if m != [] {
      var rest := Remove(m[1..], key);
      assert forall d :: d in m[1..] ==> d.0 != m[0].0;
      NotFound(m[1..], m[0].0);
      RemoveSpec(m[1..], key);
      assert forall i :: 0 <= i < |rest| ==> rest[i] in rest;
    }
  }

  ghost predicate DistinctChanges(changes: seq<Change>) { forall i, j :: 0 <= i < j < |changes| ==> changes[i].0 != changes[j].0 }

  /** Every listed setting ends as asked, every other one is untouched and keeps its place. */
  lemma {:induction false} ApplySpec(m: Entries, changes: seq<Change>, k: nat)
    requires DistinctKeys(m) && DistinctChanges(changes) && k <= |changes|
    ensures DistinctKeys(Apply(m, changes, k))
    ensures forall i :: 0 <= i < k ==> Find(Apply(m, changes, k), changes[i].0) == changes[i].1
    ensures forall key :: key !in ChangedKeys(changes) ==> Find(Apply(m, changes, k), key) == Find(m, key)
    ensures Unlisted(Apply(m, changes, k), ChangedKeys(changes)) == Unlisted(m, ChangedKeys(changes))
  {
    hide Find, Unlisted, Assign, Remove, DistinctKeys;
    if k > 0 {
      ApplySpec(m, changes, k - 1);
      var before, c := Apply(m, changes, k - 1), changes[k - 1];
      assert c in changes && c.0 in ChangedKeys(changes);
      if c.1.None? { RemoveSpec(before, c.0); } else { AssignSpec(before, c.0, c.1.value); }
    }
  }

  // ---------------------------------------------------------------- what parses back

  predicate WellFormedChange(c: Change) {
    Clean(c.0) && '=' !in c.0 && c.0 != FIRST && (c.1.Some? ==> Clean(c.1.value))
  }

  /** Printable entries from this position on. */
  ghost predicate EntriesOk(m: Entries, at: nat) { forall i :: 0 <= i < |m| ==> PrintableEntry(m[i], at + i) }

  lemma {:induction false} AssignOk(m: Entries, key: string, value: string, at: nat)
    requires EntriesOk(m, at) && WellFormedChange((key, Some(value)))
    ensures EntriesOk(Assign(m, key, value), at)
  {
    hide Clean;
    if m != [] {
      assert PrintableEntry(m[0], at);
      forall i | 0 <= i < |m| - 1 ensures PrintableEntry(m[1..][i], at + 1 + i) { assert PrintableEntry(m[i + 1], at + (i + 1)); }
      AssignOk(m[1..], key, value, at + 1);
      var after := Assign(m, key, value);
      forall i | 0 <= i < |after| ensures PrintableEntry(after[i], at + i) {
        if i > 0 && m[0].0 != key { assert PrintableEntry(Assign(m[1..], key, value)[i - 1], at + 1 + (i - 1)); }
      }
    }
  }

  lemma {:induction false} RemoveOk(m: Entries, key: string, at: nat)
    requires EntriesOk(m, at) && key != FIRST
    ensures EntriesOk(Remove(m, key), at)
  {
    hide Clean;
    if m != [] {
      forall i | 0 <= i < |m| - 1 ensures PrintableEntry(m[1..][i], at + 1 + i) { assert PrintableEntry(m[i + 1], at + (i + 1)); }
      RemoveOk(m[1..], key, at + 1);
      var after := Remove(m, key);
      forall i | 0 <= i < |after| ensures PrintableEntry(after[i], at + i) {
        if m[0].0 == key { assert PrintableEntry(m[i + 1], at + (i + 1)); }
        else if i > 0 { assert PrintableEntry(Remove(m[1..], key)[i - 1], at + 1 + (i - 1)); }
        else { assert PrintableEntry(m[0], at + 0); }
      }
    }
  }

  lemma {:induction false} ApplyOk(m: Entries, changes: seq<Change>, k: nat)
    requires EntriesOk(m, 0) && k <= |changes| && forall i :: 0 <= i < |changes| ==> WellFormedChange(changes[i])
    ensures EntriesOk(Apply(m, changes, k), 0)
  {
    hide EntriesOk, Clean;
    if k > 0 {
      ApplyOk(m, changes, k - 1);
      var c := changes[k - 1];
      if c.1.None? { RemoveOk(Apply(m, changes, k - 1), c.0, 0); } else { AssignOk(Apply(m, changes, k - 1), c.0, c.1.value, 0); }
    }
  }

  lemma ParsedOk(raw: string)
    requires Parts(raw).Ok? && !LiteralFirst(raw)
    ensures EntriesOk(Parts(raw).value, 0) && DistinctKeys(Parts(raw).value)
  {
    var m, items := Parts(raw).value, Split(raw);
    PartsShape(raw);
    forall i | 0 <= i < |m| ensures PrintableEntry(m[i], 0 + i) {
      ParsedItems(items, |items|, i);
      assert ParsedEntry(items[i], i, m[i]);
    }
  }

  /** A patch of well-formed changes parses back to the overlaid map exactly when the result is not empty
      and within size; the overlay has every change and leaves every other setting alone. */
  lemma PatchOverlay(raw: string, changes: seq<Change>)
    requires Parts(raw).Ok? && !LiteralFirst(raw) && DistinctChanges(changes)
    requires forall i :: 0 <= i < |changes| ==> WellFormedChange(changes[i])
    ensures var m, n := Parts(raw).value, Apply(Parts(raw).value, changes, |changes|);
            && Patch(raw, changes) == Ok(Print(n))
            && (Parts(Print(n)) == Ok(n) <==> n != [] && |Print(n)| <= MAX_RAW)
            && (forall c :: c in changes ==> Find(n, c.0) == c.1)
            && (forall key :: key !in ChangedKeys(changes) ==> Find(n, key) == Find(m, key))
            && Unlisted(n, ChangedKeys(changes)) == Unlisted(m, ChangedKeys(changes))
  {
    var m, n := Parts(raw).value, Apply(Parts(raw).value, changes, |changes|);
    hide Parts, Find, Unlisted, Apply, LiteralFirst, PrintableEntry;
    ParsedOk(raw);
    ApplyOk(m, changes, |changes|);
    ApplySpec(m, changes, |changes|);
    RoundTrip(n);
  }
}
