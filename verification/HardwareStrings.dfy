/** Proxmox property strings: parsing, printing, and patching of a network device's settings. */
module HardwareStrings {
  import opened Wrappers

  type Entry = (string, string)
  type Entries = seq<Entry>

  const FIRST: string := "_first"
  const MAX_RAW: nat := 4096

  // ---------------------------------------------------------------- items

  function Split(s: string): (items: seq<string>)
    ensures |items| > 0
  {
    if s == "" then [""] else
    var rest := Split(s[1..]);
    if s[0] == ',' then [""] + rest else [[s[0]] + rest[0]] + rest[1..]
  }

  function Join(items: seq<string>): string {
    if items == [] then "" else if |items| == 1 then items[0] else items[0] + [','] + Join(items[1..])
  }

  lemma {:induction false} JoinSplit(s: string)
    ensures Join(Split(s)) == s
  {
    if s != "" {
      JoinSplit(s[1..]);
      var rest := Split(s[1..]);
      if s[0] == ',' {
        assert ([""] + rest)[1..] == rest;
      } else if |rest| > 1 {
        assert Split(s)[1..] == rest[1..];
      }
    }
  }

  lemma {:induction false} SplitJoin(items: seq<string>)
    requires items != [] && forall i :: 0 <= i < |items| ==> ',' !in items[i]
    ensures Split(Join(items)) == items
    decreases |items|, if items == [] then 0 else |items[0]|
  {
    var s := Join(items);
    if items[0] != "" {
      var shorter := [items[0][1..]] + items[1..];
      SplitJoin(shorter);
      assert s[0] == items[0][0] && items[0][0] in items[0];
      assert shorter[1..] == items[1..];
      assert s[1..] == Join(shorter);
      assert items[0] == [s[0]] + shorter[0];
      assert items == [[s[0]] + shorter[0]] + shorter[1..];
    } else if |items| > 1 {
      SplitJoin(items[1..]);
      assert s[1..] == Join(items[1..]);
      assert items == [""] + items[1..];
    }
  }

  lemma {:induction false} SplitNoComma(s: string)
    ensures forall i :: 0 <= i < |Split(s)| ==> ',' !in Split(s)[i]
    ensures forall i, c :: 0 <= i < |Split(s)| && c in Split(s)[i] ==> c in s
  {
    if s != "" {
      SplitNoComma(s[1..]);
      assert s == [s[0]] + s[1..];
      assert forall c :: c in s[1..] ==> c in s;
    }
  }

  /** Up to the first equals sign, and after it. */
  function Cut(item: string): (string, string) {
    if item == "" then ("", "")
    else if item[0] == '=' then ("", item[1..]) else ([item[0]] + Cut(item[1..]).0, Cut(item[1..]).1)
  }

  lemma {:induction false} CutSpec(item: string)
    requires '=' in item
    ensures item == Cut(item).0 + ['='] + Cut(item).1 && '=' !in Cut(item).0
  {
    if item[0] != '=' { CutSpec(item[1..]); }
  }

  lemma {:induction false} CutPrinted(key: string, value: string)
    requires '=' !in key
    ensures Cut(key + ['='] + value) == (key, value)
  {
    var item := key + ['='] + value;
    if key != "" {
      CutPrinted(key[1..], value);
      assert key[0] in key && item[0] == key[0];
      assert item[1..] == key[1..] + ['='] + value;
      assert key == [key[0]] + key[1..];
    } else {
      assert item[0] == '=' && item[1..] == value;
    }
  }

  // ---------------------------------------------------------------- parsing and printing

  predicate Control(c: char) { c < ' ' || c == '\U{7F}' }

  predicate Acceptable(raw: string) { raw != "" && |raw| <= MAX_RAW && forall c | c in raw :: !Control(c) }

  datatype HardwareError = Unsupported | Ambiguous

  function Keys(m: Entries): set<string> { set i | 0 <= i < |m| :: m[i].0 }

  function ParseItem(item: string, index: nat): Option<Entry> {
    if '=' in item then Some(Cut(item)) else if index == 0 then Some((FIRST, item)) else None
  }

  /** The first k items. */
  function ParseItems(items: seq<string>, k: nat): Result<Entries, HardwareError>
    requires k <= |items|
  {
    if k == 0 then Ok([]) else
    var before := ParseItems(items, k - 1);
    if before.Err? then before else
    var e := ParseItem(items[k - 1], k - 1);
    if e.None? then Err(Unsupported)
    else if e.value.0 == "" || e.value.1 == "" || e.value.0 in Keys(before.value) then Err(Ambiguous)
    else Ok(before.value + [e.value])
  }

  function Parts(raw: string): Result<Entries, HardwareError> {
    if !Acceptable(raw) then Err(Unsupported) else ParseItems(Split(raw), |Split(raw)|)
  }

  function Item(e: Entry): string { if e.0 == FIRST then e.1 else e.0 + ['='] + e.1 }

  function Items(m: Entries): seq<string> { seq(|m|, i requires 0 <= i < |m| => Item(m[i])) }

  function Print(m: Entries): string { Join(Items(m)) }

  lemma {:induction false} ItemsStop(items: seq<string>, k: nat, n: nat)
    requires k <= n <= |items| && ParseItems(items, k).Err?
    ensures ParseItems(items, n) == ParseItems(items, k)
  {
    if k < n { ItemsStop(items, k, n - 1); }
  }

  method ParseParts(raw: string) returns (r: Result<Entries, HardwareError>)
    ensures r == Parts(raw)
  {
    if !Acceptable(raw) { return Err(Unsupported); }
    var items := Split(raw);
    var values: Entries, keys: set<string> := [], {};
    for i := 0 to |items|
      invariant ParseItems(items, i) == Ok(values) && keys == Keys(values)
    {
      var e: Entry;
      if '=' in items[i] {
        e := Cut(items[i]);
      } else if i == 0 {
        e := (FIRST, items[i]);
      } else {
        ItemsStop(items, i + 1, |items|);
        return Err(Unsupported);
      }
      if e.0 == "" || e.1 == "" || e.0 in keys {
        ItemsStop(items, i + 1, |items|);
        return Err(Ambiguous);
      }
      KeysSnoc(values, e);
      values := values + [e];
      keys := keys + {e.0};
    }
    return Ok(values);
  }

  lemma KeysSnoc(m: Entries, e: Entry)
    ensures Keys(m + [e]) == Keys(m) + {e.0}
  {
    var all := m + [e];
    assert all[|m|] == e && forall i :: 0 <= i < |m| ==> all[i] == m[i];
  }

  // ---------------------------------------------------------------- which maps survive printing

  predicate Clean(s: string) { s != "" && ',' !in s && forall c | c in s :: !Control(c) }

  predicate PrintableEntry(e: Entry, index: nat) {
    Clean(e.0) && '=' !in e.0 && Clean(e.1) && (e.0 == FIRST ==> index == 0 && '=' !in e.1)
  }

  ghost predicate Printable(m: Entries) {
    && m != [] && |Print(m)| <= MAX_RAW
    && (forall i :: 0 <= i < |m| ==> PrintableEntry(m[i], i))
    && forall i, j :: 0 <= i < j < |m| ==> m[i].0 != m[j].0
  }

  lemma PrintedItem(e: Entry, index: nat)
    requires PrintableEntry(e, index)
    ensures ParseItem(Item(e), index) == Some(e) && ',' !in Item(e) && Item(e) != ""
  {
    if e.0 != FIRST {
      CutPrinted(e.0, e.1);
      assert Item(e)[|e.0|] == '=';
    }
  }

  lemma {:induction false} ParsePrinted(m: Entries, k: nat)
    requires k <= |m| && forall i :: 0 <= i < |m| ==> PrintableEntry(m[i], i)
    requires forall i, j :: 0 <= i < j < |m| ==> m[i].0 != m[j].0
    ensures ParseItems(Items(m), k) == Ok(m[..k])
  {
    hide PrintableEntry, ParseItem, Item;
    if k > 0 {
      ParsePrinted(m, k - 1);
      PrintedItem(m[k - 1], k - 1);
      NotEmpty(m[k - 1], k - 1);
      assert m[..k] == m[..k - 1] + [m[k - 1]];
      assert m[k - 1].0 !in Keys(m[..k - 1]);
    }
  }

  lemma NotEmpty(e: Entry, index: nat)
    ensures PrintableEntry(e, index) ==> e.0 != "" && e.1 != ""
  {}

  lemma {:induction false} PrintedChars(items: seq<string>)
    ensures forall c :: c in Join(items) ==> c == ',' || exists i :: 0 <= i < |items| && c in items[i]
    ensures forall i, c :: 0 <= i < |items| && c in items[i] ==> c in Join(items)
    ensures items != [] && items[0] != "" ==> Join(items) != ""
  {
    if |items| > 1 {
      PrintedChars(items[1..]);
      assert Join(items) == items[0] + [','] + Join(items[1..]);
      forall c | c in Join(items) ensures c == ',' || exists i :: 0 <= i < |items| && c in items[i] {
        if c in Join(items[1..]) && c != ',' {
          var i :| 0 <= i < |items| - 1 && c in items[1..][i];
          assert c in items[i + 1];
        }
      }
      forall i, c | 0 <= i < |items| && c in items[i] ensures c in Join(items) {
        if i > 0 { assert items[i] == items[1..][i - 1]; }
      }
    }
  }

  /** A printable map comes back from its own printing. */
  lemma PrintedParses(m: Entries)
    requires Printable(m)
    ensures Parts(Print(m)) == Ok(m)
  {
    var items := Items(m);
    forall i | 0 <= i < |m| ensures ',' !in items[i] && items[i] != "" && forall c :: c in items[i] ==> !Control(c) {
      PrintedItem(m[i], i);
      ItemChars(m[i], i);
    }
    hide Printable, PrintableEntry, Item;
    SplitJoin(items);
    PrintedChars(items);
    assert m != [] && |Print(m)| <= MAX_RAW by { PrintableFacts(m); }
    PrintableFacts(m);
    ParsePrinted(m, |m|);
    assert m[..|m|] == m;
  }

  lemma PrintableFacts(m: Entries)
    requires Printable(m)
    ensures m != [] && |Print(m)| <= MAX_RAW
    ensures forall i :: 0 <= i < |m| ==> PrintableEntry(m[i], i)
    ensures forall i, j :: 0 <= i < j < |m| ==> m[i].0 != m[j].0
  {}

  lemma ItemChars(e: Entry, index: nat)
    requires PrintableEntry(e, index)
    ensures forall c :: c in Item(e) ==> !Control(c)
  {}

  /** What every successful parse gives. */
  lemma {:induction false} ParsedShape(items: seq<string>, k: nat)
    requires k <= |items| && ParseItems(items, k).Ok?
    requires forall i :: 0 <= i < |items| ==> ',' !in items[i] && forall c :: c in items[i] ==> !Control(c)
    ensures |ParseItems(items, k).value| == k
    ensures forall i :: 0 <= i < k ==> ParsedEntry(items[i], i, ParseItems(items, k).value[i])
    ensures forall i, j :: 0 <= i < j < k ==> ParseItems(items, k).value[i].0 != ParseItems(items, k).value[j].0
  {
    if k > 0 {
      ParsedShape(items, k - 1);
      var before := ParseItems(items, k - 1).value;
      var e := ParseItem(items[k - 1], k - 1).value;
      assert forall i :: 0 <= i < k - 1 ==> before[i].0 in Keys(before);
      ParsedOne(items[k - 1], k - 1);
    }
  }

  /** The entry of an item: split at the first equals sign, or the first item as it is. */
  ghost predicate ParsedEntry(item: string, index: nat, e: Entry) {
    && Clean(e.0) && '=' !in e.0 && Clean(e.1)
    && (item == e.0 + ['='] + e.1 || (index == 0 && e == (FIRST, item) && '=' !in item))
  }

  lemma ParsedOne(item: string, index: nat)
    requires ',' !in item && (forall c :: c in item ==> !Control(c)) && ParseItem(item, index).Some?
    requires var e := ParseItem(item, index).value; e.0 != "" && e.1 != ""
    ensures ParsedEntry(item, index, ParseItem(item, index).value)
  {
    if '=' in item { CutSpec(item); }
  }

  /** Every map a successful parse gives, entry by entry. */
  lemma PartsShape(raw: string)
    requires Parts(raw).Ok?
    ensures var m := Parts(raw).value;
            && |m| == |Split(raw)| && (forall i :: 0 <= i < |m| ==> ParsedEntry(Split(raw)[i], i, m[i]))
            && forall i, j :: 0 <= i < j < |m| ==> m[i].0 != m[j].0
  {
    hide ParsedEntry;
    SplitNoComma(raw);
    ParsedShape(Split(raw), |Split(raw)|);
  }

  /** Printing and parsing again gives the map back if and only if it is printable. */
  lemma RoundTrip(m: Entries)
    ensures Parts(Print(m)) == Ok(m) <==> Printable(m)
  {
    if Printable(m) { PrintedParses(m); }
    if Parts(Print(m)) == Ok(m) {
      var raw := Print(m);
      PartsShape(raw);
      forall i | 0 <= i < |m| ensures ',' !in Items(m)[i] {
        assert ParsedEntry(Split(raw)[i], i, m[i]);
      }
      SplitJoin(Items(m));
      forall i | 0 <= i < |m| ensures PrintableEntry(m[i], i) {
        ReparsedEntry(m[i], i);
      }
    }
  }

  lemma ReparsedEntry(e: Entry, index: nat)
    requires ParsedEntry(Item(e), index, e)
    ensures PrintableEntry(e, index)
  {
    assert |e.0 + ['='] + e.1| > |e.1|;
  }

  // ---------------------------------------------------------------- what is accepted

  /** Non-empty text of at most 4096 printable characters. */
  ghost predicate TextOk(raw: string) { raw != "" && |raw| <= 4096 && forall c :: c in raw ==> c as int >= 32 && c as int != 127 }

  /** The item reads as this key and value: around its first equals sign, or as the unnamed first value. */
  ghost predicate ReadsAs(item: string, index: nat, e: Entry) {
    if '=' in item then '=' !in e.0 && item == e.0 + ['='] + e.1 else index == 0 && e == ("_first", item)
  }

  /** The first k items, read in order, with no key or value empty and no key twice. */
  ghost predicate Reads(items: seq<string>, k: nat, m: Entries) {
    && |m| == k <= |items|
    && (forall i :: 0 <= i < k ==> ReadsAs(items[i], i, m[i]) && m[i].0 != "" && m[i].1 != "")
    && forall i, j :: 0 <= i < j < k ==> m[i].0 != m[j].0
  }

  lemma ItemExactly(item: string, index: nat, e: Entry)
    ensures ParseItem(item, index) == Some(e) <==> ReadsAs(item, index, e)
  {
    if '=' in item {
      CutSpec(item);
      if ReadsAs(item, index, e) { CutPrinted(e.0, e.1); }
    }
  }

  lemma {:induction false} ReadsExactly(items: seq<string>, k: nat, m: Entries)
    requires k <= |items|
    ensures ParseItems(items, k) == Ok(m) <==> Reads(items, k, m)
  {
    hide ParseItem, ReadsAs;
    if k > 0 && m != [] {
      var front, e := m[..|m| - 1], m[|m| - 1];
      ReadsExactly(items, k - 1, front);
      ItemExactly(items[k - 1], k - 1, e);
      assert m == front + [e];
      if ParseItems(items, k - 1).Ok? {
        var before := ParseItems(items, k - 1).value;
        ReadsExactly(items, k - 1, before);
        assert forall i :: 0 <= i < |before| ==> before[i].0 in Keys(before);
      }
    }
  }

  /** A string is accepted exactly as the entries its items read as; it is unsupported when it is not plain text or when an
      item after the first, the ones before being good, has no equals sign; and ambiguous in all other cases. */
  lemma PartsExactly(raw: string)
    ensures forall m :: Parts(raw) == Ok(m) <==> TextOk(raw) && Reads(Split(raw), |Split(raw)|, m)
    ensures Parts(raw) == Err(Unsupported) <==> !TextOk(raw) || Unnamed(Split(raw), |Split(raw)|)
  {
    var items := Split(raw);
    assert Acceptable(raw) <==> TextOk(raw);
    forall m ensures ParseItems(items, |items|) == Ok(m) <==> Reads(items, |items|, m) { ReadsExactly(items, |items|, m); }
    UnnamedExactly(items, |items|);
    hide TextOk, Acceptable, Reads, Split, Unnamed;
  }

  ghost predicate Unnamed(items: seq<string>, n: nat) { exists k, m :: 0 < k < n && k < |items| && '=' !in items[k] && Reads(items, k, m) }

  lemma {:induction false} UnnamedExactly(items: seq<string>, n: nat)
    requires n <= |items|
    ensures ParseItems(items, n) == Err(Unsupported) <==> Unnamed(items, n)
  {
    if n > 0 {
      UnnamedExactly(items, n - 1);
      var before := ParseItems(items, n - 1);
      forall m ensures ParseItems(items, n - 1) == Ok(m) <==> Reads(items, n - 1, m) { ReadsExactly(items, n - 1, m); }
      hide Reads;
      if k, m :| 0 < k < n && k < |items| && '=' !in items[k] && Reads(items, k, m) {
        ReadsExactly(items, k, m);
        assert k < n - 1 || before == Ok(m);
      }
    }
  }
}
