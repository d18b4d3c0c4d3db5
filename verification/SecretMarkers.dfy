/** Secret references resolved into marked values, and the redaction of marked values: what leaves the
    two together does not depend on the secrets. */
module SecretMarkers {
  import opened Wrappers
  import opened Json

  const MARKER: string := "__range42_vault_origin__"
  const SUFFIX: string := "_from"
  const SECRET: string := "env.secret."

  type Fields = seq<(string, Json)>
  type Lookup = map<string, string>

  predicate EndsWith(s: string, t: string) { |s| >= |t| && s[|s| - |t|..] == t }

  /** A member like token_from: "env.secret.NAME". */
  predicate IsRef(f: (string, Json)) { f.1.Str? && EndsWith(f.0, SUFFIX) && SECRET <= f.1.s }

  function Target(key: string): string
    requires EndsWith(key, SUFFIX)
  {
    key[..|key| - |SUFFIX|]
  }

  function SecretName(value: string): string
    requires SECRET <= value
  {
    value[|SECRET|..]
  }

  function Marked(value: string): Json { Obj([(MARKER, Bool(true)), ("value", Str(value))]) }

  // ---------------------------------------------------------------- resolving

  /** Where a member of the resolved object comes from. */
  datatype Origin = Kept(i: nat) | Secret(name: string)
  type Slots = seq<(string, Origin)>

  function Put(slots: Slots, key: string, o: Origin): Slots {
    if slots == [] then [(key, o)]
    else if slots[0].0 == key then [(key, o)] + slots[1..] else [slots[0]] + Put(slots[1..], key, o)
  }

  function Original(fields: Fields): Slots { seq(|fields|, i requires 0 <= i < |fields| => (fields[i].0, Kept(i))) }

  /** After the first k members: every reference has set its target, replacing or appending it. */
  function Rewritten(fields: Fields, k: nat): Slots
    requires k <= |fields|
  {
    if k == 0 then Original(fields) else
    var before := Rewritten(fields, k - 1);
    if IsRef(fields[k - 1]) then Put(before, Target(fields[k - 1].0), Secret(SecretName(fields[k - 1].1.s))) else before
  }

  function RefKeys(fields: Fields): set<string> { set i | 0 <= i < |fields| && IsRef(fields[i]) :: fields[i].0 }

  function Drop(slots: Slots, keys: set<string>): Slots {
    if slots == [] then [] else (if slots[0].0 in keys then [] else [slots[0]]) + Drop(slots[1..], keys)
  }

  function Settled(fields: Fields): Slots { Drop(Rewritten(fields, |fields|), RefKeys(fields)) }

  /** The first reference whose name is unknown. */
  function Missing(fields: Fields, lookup: Lookup): Option<string> {
    if fields == [] then None
    else if IsRef(fields[0]) && SecretName(fields[0].1.s) !in lookup then Some(SecretName(fields[0].1.s))
    else Missing(fields[1..], lookup)
  }

  lemma {:induction false} PutKinds(slots: Slots, key: string, o: Origin, n: nat)
    requires forall s :: s in slots && s.1.Kept? ==> s.1.i < n
    requires o.Kept? ==> o.i < n
    ensures forall s :: s in Put(slots, key, o) ==> (s in slots || s == (key, o)) && (s.1.Kept? ==> s.1.i < n)
  {
    if slots != [] {
      assert forall s :: s in slots[1..] ==> s in slots;
      PutKinds(slots[1..], key, o, n);
    }
  }

  lemma {:induction false} RewrittenKinds(fields: Fields, k: nat)
    requires k <= |fields|
    ensures forall s :: s in Rewritten(fields, k) ==>
              && (s.1.Kept? ==> s.1.i < |fields|)
              && (s.1.Secret? ==> exists i :: 0 <= i < k && IsRef(fields[i]) && SecretName(fields[i].1.s) == s.1.name)
  {
    if k > 0 {
      RewrittenKinds(fields, k - 1);
      if IsRef(fields[k - 1]) {
        PutKinds(Rewritten(fields, k - 1), Target(fields[k - 1].0), Secret(SecretName(fields[k - 1].1.s)), |fields|);
      }
    }
  }

  lemma {:induction false} DropSome(slots: Slots, keys: set<string>)
    ensures forall s :: s in Drop(slots, keys) ==> s in slots
  {
    if slots != [] { DropSome(slots[1..], keys); }
  }

  lemma {:induction false} NoneMissing(fields: Fields, lookup: Lookup)
    requires Missing(fields, lookup).None?
    ensures forall i :: 0 <= i < |fields| && IsRef(fields[i]) ==> SecretName(fields[i].1.s) in lookup
  {
    if fields != [] {
      NoneMissing(fields[1..], lookup);
      forall i | 0 <= i < |fields| && IsRef(fields[i]) ensures SecretName(fields[i].1.s) in lookup {
        if i > 0 { assert fields[1..][i - 1] == fields[i]; }
      }
    }
  }

  /** What the resolved members need is there. */
  lemma SettledOk(fields: Fields, lookup: Lookup)
    requires Missing(fields, lookup).None?
    ensures forall k :: 0 <= k < |Settled(fields)| ==>
              var o := Settled(fields)[k].1; (o.Kept? ==> o.i < |fields|) && (o.Secret? ==> o.name in lookup)
  {
    RewrittenKinds(fields, |fields|);
    DropSome(Rewritten(fields, |fields|), RefKeys(fields));
    NoneMissing(fields, lookup);
    forall k | 0 <= k < |Settled(fields)|
      ensures var o := Settled(fields)[k].1; (o.Kept? ==> o.i < |fields|) && (o.Secret? ==> o.name in lookup)
    {
      assert Settled(fields)[k] in Settled(fields);
    }
  }

  function Resolve(j: Json, lookup: Lookup): Result<Json, string>
    decreases j
  {
    match j
    case Arr(items) =>
      var r := ResolveItems(items, lookup, |items|);
      if r.Ok? then Ok(Arr(r.value)) else Err(r.error)
    case Obj(fields) =>
      var missing := Missing(fields, lookup);
      if missing.Some? then Err(missing.value) else
      SettledOk(fields, lookup);
      var r := ResolveSlots(fields, lookup, |Settled(fields)|);
      if r.Ok? then Ok(Obj(r.value)) else Err(r.error)
    case _ => Ok(j)
  }

  function ResolveItems(items: seq<Json>, lookup: Lookup, k: nat): (r: Result<seq<Json>, string>)
    requires k <= |items|
    ensures r.Ok? ==> |r.value| == k
    decreases Arr(items), k
  {
    if k == 0 then Ok([]) else
    var before := ResolveItems(items, lookup, k - 1);
    if before.Err? then before else
    var item := Resolve(items[k - 1], lookup);
    if item.Err? then Err(item.error) else Ok(before.value + [item.value])
  }

  function ResolveSlots(fields: Fields, lookup: Lookup, k: nat): (r: Result<Fields, string>)
    requires k <= |Settled(fields)| && Missing(fields, lookup).None?
    ensures r.Ok? ==> |r.value| == k
    decreases Obj(fields), k
  {
    if k == 0 then Ok([]) else
    SettledOk(fields, lookup);
    var before := ResolveSlots(fields, lookup, k - 1);
    if before.Err? then before else
    var slot := Settled(fields)[k - 1];
    match slot.1
    case Secret(name) => Ok(before.value + [(slot.0, Marked(lookup[name]))])
    case Kept(i) =>
      var v := Resolve(fields[i].1, lookup);
      if v.Err? then Err(v.error) else Ok(before.value + [(slot.0, v.value)])
  }

  // ---------------------------------------------------------------- redacting

  predicate IsMarked(j: Json) { j.Obj? && FirstValue(j.fields, MARKER) == Some(Bool(true)) }

  function FirstValue(fields: Fields, key: string): Option<Json> {
    if fields == [] then None else if fields[0].0 == key then Some(fields[0].1) else FirstValue(fields[1..], key)
  }

  /** The characters that str.lstrip removes: Unicode white space and the four ASCII separators. */
  predicate Blank(c: char) {
    || c == ' ' || '\t' <= c <= '\r' || '\U{1C}' <= c <= '\U{1F}' || c == '\U{85}' || c == '\U{A0}' || c == '\U{1680}'
    || '\U{2000}' <= c <= '\U{200A}' || c == '\U{2028}' || c == '\U{2029}' || c == '\U{202F}' || c == '\U{205F}' || c == '\U{3000}'
  }

  lemma BlankExactly(c: char)
    ensures Blank(c) <==>
            c in [' ', '\t', '\n', '\U{0B}', '\U{0C}', '\r', '\U{1C}', '\U{1D}', '\U{1E}', '\U{1F}', '\U{85}', '\U{A0}', '\U{1680}',
                  '\U{2000}', '\U{2001}', '\U{2002}', '\U{2003}', '\U{2004}', '\U{2005}', '\U{2006}', '\U{2007}', '\U{2008}', '\U{2009}',
                  '\U{200A}', '\U{2028}', '\U{2029}', '\U{202F}', '\U{205F}', '\U{3000}']
  {}

  function LStrip(s: string): string { if s != "" && Blank(s[0]) then LStrip(s[1..]) else s }

  datatype Rule = TaggedValue | InlineVault

  function Hit(j: Json): Option<Rule> {
    if IsMarked(j) then Some(TaggedValue) else if j.Str? && "!vault" <= LStrip(j.s) then Some(InlineVault) else None
  }

  const REDACTED: string := "[REDACTED:vault_tagged]"

  /** The walk of something that is not itself replaced. */
  function Clean(j: Json): Json
    decreases j, 0
  {
    match j
    case Arr(items) => Arr(seq(|items|, i requires 0 <= i < |items| => CleanChild(items[i])))
    case Obj(fields) =>
      if IsMarked(j) then j else Obj(seq(|fields|, i requires 0 <= i < |fields| => (fields[i].0, CleanChild(fields[i].1))))
    case _ => j
  }

  function CleanChild(j: Json): Json
    decreases j, 1
  {
    if Hit(j).Some? then Str(REDACTED) else Clean(j)
  }

  function FiredChild(j: Json, path: Path): seq<(Rule, Path)>
    decreases j, 1
  {
    if Hit(j).Some? then [(Hit(j).value, path)] else Fired(j, path)
  }

  function Fired(j: Json, path: Path): seq<(Rule, Path)>
    decreases j, 0
  {
    match j
    case Arr(items) => FiredItems(items, path, |items|)
    case Obj(fields) => if IsMarked(j) then [] else FiredFields(fields, path, |fields|)
    case _ => []
  }

  function FiredItems(items: seq<Json>, path: Path, k: nat): seq<(Rule, Path)>
    requires k <= |items|
    decreases Arr(items), 0, k
  {
    if k == 0 then [] else FiredItems(items, path, k - 1) + FiredChild(items[k - 1], path + [Index(k - 1)])
  }

  function FiredFields(fields: Fields, path: Path, k: nat): seq<(Rule, Path)>
    requires k <= |fields|
    decreases Obj(fields), 0, k
  {
    if k == 0 then [] else FiredFields(fields, path, k - 1) + FiredChild(fields[k - 1].1, path + [Key(fields[k - 1].0)])
  }

  // ---------------------------------------------------------------- the walks as they run

  lemma {:induction false} ItemsStop(items: seq<Json>, lookup: Lookup, k: nat, n: nat)
    requires k <= n <= |items| && ResolveItems(items, lookup, k).Err?
    ensures ResolveItems(items, lookup, n) == ResolveItems(items, lookup, k)
  {
    if k < n { ItemsStop(items, lookup, k, n - 1); }
  }

  lemma {:induction false} SlotsStop(fields: Fields, lookup: Lookup, k: nat, n: nat)
    requires k <= n <= |Settled(fields)| && Missing(fields, lookup).None? && ResolveSlots(fields, lookup, k).Err?
    ensures ResolveSlots(fields, lookup, n) == ResolveSlots(fields, lookup, k)
  {
    hide Settled, Missing;
    if k < n { SlotsStop(fields, lookup, k, n - 1); }
  }

  /** Collect the references of one object and set their targets; the reference keys go afterwards. */
  method Rewrite(fields: Fields, lookup: Lookup) returns (r: Result<Slots, string>)
    ensures r == if Missing(fields, lookup).Some? then Err(Missing(fields, lookup).value) else Ok(Settled(fields))
  {
    var slots, keys: set<string> := Original(fields), {};
    assert fields[0..] == fields;
    for i := 0 to |fields|
      invariant slots == Rewritten(fields, i)
      invariant keys == set k | 0 <= k < i && IsRef(fields[k]) :: fields[k].0
      invariant Missing(fields, lookup) == Missing(fields[i..], lookup)
    {
      assert fields[i..][1..] == fields[i + 1..];
      if IsRef(fields[i]) {
        var name := SecretName(fields[i].1.s);
        if name !in lookup { return Err(name); }
        slots := Put(slots, Target(fields[i].0), Secret(name));
        keys := keys + {fields[i].0};
      }
    }
    assert keys == RefKeys(fields);
    return Ok(Drop(slots, keys));
  }

  method ResolveTree(j: Json, lookup: Lookup) returns (r: Result<Json, string>)
    ensures r == Resolve(j, lookup)
    decreases j
  {
    match j
    case Arr(items) =>
      var done: seq<Json> := [];
      for i := 0 to |items|
        invariant ResolveItems(items, lookup, i) == Ok(done)
      {
        var item := ResolveTree(items[i], lookup);
        if item.Err? {
          ItemsStop(items, lookup, i + 1, |items|);
          return Err(item.error);
        }
        done := done + [item.value];
      }
      return Ok(Arr(done));
    case Obj(fields) =>
      var slots := Rewrite(fields, lookup);
      if slots.Err? { return Err(slots.error); }
      SettledOk(fields, lookup);
      hide Settled, Missing;
      var done: Fields := [];
      for i := 0 to |slots.value|
        invariant ResolveSlots(fields, lookup, i) == Ok(done)
      {
        var slot := slots.value[i];
        match slot.1 {
          case Secret(name) =>
            done := done + [(slot.0, Marked(lookup[name]))];
          case Kept(m) =>
            var v := ResolveTree(fields[m].1, lookup);
            if v.Err? {
              SlotsStop(fields, lookup, i + 1, |slots.value|);
              return Err(v.error);
            }
            done := done + [(slot.0, v.value)];
        }
      }
      return Ok(Obj(done));
    case _ => return Ok(j);
  }

  /** Walk one value: what replaces it, if it is to be replaced, and the rules fired below it. */
  method WalkMarked(j: Json, path: Path, fired: seq<(Rule, Path)>) returns (out: Json, hit: Option<Rule>, more: seq<(Rule, Path)>)
    ensures hit == Hit(j)
    ensures hit.None? ==> out == Clean(j) && more == fired + Fired(j, path)
    ensures hit.Some? ==> out == Str(REDACTED) && more == fired
    decreases j, 1
  {
    hide IsMarked, LStrip;
    out, hit, more := j, None, fired;
    if Hit(j).Some? { return Str(REDACTED), Hit(j), fired; }
    match j
    case Arr(items) =>
      var done;
      done, more := WalkItems(items, path, fired);
      out := Arr(done);
    case Obj(fields) =>
      var done;
      done, more := WalkFields(fields, path, fired);
      out := Obj(done);
    case _ =>
  }

  method WalkItems(items: seq<Json>, path: Path, fired: seq<(Rule, Path)>) returns (done: seq<Json>, more: seq<(Rule, Path)>)
    ensures |done| == |items| && forall k :: 0 <= k < |items| ==> done[k] == CleanChild(items[k])
    ensures more == fired + FiredItems(items, path, |items|)
    decreases Arr(items), 0
  {
    hide Hit, Clean;
    done, more := [], fired;
    for i := 0 to |items|
      invariant |done| == i && forall k :: 0 <= k < i ==> done[k] == CleanChild(items[k])
      invariant more == fired + FiredItems(items, path, i)
    {
      var item, rule;
      item, rule, more := WalkMarked(items[i], path + [Index(i)], more);
      if rule.Some? { more := more + [(rule.value, path + [Index(i)])]; }
      done := done + [item];
    }
  }

  method WalkFields(fields: Fields, path: Path, fired: seq<(Rule, Path)>) returns (done: Fields, more: seq<(Rule, Path)>)
    ensures |done| == |fields| && forall k :: 0 <= k < |fields| ==> done[k] == (fields[k].0, CleanChild(fields[k].1))
    ensures more == fired + FiredFields(fields, path, |fields|)
    decreases Obj(fields), 0
  {
    hide Hit, Clean;
    done, more := [], fired;
    for i := 0 to |fields|
      invariant |done| == i && forall k :: 0 <= k < i ==> done[k] == (fields[k].0, CleanChild(fields[k].1))
      invariant more == fired + FiredFields(fields, path, i)
    {
      var value, rule;
      value, rule, more := WalkMarked(fields[i].1, path + [Key(fields[i].0)], more);
      if rule.Some? { more := more + [(rule.value, path + [Key(fields[i].0)])]; }
      done := done + [(fields[i].0, value)];
    }
  }
}
