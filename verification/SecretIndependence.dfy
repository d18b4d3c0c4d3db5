/** What leaves resolution and redaction together does not depend on the secrets, exactly when the
    document's root is not itself marked or nothing is resolved into it. */
module SecretIndependence {
  import opened Wrappers
  import opened Json
  import opened SecretMarkers

  /** Equal but for what marked values hold. */
  ghost predicate Same(a: Json, b: Json)
    decreases a
  {
    || (IsMarked(a) && IsMarked(b))
    || (!IsMarked(a) && !IsMarked(b) &&
        match (a, b)
        case (Arr(x), Arr(y)) => |x| == |y| && forall i :: 0 <= i < |x| ==> Same(x[i], y[i])
        case (Obj(x), Obj(y)) => |x| == |y| && forall i :: 0 <= i < |x| ==> x[i].0 == y[i].0 && Same(x[i].1, y[i].1)
        case _ => a == b)
  }

  ghost predicate SameFields(x: Fields, y: Fields) {
    |x| == |y| && forall i :: 0 <= i < |x| ==> x[i].0 == y[i].0 && Same(x[i].1, y[i].1)
  }

  lemma {:induction false} MarkedAlike(x: Fields, y: Fields)
    requires SameFields(x, y)
    ensures IsMarked(Obj(x)) <==> IsMarked(Obj(y))
  {
    if x != [] {
      MarkedAlike(x[1..], y[1..]);
    }
  }

  lemma SameObj(x: Fields, y: Fields)
    requires SameFields(x, y)
    ensures Same(Obj(x), Obj(y))
  {
    MarkedAlike(x, y);
  }

  // ---------------------------------------------------------------- resolution differs only in marked values

  lemma {:induction false} MissingAlike(fields: Fields, l1: Lookup, l2: Lookup)
    requires l1.Keys == l2.Keys
    ensures Missing(fields, l1) == Missing(fields, l2)
  {
    if fields != [] {
      assert forall n :: n in l1 <==> n in l1.Keys;
      assert forall n :: n in l2 <==> n in l2.Keys;
      MissingAlike(fields[1..], l1, l2);
    }
  }

  ghost predicate Alike<T>(a: Result<T, string>, b: Result<T, string>) {
    a.Ok? == b.Ok? && (a.Err? ==> a == b)
  }

  lemma {:induction false} ResolvedSame(j: Json, l1: Lookup, l2: Lookup)
    requires l1.Keys == l2.Keys
    ensures Alike(Resolve(j, l1), Resolve(j, l2))
    ensures Resolve(j, l1).Ok? ==> Same(Resolve(j, l1).value, Resolve(j, l2).value)
    decreases j, 1
  {
    match j
    case Arr(items) => ItemsSame(items, l1, l2, |items|);
    case Obj(fields) =>
      MissingAlike(fields, l1, l2);
      if Missing(fields, l1).None? {
        SettledOk(fields, l1);
        SlotsSame(fields, l1, l2, |Settled(fields)|);
        var r1, r2 := ResolveSlots(fields, l1, |Settled(fields)|), ResolveSlots(fields, l2, |Settled(fields)|);
        if r1.Ok? { SameObj(r1.value, r2.value); }
      }
    case _ => assert Same(j, j);
  }

  lemma {:induction false} ItemsSame(items: seq<Json>, l1: Lookup, l2: Lookup, k: nat)
    requires l1.Keys == l2.Keys && k <= |items|
    ensures Alike(ResolveItems(items, l1, k), ResolveItems(items, l2, k))
    ensures ResolveItems(items, l1, k).Ok? ==>
              forall i :: 0 <= i < k ==> Same(ResolveItems(items, l1, k).value[i], ResolveItems(items, l2, k).value[i])
    decreases Arr(items), 0, k
  {
    if k > 0 {
      ItemsSame(items, l1, l2, k - 1);
      ResolvedSame(items[k - 1], l1, l2);
    }
  }

  lemma {:induction false} SlotsSame(fields: Fields, l1: Lookup, l2: Lookup, k: nat)
    requires l1.Keys == l2.Keys && k <= |Settled(fields)|
    requires Missing(fields, l1).None? && Missing(fields, l2).None?
    ensures Alike(ResolveSlots(fields, l1, k), ResolveSlots(fields, l2, k))
    ensures ResolveSlots(fields, l1, k).Ok? ==> SameFields(ResolveSlots(fields, l1, k).value, ResolveSlots(fields, l2, k).value)
    decreases Obj(fields), 0, k
  {
    if k > 0 {
      SlotsSame(fields, l1, l2, k - 1);
      SettledOk(fields, l1);
      SettledOk(fields, l2);
      match Settled(fields)[k - 1].1
      case Kept(i) => ResolvedSame(fields[i].1, l1, l2);
      case Secret(name) => MarkedIsMarked(l1[name]); MarkedIsMarked(l2[name]);
    }
  }

  lemma MarkedIsMarked(v: string)
    ensures IsMarked(Marked(v))
  {
    assert FirstValue([(MARKER, Bool(true)), ("value", Str(v))], MARKER) == Some(Bool(true));
  }

  // ---------------------------------------------------------------- fresh markers are left alone

  lemma {:induction false} NoRefsRewritten(fields: Fields, k: nat)
    requires k <= |fields| && forall i :: 0 <= i < |fields| ==> !IsRef(fields[i])
    ensures Rewritten(fields, k) == Original(fields)
  {
    if k > 0 { NoRefsRewritten(fields, k - 1); }
  }

  lemma {:induction false} DropNothing(slots: Slots)
    ensures Drop(slots, {}) == slots
  {
    if slots != [] { DropNothing(slots[1..]); }
  }

  lemma {:induction false} NoRefsMissing(fields: Fields, lookup: Lookup)
    requires forall i :: 0 <= i < |fields| ==> !IsRef(fields[i])
    ensures Missing(fields, lookup).None?
  {
    if fields != [] {
      assert forall i :: 0 <= i < |fields| - 1 ==> fields[1..][i] == fields[i + 1];
      NoRefsMissing(fields[1..], lookup);
    }
  }

  /** Walking a value that was just resolved changes nothing. */
  lemma FreshMarkerStays(v: string, lookup: Lookup)
    ensures Resolve(Marked(v), lookup) == Ok(Marked(v))
  {
    var fields := [(MARKER, Bool(true)), ("value", Str(v))];
    assert !EndsWith("value", SUFFIX) by { assert "value"[|"value"| - |SUFFIX|..][0] != SUFFIX[0]; }
    assert forall i :: 0 <= i < 2 ==> !IsRef(fields[i]);
    NoRefsRewritten(fields, 2);
    NoRefsMissing(fields, lookup);
    DropNothing(Original(fields));
    assert RefKeys(fields) == {};
    assert Settled(fields) == Original(fields) == [(MARKER, Kept(0)), ("value", Kept(1))];
    SettledOk(fields, lookup);
    PlainSlots(fields, lookup, 2);
    assert fields[..2] == fields && |Settled(fields)| == 2 && Marked(v) == Obj(fields);
  }

  lemma {:induction false} PlainSlots(fields: Fields, lookup: Lookup, k: nat)
    requires k <= |fields| && Settled(fields) == Original(fields) && Missing(fields, lookup).None?
    requires forall i :: 0 <= i < |fields| ==> fields[i].1.Bool? || fields[i].1.Str?
    ensures ResolveSlots(fields, lookup, k) == Ok(fields[..k])
  {
    hide Missing;
    if k > 0 {
      PlainSlots(fields, lookup, k - 1);
      var slot := Settled(fields)[k - 1];
      assert slot == (fields[k - 1].0, Kept(k - 1)) && Resolve(fields[k - 1].1, lookup) == Ok(fields[k - 1].1);
      assert fields[..k] == fields[..k - 1] + [fields[k - 1]];
    }
  }

  // ---------------------------------------------------------------- redaction sees no difference

  lemma SameHit(a: Json, b: Json)
    requires Same(a, b)
    ensures Hit(a) == Hit(b)
  {}

  lemma {:induction false} SameClean(a: Json, b: Json, path: Path)
    requires Same(a, b)
    ensures CleanChild(a) == CleanChild(b) && FiredChild(a, path) == FiredChild(b, path)
    ensures !IsMarked(a) ==> Clean(a) == Clean(b) && Fired(a, path) == Fired(b, path)
    decreases a, 1
  {
    SameHit(a, b);
    if !IsMarked(a) {
      match (a, b)
      case (Arr(x), Arr(y)) =>
        forall i | 0 <= i < |x| ensures CleanChild(x[i]) == CleanChild(y[i]) { SameClean(x[i], y[i], path); }
        SameItems(x, y, path, |x|);
      case (Obj(x), Obj(y)) =>
        forall i | 0 <= i < |x| ensures x[i].0 == y[i].0 && CleanChild(x[i].1) == CleanChild(y[i].1) { SameClean(x[i].1, y[i].1, path); }
        SameMembers(x, y, path, |x|);
      case _ =>
    }
  }

  lemma {:induction false} SameItems(x: seq<Json>, y: seq<Json>, path: Path, k: nat)
    requires k <= |x| == |y| && forall i :: 0 <= i < |x| ==> Same(x[i], y[i])
    ensures FiredItems(x, path, k) == FiredItems(y, path, k)
    decreases Arr(x), 0, k
  {
    if k > 0 {
      SameItems(x, y, path, k - 1);
      SameClean(x[k - 1], y[k - 1], path + [Index(k - 1)]);
    }
  }

  lemma {:induction false} SameMembers(x: Fields, y: Fields, path: Path, k: nat)
    requires k <= |x| && SameFields(x, y)
    ensures FiredFields(x, path, k) == FiredFields(y, path, k)
    decreases Obj(x), 0, k
  {
    if k > 0 {
      SameMembers(x, y, path, k - 1);
      SameClean(x[k - 1].1, y[k - 1].1, path + [Key(x[k - 1].0)]);
    }
  }

  // ---------------------------------------------------------------- the whole chain

  /** What is published: the redacted document and the fired rules, or the name that was missing. */
  function Published(document: Json, lookup: Lookup): Result<(Json, seq<(Rule, Path)>), string> {
    var r := Resolve(document, lookup);
    if r.Err? then Err(r.error) else Ok((Clean(r.value), Fired(r.value, [])))
  }

  /** Whether resolving puts a secret anywhere that a later step does not remove again. */
  predicate HoldsSecret(j: Json)
    decreases j
  {
    match j
    case Arr(items) => exists i | 0 <= i < |items| :: HoldsSecret(items[i])
    case Obj(fields) =>
      exists k | 0 <= k < |Settled(fields)| ::
        Settled(fields)[k].1.Secret? || (Settled(fields)[k].1.i < |fields| && HoldsSecret(fields[Settled(fields)[k].1.i].1))
    case _ => false
  }

  lemma {:induction false} NoSecretNoDifference(j: Json, l1: Lookup, l2: Lookup)
    requires l1.Keys == l2.Keys && !HoldsSecret(j)
    ensures Resolve(j, l1) == Resolve(j, l2)
    decreases j, 1
  {
    match j
    case Arr(items) => ItemsEqual(items, l1, l2, |items|);
    case Obj(fields) =>
      MissingAlike(fields, l1, l2);
      if Missing(fields, l1).None? { SlotsEqual(fields, l1, l2, |Settled(fields)|); }
    case _ =>
  }

  lemma {:induction false} ItemsEqual(items: seq<Json>, l1: Lookup, l2: Lookup, k: nat)
    requires l1.Keys == l2.Keys && k <= |items| && !HoldsSecret(Arr(items))
    ensures ResolveItems(items, l1, k) == ResolveItems(items, l2, k)
    decreases Arr(items), 0, k
  {
    if k > 0 {
      ItemsEqual(items, l1, l2, k - 1);
      NoSecretNoDifference(items[k - 1], l1, l2);
    }
  }

  lemma {:induction false} SlotsEqual(fields: Fields, l1: Lookup, l2: Lookup, k: nat)
    requires l1.Keys == l2.Keys && k <= |Settled(fields)| && !HoldsSecret(Obj(fields))
    requires Missing(fields, l1).None? && Missing(fields, l2).None?
    ensures ResolveSlots(fields, l1, k) == ResolveSlots(fields, l2, k)
    decreases Obj(fields), 0, k
  {
    if k > 0 {
      SlotsEqual(fields, l1, l2, k - 1);
      SettledOk(fields, l1);
      assert Settled(fields)[k - 1].1.Kept?;
      NoSecretNoDifference(fields[Settled(fields)[k - 1].1.i].1, l1, l2);
    }
  }

  /** Lookups that differ on every name resolve a document that holds a secret differently. */
  ghost predicate DifferEverywhere(l1: Lookup, l2: Lookup) {
    l1.Keys == l2.Keys && forall n :: n in l1 ==> l1[n] != l2[n]
  }

  lemma {:induction false} SecretDiffers(j: Json, l1: Lookup, l2: Lookup)
    requires DifferEverywhere(l1, l2) && HoldsSecret(j) && Resolve(j, l1).Ok? && Resolve(j, l2).Ok?
    ensures Resolve(j, l1) != Resolve(j, l2)
    decreases j, 1
  {
    match j
    case Arr(items) =>
      var i :| 0 <= i < |items| && HoldsSecret(items[i]);
      ItemAt(items, l1, |items|, i);
      ItemAt(items, l2, |items|, i);
      SecretDiffers(items[i], l1, l2);
    case Obj(fields) =>
      var k :| 0 <= k < |Settled(fields)| && (Settled(fields)[k].1.Secret? ||
               (Settled(fields)[k].1.i < |fields| && HoldsSecret(fields[Settled(fields)[k].1.i].1)));
      SlotAt(fields, l1, |Settled(fields)|, k);
      SlotAt(fields, l2, |Settled(fields)|, k);
      if Settled(fields)[k].1.Kept? { SecretDiffers(fields[Settled(fields)[k].1.i].1, l1, l2); }
  }

  lemma {:induction false} ItemAt(items: seq<Json>, lookup: Lookup, k: nat, i: nat)
    requires i < k <= |items| && ResolveItems(items, lookup, k).Ok?
    ensures Resolve(items[i], lookup).Ok? && ResolveItems(items, lookup, k).value[i] == Resolve(items[i], lookup).value
  {
    if i < k - 1 { ItemAt(items, lookup, k - 1, i); }
  }

  lemma {:induction false} SlotAt(fields: Fields, lookup: Lookup, k: nat, i: nat)
    requires i < k <= |Settled(fields)| && Missing(fields, lookup).None? && ResolveSlots(fields, lookup, k).Ok?
    ensures match Settled(fields)[i].1
            case Secret(name) => name in lookup && ResolveSlots(fields, lookup, k).value[i].1 == Marked(lookup[name])
            case Kept(m) => m < |fields| && Resolve(fields[m].1, lookup).Ok?
                            && ResolveSlots(fields, lookup, k).value[i].1 == Resolve(fields[m].1, lookup).value
  {
    SettledOk(fields, lookup);
    hide Settled, Missing;
    if i < k - 1 { SlotAt(fields, lookup, k - 1, i); }
  }

  // ---------------------------------------------------------------- when the resolved root is marked

  /** Where the first member of this name comes from. */
  function FirstSlot(slots: Slots, key: string): Option<Origin> {
    if slots == [] then None else if slots[0].0 == key then Some(slots[0].1) else FirstSlot(slots[1..], key)
  }

  lemma {:induction false} FirstPut(slots: Slots, key: string, o: Origin, name: string)
    ensures FirstSlot(Put(slots, key, o), name) == if key == name then Some(o) else FirstSlot(slots, name)
  {
    if slots != [] { FirstPut(slots[1..], key, o, name); }
  }

  lemma {:induction false} FirstDrop(slots: Slots, keys: set<string>, name: string)
    requires name !in keys
    ensures FirstSlot(Drop(slots, keys), name) == FirstSlot(slots, name)
  {
    if slots != [] {
      FirstDrop(slots[1..], keys, name);
      assert ([slots[0]] + Drop(slots[1..], keys))[1..] == Drop(slots[1..], keys) == [] + Drop(slots[1..], keys);
    }
  }

  /** Some reference sets the member of this name. */
  predicate Targeted(fields: Fields, name: string, k: nat)
    requires k <= |fields|
  {
    exists i | 0 <= i < k :: IsRef(fields[i]) && Target(fields[i].0) == name
  }

  lemma {:induction false} FirstRewritten(fields: Fields, k: nat, name: string)
    requires k <= |fields|
    ensures var o := FirstSlot(Rewritten(fields, k), name);
            if Targeted(fields, name, k) then o.Some? && o.value.Secret? else o == FirstSlot(Original(fields), name)
  {
    if k > 0 {
      FirstRewritten(fields, k - 1, name);
      if IsRef(fields[k - 1]) {
        FirstPut(Rewritten(fields, k - 1), Target(fields[k - 1].0), Secret(SecretName(fields[k - 1].1.s)), name);
      }
    }
  }

  lemma {:induction false} FirstOf(slots: Slots, name: string, k: nat)
    requires k < |slots| && slots[k].0 == name && forall j :: 0 <= j < k ==> slots[j].0 != name
    ensures FirstSlot(slots, name) == Some(slots[k].1)
  {
    if k > 0 { FirstOf(slots[1..], name, k - 1); }
  }

  lemma {:induction false} NoneOf(slots: Slots, name: string)
    requires forall j :: 0 <= j < |slots| ==> slots[j].0 != name
    ensures FirstSlot(slots, name).None?
  {
    if slots != [] { NoneOf(slots[1..], name); }
  }

  lemma {:induction false} FirstOfFields(fields: Fields, name: string, k: nat)
    requires k < |fields| && fields[k].0 == name && forall j :: 0 <= j < k ==> fields[j].0 != name
    ensures FirstValue(fields, name) == Some(fields[k].1)
  {
    if k > 0 { FirstOfFields(fields[1..], name, k - 1); }
  }

  lemma {:induction false} NoneOfFields(fields: Fields, name: string)
    requires forall j :: 0 <= j < |fields| ==> fields[j].0 != name
    ensures FirstValue(fields, name).None?
  {
    if fields != [] { NoneOfFields(fields[1..], name); }
  }

  /** The first member of a name, if there is one. */
  lemma {:induction false} Search(fields: Fields, name: string) returns (k: nat)
    ensures k <= |fields| && (k < |fields| ==> fields[k].0 == name) && forall j :: 0 <= j < k ==> fields[j].0 != name
  {
    if fields == [] || fields[0].0 == name {
      k := 0;
    } else {
      k := Search(fields[1..], name);
      k := k + 1;
      assert forall j :: 0 < j < k ==> fields[j] == fields[1..][j - 1];
    }
  }

  lemma {:induction false} ResolvedKeys(fields: Fields, lookup: Lookup, k: nat)
    requires k <= |Settled(fields)| && Missing(fields, lookup).None? && ResolveSlots(fields, lookup, k).Ok?
    ensures forall i :: 0 <= i < k ==> ResolveSlots(fields, lookup, k).value[i].0 == Settled(fields)[i].0
  {
    hide Settled, Missing;
    SettledOk(fields, lookup);
    if k > 0 { ResolvedKeys(fields, lookup, k - 1); }
  }

  /** The marker's member of the document, if any: where it is first found. */
  lemma FirstOriginal(fields: Fields, name: string)
    ensures var o := FirstSlot(Original(fields), name);
            && (o.None? ==> FirstValue(fields, name).None?)
            && (o.Some? ==> o.value.Kept? && o.value.i < |fields| && FirstValue(fields, name) == Some(fields[o.value.i].1))
  {
    var k := Search(fields, name);
    if k < |fields| {
      FirstOfFields(fields, name, k);
      FirstOf(Original(fields), name, k);
    } else {
      NoneOfFields(fields, name);
      NoneOf(Original(fields), name);
    }
  }

  /** The first member of a name in a resolved object is what its slot says. */
  lemma FirstResolved(fields: Fields, lookup: Lookup, name: string)
    requires Missing(fields, lookup).None? && ResolveSlots(fields, lookup, |Settled(fields)|).Ok?
    ensures var found, o := FirstValue(ResolveSlots(fields, lookup, |Settled(fields)|).value, name), FirstSlot(Settled(fields), name);
            && (o.None? ==> found.None?)
            && (o.Some? && o.value.Secret? ==> o.value.name in lookup && found == Some(Marked(lookup[o.value.name])))
            && (o.Some? && o.value.Kept? ==> o.value.i < |fields| && Resolve(fields[o.value.i].1, lookup).Ok?
                                             && found == Some(Resolve(fields[o.value.i].1, lookup).value))
  {
    var slots := Settled(fields);
    var done := ResolveSlots(fields, lookup, |slots|).value;
    ResolvedKeys(fields, lookup, |slots|);
    var k := Search(done, name);
    if k < |done| {
      FirstOfFields(done, name, k);
      FirstOf(slots, name, k);
      SlotAt(fields, lookup, |slots|, k);
    } else {
      NoneOfFields(done, name);
      NoneOf(slots, name);
    }
  }

  /** The caller's side of it: the document's root is marked, and no reference replaces the mark. */
  predicate MarkedRoot(document: Json) {
    IsMarked(document) && !Targeted(document.fields, MARKER, |document.fields|)
  }

  lemma MarkerIsNoRef(fields: Fields)
    ensures MARKER !in RefKeys(fields)
  {
    assert !EndsWith(MARKER, SUFFIX) by { assert MARKER[|MARKER| - |SUFFIX|..][0] != SUFFIX[0]; }
  }

  /** Resolving keeps the root's mark, unless a reference replaces it, and never adds one. */
  lemma ResolvedMarked(document: Json, lookup: Lookup)
    requires Resolve(document, lookup).Ok?
    ensures IsMarked(Resolve(document, lookup).value) <==> MarkedRoot(document)
  {
    if document.Obj? {
      var fields := document.fields;
      MarkerIsNoRef(fields);
      FirstDrop(Rewritten(fields, |fields|), RefKeys(fields), MARKER);
      FirstRewritten(fields, |fields|, MARKER);
      FirstOriginal(fields, MARKER);
      FirstResolved(fields, lookup, MARKER);
      var o := FirstSlot(Settled(fields), MARKER);
      if o.Some? && o.value.Kept? { BoolResolves(fields[o.value.i].1, lookup); }
    }
  }

  lemma BoolResolves(j: Json, lookup: Lookup)
    requires Resolve(j, lookup).Ok?
    ensures Resolve(j, lookup).value == Bool(true) <==> j == Bool(true)
  {}

  /** The published result is the same for every lookup with the same names if and only if the document's
      root is not marked, or its mark is replaced, or no secret is put anywhere. */
  lemma PublishedIndependent(document: Json, l1: Lookup)
    requires Resolve(document, l1).Ok?
    ensures (forall l2: Lookup :: l2.Keys == l1.Keys ==> Published(document, l2) == Published(document, l1))
      <==> !MarkedRoot(document) || !HoldsSecret(document)
  {
    hide HoldsSecret, Clean, Fired, IsMarked, MarkedRoot;
    ResolvedMarked(document, l1);
    if !MarkedRoot(document) || !HoldsSecret(document) {
      forall l2: Lookup | l2.Keys == l1.Keys ensures Published(document, l2) == Published(document, l1) {
        ResolvedSame(document, l1, l2);
        if HoldsSecret(document) {
          SameClean(Resolve(document, l1).value, Resolve(document, l2).value, []);
        } else {
          NoSecretNoDifference(document, l1, l2);
        }
      }
    } else {
      var l2: Lookup := map n | n in l1 :: l1[n] + "x";
      assert DifferEverywhere(l1, l2) by { assert forall n :: n in l1 ==> |l1[n]| != |l1[n] + "x"|; }
      ResolvedSame(document, l1, l2);
      SecretDiffers(document, l1, l2);
      MarkedRootStays(Resolve(document, l1).value, Resolve(document, l2).value);
      assert l2.Keys == l1.Keys && Published(document, l2) != Published(document, l1);
    }
  }

  /** Any document whose root is not marked is published alike for all lookups of the same names, refusals
      included: same document, same fired rules. */
  lemma UnmarkedIndependent(document: Json, l1: Lookup, l2: Lookup)
    requires !IsMarked(document) && l1.Keys == l2.Keys
    ensures Published(document, l1) == Published(document, l2)
  {
    ResolvedSame(document, l1, l2);
    if Resolve(document, l1).Ok? { UnmarkedResolved(document, l1, l2); }
  }

  lemma UnmarkedResolved(document: Json, l1: Lookup, l2: Lookup)
    requires !IsMarked(document) && l1.Keys == l2.Keys && Resolve(document, l1).Ok?
    ensures Published(document, l1) == Published(document, l2)
  {
    PublishedIndependent(document, l1);
    hide Published, HoldsSecret, Resolve, IsMarked, Targeted;
  }

  /** A marked root with one reference: two passwords, two published documents. */
  lemma MarkedRootLeaks()
    ensures var document := Obj([(MARKER, Bool(true)), ("x_from", Str(SECRET + "a"))]);
            && Published(document, map["a" := "p"]).Ok?
            && Published(document, map["a" := "p"]) != Published(document, map["a" := "q"])
  {
    var fields := [(MARKER, Bool(true)), ("x_from", Str(SECRET + "a"))];
    var l1: Lookup, l2: Lookup := map["a" := "p"], map["a" := "q"];
    OneResolved(fields, l1);
    OneResolved(fields, l2);
    hide Resolve;
    assert IsMarked(Obj([(MARKER, Bool(true)), ("x", Marked("p"))])) && IsMarked(Obj([(MARKER, Bool(true)), ("x", Marked("q"))]));
  }

  lemma OneReference(fields: Fields)
    requires fields == [(MARKER, Bool(true)), ("x_from", Str(SECRET + "a"))]
    ensures IsRef(fields[1]) && Target(fields[1].0) == "x" && SecretName(fields[1].1.s) == "a" && !IsRef(fields[0])
  {
    assert "x_from"[|"x_from"| - |SUFFIX|..] == SUFFIX && "x_from"[..|"x_from"| - |SUFFIX|] == "x";
    assert (SECRET + "a")[|SECRET|..] == "a";
  }

  lemma OneSettled(fields: Fields)
    requires fields == [(MARKER, Bool(true)), ("x_from", Str(SECRET + "a"))]
    ensures Settled(fields) == [(MARKER, Kept(0)), ("x", Secret("a"))]
  {
    OneReference(fields);
    MarkerIsNoRef(fields);
    assert fields[1].0 in RefKeys(fields) && RefKeys(fields) == {"x_from"};
    hide IsRef, Target, SecretName;
    var o := Secret("a");
    assert "x"[0] != MARKER[0] && |"x"| != |"x_from"|;
    assert Rewritten(fields, 0) == Original(fields) == [(MARKER, Kept(0)), ("x_from", Kept(1))];
    assert Rewritten(fields, 1) == Original(fields);
    assert Original(fields)[1..] == [("x_from", Kept(1))] && [("x_from", Kept(1))][1..] == [];
    assert Put([], "x", o) == [("x", o)];
    assert Put([("x_from", Kept(1))], "x", o) == [("x_from", Kept(1)), ("x", o)];
    var slots := Rewritten(fields, 2);
    assert slots == [(MARKER, Kept(0)), ("x_from", Kept(1)), ("x", o)];
    assert slots[1..] == [("x_from", Kept(1)), ("x", o)] && slots[1..][1..] == [("x", o)] && [("x", o)][1..] == [];
    assert Drop([("x", o)], {"x_from"}) == [("x", o)];
    assert Drop(slots[1..], {"x_from"}) == [("x", o)];
  }

  lemma OneResolved(fields: Fields, lookup: Lookup)
    requires fields == [(MARKER, Bool(true)), ("x_from", Str(SECRET + "a"))] && "a" in lookup
    ensures Resolve(Obj(fields), lookup) == Ok(Obj([(MARKER, Bool(true)), ("x", Marked(lookup["a"]))]))
  {
    OneReference(fields);
    OneSettled(fields);
    hide Settled, Marked, IsRef, SecretName;
    assert fields[1..] == [fields[1]] && [fields[1]][1..] == [];
    assert Missing([fields[1]], lookup).None?;
    assert Missing(fields, lookup).None?;
    SettledOk(fields, lookup);
    assert ResolveSlots(fields, lookup, 0) == Ok([]);
    var slot := Settled(fields)[0];
    assert slot == (MARKER, Kept(0)) && Resolve(fields[0].1, lookup) == Ok(Bool(true));
    assert ResolveSlots(fields, lookup, 0).value + [(slot.0, Bool(true))] == [(MARKER, Bool(true))];
    var first := ResolveSlots(fields, lookup, 1);
    assert first == Ok([(MARKER, Bool(true))]) && Settled(fields)[1] == ("x", Secret("a"));
    assert first.value + [("x", Marked(lookup["a"]))] == [(MARKER, Bool(true)), ("x", Marked(lookup["a"]))];
    assert ResolveSlots(fields, lookup, 2) == Ok([(MARKER, Bool(true)), ("x", Marked(lookup["a"]))]);
  }

  lemma MarkedRootStays(a: Json, b: Json)
    requires Same(a, b) && IsMarked(a)
    ensures Clean(a) == a && Clean(b) == b
  {}
}
