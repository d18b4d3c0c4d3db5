/** What resolving and redacting do to a document, told from the members it holds: where each resolved member
    comes from, which error is reported, what is replaced, and which rule fires where. */
module SecretMeaning {
  import opened Wrappers
  import opened Json
  import opened SecretMarkers
  import SecretIndependence

  ghost predicate OneEach(fields: Fields) { forall i, k :: 0 <= i < k < |fields| ==> fields[i].0 != fields[k].0 }

  /** A document as it is: no object holds a key twice. */
  ghost predicate Proper(j: Json)
    decreases j
  {
    match j
    case Arr(items) => forall i :: 0 <= i < |items| ==> Proper(items[i])
    case Obj(fields) => OneEach(fields) && forall i :: 0 <= i < |fields| ==> Proper(fields[i].1)
    case _ => true
  }

  lemma SameMember(fields: Fields, i: nat, k: nat)
    requires OneEach(fields) && i < |fields| && k < |fields| && fields[i].0 == fields[k].0
    ensures i == k
  {
    assert !(i < k) && !(k < i);
  }

  // ---------------------------------------------------------------- the members of one object

  /** The object asks for this secret under this key. */
  ghost predicate Asks(fields: Fields, key: string, name: string) { (key + "_from", Str("env.secret." + name)) in fields }

  ghost predicate Asked(fields: Fields, key: string) { exists name :: Asks(fields, key, name) }

  /** The member is itself such a request. */
  ghost predicate IsRequest(f: (string, Json)) {
    exists key: string, name: string :: f == (key + "_from", Str("env.secret." + name))
  }

  ghost predicate Request(fields: Fields, key: string) { exists f :: f in fields && f.0 == key && IsRequest(f) }

  lemma RequestExactly(f: (string, Json))
    ensures IsRef(f) <==> IsRequest(f)
    ensures IsRef(f) ==> f == (Target(f.0) + "_from", Str("env.secret." + SecretName(f.1.s)))
    ensures forall key, name :: f == (key + "_from", Str("env.secret." + name)) ==>
              IsRef(f) && Target(f.0) == key && SecretName(f.1.s) == name
  {
    if IsRef(f) {
      assert f.0 == Target(f.0) + "_from" && f.1.s == "env.secret." + SecretName(f.1.s);
    }
    forall key, name | f == (key + "_from", Str("env.secret." + name))
      ensures IsRef(f) && Target(f.0) == key && SecretName(f.1.s) == name
    {
      assert f.0[|key|..] == "_from" && f.0[..|key|] == key;
      assert f.1.s[..|SECRET|] == SECRET && f.1.s[|SECRET|..] == name;
    }
  }

  /** Among the first k members. */
  ghost predicate AsksBefore(fields: Fields, k: nat, key: string, name: string)
    requires k <= |fields|
  {
    exists i :: 0 <= i < k && Refers(fields[i], key, name)
  }

  ghost predicate Refers(f: (string, Json), key: string, name: string) {
    IsRef(f) && Target(f.0) == key && SecretName(f.1.s) == name
  }

  ghost predicate AskedBefore(fields: Fields, k: nat, key: string)
    requires k <= |fields|
  {
    exists name :: AsksBefore(fields, k, key, name)
  }

  lemma OneRequest(fields: Fields, i: nat, k: nat)
    requires OneEach(fields) && i < |fields| && k < |fields|
    requires IsRef(fields[i]) && IsRef(fields[k]) && Target(fields[i].0) == Target(fields[k].0)
    ensures i == k
  {
    RequestExactly(fields[i]);
    RequestExactly(fields[k]);
    SameMember(fields, i, k);
  }

  lemma AsksExactly(fields: Fields, key: string, name: string)
    ensures AsksBefore(fields, |fields|, key, name) <==> Asks(fields, key, name)
  {
    forall i | 0 <= i < |fields| ensures Refers(fields[i], key, name) <==> fields[i] == (key + "_from", Str("env.secret." + name)) {
      RequestExactly(fields[i]);
    }
  }

  /** Where a member stands after the first k members have been looked at. */
  ghost predicate Stands(fields: Fields, k: nat, s: (string, Origin))
    requires k <= |fields|
  {
    match s.1
    case Secret(name) => AsksBefore(fields, k, s.0, name)
    case Kept(i) => i < |fields| && fields[i].0 == s.0 && !AskedBefore(fields, k, s.0)
  }

  /** Which member comes first: those of the document in their order, then those that only a request sets. */
  ghost function Rank(fields: Fields, key: string): nat {
    if Has(fields, key) then (var i: nat :| i < |fields| && fields[i].0 == key; i)
    else if SetAt(fields, key) then (var i: nat :| i < |fields| && Sets(fields[i], key); |fields| + i)
    else 2 * |fields|
  }

  ghost predicate Has(fields: Fields, key: string) { exists i: nat :: i < |fields| && fields[i].0 == key }
  ghost predicate Sets(f: (string, Json), key: string) { IsRef(f) && Target(f.0) == key }
  ghost predicate SetAt(fields: Fields, key: string) { exists i: nat :: i < |fields| && Sets(fields[i], key) }

  lemma RankOfMember(fields: Fields, i: nat)
    requires OneEach(fields) && i < |fields|
    ensures Rank(fields, fields[i].0) == i
  {
    var r := Rank(fields, fields[i].0);
    SameMember(fields, i, r);
  }

  lemma RankOfNew(fields: Fields, i: nat)
    requires OneEach(fields) && i < |fields| && IsRef(fields[i]) && !Has(fields, Target(fields[i].0))
    ensures Rank(fields, Target(fields[i].0)) == |fields| + i
  {
    assert Sets(fields[i], Target(fields[i].0));
    var r := Rank(fields, Target(fields[i].0)) - |fields|;
    OneRequest(fields, i, r);
  }

  ghost predicate Ranked(fields: Fields, slots: Slots) {
    forall p, q :: 0 <= p < q < |slots| ==> Rank(fields, slots[p].0) < Rank(fields, slots[q].0)
  }

  /** Exactly these members, each once, in this order. */
  ghost predicate HoldsAll(fields: Fields, k: nat, slots: Slots)
    requires k <= |fields|
  {
    && Ranked(fields, slots)
    && (forall s :: s in slots <==> Stands(fields, k, s))
  }

  lemma {:induction false} PutOnce(slots: Slots, key: string, o: Origin)
    requires forall p, q :: 0 <= p < q < |slots| ==> slots[p].0 != slots[q].0
    ensures forall s :: s in Put(slots, key, o) <==> (s == (key, o) || (s in slots && s.0 != key))
  {
    if slots != [] {
      forall p, q | 0 <= p < q < |slots[1..]| ensures slots[1..][p].0 != slots[1..][q].0 {
        assert slots[p + 1].0 != slots[q + 1].0;
      }
      PutOnce(slots[1..], key, o);
      forall s ensures s in Put(slots, key, o) <==> (s == (key, o) || (s in slots && s.0 != key)) {
        assert s in slots <==> s == slots[0] || s in slots[1..];
        if s in slots[1..] {
          var q :| 0 < q < |slots| && slots[q] == s;
          assert slots[0].0 != slots[q].0;
        }
        if slots[0].0 == key {
          assert s in [(key, o)] + slots[1..] <==> s == (key, o) || s in slots[1..];
        } else {
          assert s in [slots[0]] + Put(slots[1..], key, o) <==> s == slots[0] || s in Put(slots[1..], key, o);
        }
      }
    }
  }

  lemma {:induction false} PutKeys(slots: Slots, key: string, o: Origin)
    ensures var put := Put(slots, key, o);
            if exists p :: 0 <= p < |slots| && slots[p].0 == key
            then |put| == |slots| && forall p :: 0 <= p < |slots| ==> put[p].0 == slots[p].0
            else put == slots + [(key, o)]
  {
    if slots != [] && slots[0].0 != key {
      PutKeys(slots[1..], key, o);
      if exists p :: 0 <= p < |slots| && slots[p].0 == key {
        var p :| 0 <= p < |slots| && slots[p].0 == key;
        assert slots[1..][p - 1].0 == key;
        assert forall p :: 0 < p < |slots| ==> slots[p] == slots[1..][p - 1];
      } else {
        assert forall p :: 0 <= p < |slots| - 1 ==> slots[1..][p] == slots[p + 1];
      }
    }
  }

  lemma RankedOnce(fields: Fields, slots: Slots)
    requires Ranked(fields, slots)
    ensures forall p, q :: 0 <= p < q < |slots| ==> slots[p].0 != slots[q].0
  {
    hide Rank;
  }

  lemma AsksNext(fields: Fields, k: nat, key: string, name: string)
    requires k < |fields|
    ensures AsksBefore(fields, k + 1, key, name) <==> AsksBefore(fields, k, key, name) || Refers(fields[k], key, name)
  {}

  lemma AskedNext(fields: Fields, k: nat, key: string)
    requires k < |fields| && !Sets(fields[k], key)
    ensures AskedBefore(fields, k + 1, key) <==> AskedBefore(fields, k, key)
    ensures forall name :: AsksBefore(fields, k + 1, key, name) <==> AsksBefore(fields, k, key, name)
  {
    forall name ensures AsksBefore(fields, k + 1, key, name) <==> AsksBefore(fields, k, key, name) { AsksNext(fields, k, key, name); }
    if AskedBefore(fields, k, key) {
      var name :| AsksBefore(fields, k, key, name);
      AsksNext(fields, k, key, name);
    }
    if AskedBefore(fields, k + 1, key) {
      var name :| AsksBefore(fields, k + 1, key, name);
      AsksNext(fields, k, key, name);
    }
  }

  lemma StandsNext(fields: Fields, k: nat, s: (string, Origin))
    requires OneEach(fields) && k < |fields|
    ensures !IsRef(fields[k]) || Target(fields[k].0) != s.0 ==> (Stands(fields, k + 1, s) <==> Stands(fields, k, s))
    ensures IsRef(fields[k]) && Target(fields[k].0) == s.0 ==>
              (Stands(fields, k + 1, s) <==> s.1 == Secret(SecretName(fields[k].1.s)))
  {
    if Sets(fields[k], s.0) {
      var asked, next := SecretName(fields[k].1.s), k + 1;
      forall name ensures AsksBefore(fields, next, s.0, name) ==> name == asked {
        forall i | 0 <= i < k ensures !Refers(fields[i], s.0, name) {
          if Refers(fields[i], s.0, name) { OneRequest(fields, i, k); }
        }
        AsksNext(fields, k, s.0, name);
      }
      assert Refers(fields[k], s.0, asked) && AsksBefore(fields, k + 1, s.0, asked);
    } else {
      AskedNext(fields, k, s.0);
    }
  }

  /** A key that stands is a key of the document or set by a request already met. */
  lemma StandsRank(fields: Fields, k: nat, s: (string, Origin))
    requires OneEach(fields) && k <= |fields| && Stands(fields, k, s)
    ensures Rank(fields, s.0) < |fields| + k
    ensures Has(fields, s.0) || AskedBefore(fields, k, s.0)
  {
    if Has(fields, s.0) {
      var i: nat :| i < |fields| && fields[i].0 == s.0;
      RankOfMember(fields, i);
    } else {
      var name := s.1.name;
      var i :| 0 <= i < k && Refers(fields[i], s.0, name);
      RankOfNew(fields, i);
    }
  }

  lemma HoldsNext(fields: Fields, k: nat, slots: Slots)
    requires OneEach(fields) && k < |fields| && IsRef(fields[k]) && HoldsAll(fields, k, slots)
    ensures HoldsAll(fields, k + 1, Put(slots, Target(fields[k].0), Secret(SecretName(fields[k].1.s))))
  {
    var key, o := Target(fields[k].0), Secret(SecretName(fields[k].1.s));
    RankedOnce(fields, slots);
    PutOnce(slots, key, o);
    forall s ensures s in Put(slots, key, o) <==> Stands(fields, k + 1, s) { StandsNext(fields, k, s); }
    PutRanked(fields, k, slots, key, o);
  }

  lemma PutRanked(fields: Fields, k: nat, slots: Slots, key: string, o: Origin)
    requires OneEach(fields) && k < |fields| && IsRef(fields[k]) && HoldsAll(fields, k, slots) && key == Target(fields[k].0)
    ensures Ranked(fields, Put(slots, key, o))
  {
    PutKeys(slots, key, o);
    if exists p :: 0 <= p < |slots| && slots[p].0 == key {
      hide Rank, Stands;
    } else {
      if Has(fields, key) {
        var i: nat :| i < |fields| && fields[i].0 == key;
        PresentSlot(fields, k, slots, i);
        assert false;
      }
      RankOfNew(fields, k);
      forall p | 0 <= p < |slots| ensures Rank(fields, slots[p].0) < Rank(fields, key) {
        assert slots[p] in slots;
        StandsRank(fields, k, slots[p]);
      }
    }
  }

  lemma PresentSlot(fields: Fields, k: nat, slots: Slots, i: nat)
    requires OneEach(fields) && k <= |fields| && HoldsAll(fields, k, slots) && i < |fields|
    ensures exists p :: 0 <= p < |slots| && slots[p].0 == fields[i].0
  {
    var key := fields[i].0;
    if AskedBefore(fields, k, key) {
      var name :| AsksBefore(fields, k, key, name);
      assert Stands(fields, k, (key, Secret(name)));
      assert (key, Secret(name)) in slots;
    } else {
      assert Stands(fields, k, (key, Kept(i)));
      assert (key, Kept(i)) in slots;
    }
  }

  lemma HoldsFirst(fields: Fields)
    requires OneEach(fields)
    ensures HoldsAll(fields, 0, Original(fields))
  {
    var slots := Original(fields);
    forall p, q | 0 <= p < q < |slots| ensures Rank(fields, slots[p].0) < Rank(fields, slots[q].0) {
      RankOfMember(fields, p);
      RankOfMember(fields, q);
    }
    hide Rank;
    forall s | Stands(fields, 0, s) ensures s in slots { assert slots[s.1.i] == s; }
  }

  lemma HoldsSame(fields: Fields, k: nat, slots: Slots)
    requires OneEach(fields) && k < |fields| && !IsRef(fields[k]) && HoldsAll(fields, k, slots)
    ensures HoldsAll(fields, k + 1, slots)
  {
    hide Rank;
    forall s ensures Stands(fields, k + 1, s) <==> Stands(fields, k, s) { StandsNext(fields, k, s); }
    hide Stands, OneEach;
  }

  lemma {:induction false} RewrittenHolds(fields: Fields, k: nat)
    requires OneEach(fields) && k <= |fields|
    ensures HoldsAll(fields, k, Rewritten(fields, k))
  {
    hide HoldsAll, OneEach, IsRef;
    if k == 0 {
      HoldsFirst(fields);
    } else {
      RewrittenHolds(fields, k - 1);
      if IsRef(fields[k - 1]) {
        HoldsNext(fields, k - 1, Rewritten(fields, k - 1));
      } else {
        HoldsSame(fields, k - 1, Rewritten(fields, k - 1));
      }
    }
  }

  lemma {:induction false} DropExactly(fields: Fields, slots: Slots, keys: set<string>)
    requires Ranked(fields, slots)
    ensures Ranked(fields, Drop(slots, keys))
    ensures forall s :: s in Drop(slots, keys) <==> s in slots && s.0 !in keys
  {
    hide Rank;
    if slots != [] {
      var rest := Drop(slots[1..], keys);
      forall p, q | 0 <= p < q < |slots[1..]| ensures Rank(fields, slots[1..][p].0) < Rank(fields, slots[1..][q].0) {
        assert slots[p + 1].0 == slots[1..][p].0;
      }
      DropExactly(fields, slots[1..], keys);
      forall p | 0 <= p < |rest| ensures Rank(fields, slots[0].0) < Rank(fields, rest[p].0) {
        assert rest[p] in rest;
        var q :| 0 <= q < |slots[1..]| && slots[1..][q] == rest[p];
        assert slots[q + 1] == rest[p];
      }
      forall s ensures s in Drop(slots, keys) <==> s in slots && s.0 !in keys {
        assert s in slots <==> s == slots[0] || s in slots[1..];
      }
    }
  }

  /** Where a member of the resolved object comes from: it is no request itself; a secret stands where a request
      asks for it, and any other member of the document is kept. */
  ghost predicate Comes(fields: Fields, key: string, o: Origin) {
    && !Request(fields, key)
    && match o
       case Secret(name) => Asks(fields, key, name)
       case Kept(i) => i < |fields| && fields[i].0 == key && !Asked(fields, key)
  }

  /** The resolved object holds exactly the members that come from somewhere, each once: those with a key of
      the document in its order, then the others in the order of their requests. */
  lemma SettledExactly(fields: Fields)
    requires OneEach(fields)
    ensures forall key, o :: (key, o) in Settled(fields) <==> Comes(fields, key, o)
    ensures Ranked(fields, Settled(fields))
  {
    RewrittenHolds(fields, |fields|);
    DropExactly(fields, Rewritten(fields, |fields|), RefKeys(fields));
    hide Rank, Ranked, Rewritten, Drop;
    forall key, o ensures (key, o) in Settled(fields) <==> Comes(fields, key, o) {
      KeysExactly(fields, key);
      StandsExactly(fields, (key, o));
    }
  }

  lemma KeysExactly(fields: Fields, key: string)
    ensures key in RefKeys(fields) <==> Request(fields, key)
  {
    forall f | f in fields ensures IsRef(f) <==> IsRequest(f) { RequestExactly(f); }
    hide IsRef, IsRequest;
    if key in RefKeys(fields) {
      var i :| 0 <= i < |fields| && IsRef(fields[i]) && fields[i].0 == key;
      assert fields[i] in fields;
    }
  }

  lemma StandsExactly(fields: Fields, s: (string, Origin))
    ensures Stands(fields, |fields|, s) <==>
            match s.1
            case Secret(name) => Asks(fields, s.0, name)
            case Kept(i) => i < |fields| && fields[i].0 == s.0 && !Asked(fields, s.0)
  {
    forall name ensures AsksBefore(fields, |fields|, s.0, name) <==> Asks(fields, s.0, name) { AsksExactly(fields, s.0, name); }
    hide AsksBefore, Asks;
  }

  // ---------------------------------------------------------------- the resolved document

  /** The member that replaces a request: the secret, marked. */
  ghost predicate IsSecret(j: Json, value: string) { j == Obj([("__range42_vault_origin__", Bool(true)), ("value", Str(value))]) }

  /** The name is looked up when the document is walked: an object asks for it, or a list's item or a member that
      no request replaces does. */
  ghost predicate LooksUp(j: Json, name: string)
    decreases j
  {
    match j
    case Arr(items) => exists i :: 0 <= i < |items| && LooksUp(items[i], name)
    case Obj(fields) =>
      || (exists key :: Asks(fields, key, name))
      || exists i :: 0 <= i < |fields| && Walked(fields, i) && LooksUp(fields[i].1, name)
    case _ => false
  }

  ghost predicate Walked(fields: Fields, i: nat)
    requires i < |fields|
  {
    !IsRequest(fields[i]) && !Asked(fields, fields[i].0)
  }

  /** The member of the resolved object, told from the document. */
  ghost predicate Member(fields: Fields, lookup: Lookup, m: (string, Json))
    decreases Obj(fields), 0
  {
    && !Request(fields, m.0)
    && if Asked(fields, m.0) then exists name :: Asks(fields, m.0, name) && name in lookup && IsSecret(m.1, lookup[name])
       else exists i :: 0 <= i < |fields| && fields[i].0 == m.0 && Resolved(fields[i].1, lookup, m.1)
  }

  ghost predicate Holds(fields: Fields, key: string) { exists m :: m in fields && m.0 == key }

  ghost predicate InRank(fields: Fields, out: Fields) {
    forall p, q :: 0 <= p < q < |out| ==> Rank(fields, out[p].0) < Rank(fields, out[q].0)
  }

  /** The resolved document: every request is gone and its secret stands marked under the key it names, every
      other member stands in its place with its own value resolved, and nothing else is there. */
  ghost predicate Resolved(j: Json, lookup: Lookup, out: Json)
    decreases j, 1
  {
    match j
    case Arr(items) => out.Arr? && |out.items| == |items| && forall i :: 0 <= i < |items| ==> Resolved(items[i], lookup, out.items[i])
    case Obj(fields) =>
      && out.Obj? && InRank(fields, out.fields)
      && (forall p :: 0 <= p < |out.fields| ==> Member(fields, lookup, out.fields[p]))
      && (forall key :: Holds(out.fields, key) <==> !Request(fields, key) && (Holds(fields, key) || Asked(fields, key)))
    case _ => out == j
  }

  /** Every name that is looked up is known. */
  ghost predicate Known(j: Json, lookup: Lookup) { forall name :: LooksUp(j, name) ==> name in lookup }

  lemma {:induction false} MissingExactly(fields: Fields, lookup: Lookup)
    ensures Missing(fields, lookup).None? <==> forall key, name :: Asks(fields, key, name) ==> name in lookup
    ensures Missing(fields, lookup).Some? ==> FirstUnknown(fields, lookup, Missing(fields, lookup).value)
  {
    if fields != [] {
      MissingExactly(fields[1..], lookup);
      RequestExactly(fields[0]);
      forall key, name ensures Asks(fields, key, name) <==> Asks(fields[1..], key, name) || fields[0] == (key + "_from", Str("env.secret." + name)) {}
      if IsRef(fields[0]) { assert Asks(fields, Target(fields[0].0), SecretName(fields[0].1.s)); }
      if IsRef(fields[0]) && SecretName(fields[0].1.s) !in lookup {
        UnknownHere(fields, lookup);
      } else if Missing(fields, lookup).Some? {
        UnknownLater(fields, lookup);
      }
    }
  }

  /** The name is unknown, and is asked for before any other unknown one. */
  ghost predicate FirstUnknown(fields: Fields, lookup: Lookup, name: string) {
    name !in lookup && exists k :: 0 <= k < |fields| && AsksAt(fields[k], name) && forall i :: 0 <= i < k ==> KnownAt(fields[i], lookup)
  }

  ghost predicate AsksAt(f: (string, Json), name: string) { exists key: string :: f == (key + "_from", Str("env.secret." + name)) }
  ghost predicate KnownAt(f: (string, Json), lookup: Lookup) { forall name :: AsksAt(f, name) ==> name in lookup }

  lemma UnknownHere(fields: Fields, lookup: Lookup)
    requires fields != [] && IsRef(fields[0]) && SecretName(fields[0].1.s) !in lookup
    ensures FirstUnknown(fields, lookup, SecretName(fields[0].1.s))
  {
    RequestExactly(fields[0]);
    assert AsksAt(fields[0], SecretName(fields[0].1.s));
  }

  lemma UnknownLater(fields: Fields, lookup: Lookup)
    requires fields != [] && !(IsRef(fields[0]) && SecretName(fields[0].1.s) !in lookup)
    requires Missing(fields[1..], lookup).Some? && FirstUnknown(fields[1..], lookup, Missing(fields[1..], lookup).value)
    ensures FirstUnknown(fields, lookup, Missing(fields[1..], lookup).value)
  {
    var name := Missing(fields[1..], lookup).value;
    var k :| 0 <= k < |fields[1..]| && AsksAt(fields[1..][k], name) && forall i :: 0 <= i < k ==> KnownAt(fields[1..][i], lookup);
    RequestExactly(fields[0]);
    assert KnownAt(fields[0], lookup);
    hide AsksAt, KnownAt;
    forall i | 0 <= i < k + 1 ensures KnownAt(fields[i], lookup) { if i > 0 { assert fields[i] == fields[1..][i - 1]; } }
    assert fields[k + 1] == fields[1..][k];
  }

  /** Resolution succeeds exactly when every name that is looked up is known, and then yields the resolved document;
      otherwise it reports a name that is looked up and unknown. */
  lemma {:induction false} ResolveExactly(j: Json, lookup: Lookup)
    requires Proper(j)
    ensures Resolve(j, lookup).Ok? <==> Known(j, lookup)
    ensures Resolve(j, lookup).Ok? ==> Resolved(j, lookup, Resolve(j, lookup).value)
    ensures Resolve(j, lookup).Err? ==> LooksUp(j, Resolve(j, lookup).error) && Resolve(j, lookup).error !in lookup
    decreases j, 2
  {
    match j
    case Arr(items) => ItemsResolve(items, lookup, |items|);
    case Obj(fields) => ObjectResolves(fields, lookup);
    case _ =>
  }

  lemma {:induction false} ItemsResolve(items: seq<Json>, lookup: Lookup, k: nat)
    requires k <= |items| && forall i :: 0 <= i < |items| ==> Proper(items[i])
    ensures var r := ResolveItems(items, lookup, k);
            if r.Ok? then forall i :: 0 <= i < k ==> Known(items[i], lookup) && Resolved(items[i], lookup, r.value[i])
            else r.error !in lookup && exists i :: 0 <= i < k && LooksUp(items[i], r.error)
    decreases Arr(items), 0, k
  {
    hide Resolved, LooksUp;
    if k > 0 {
      ItemsResolve(items, lookup, k - 1);
      ResolveExactly(items[k - 1], lookup);
    }
  }

  lemma {:induction false} SlotsResolve(fields: Fields, lookup: Lookup, k: nat)
    requires Proper(Obj(fields)) && Missing(fields, lookup).None? && k <= |Settled(fields)|
    ensures SlotsDone(fields, lookup, k, ResolveSlots(fields, lookup, k))
    decreases Obj(fields), 0, k
  {
    SettledOk(fields, lookup);
    hide Settled, Missing, OneEach, SlotsDone, SlotResolved, SlotLooks;
    if k == 0 {
      NoSlots(fields, lookup);
    } else {
      SlotsResolve(fields, lookup, k - 1);
      var slot := Settled(fields)[k - 1];
      if slot.1.Kept? { ResolveExactly(fields[slot.1.i].1, lookup); }
      hide Proper, Resolved, LooksUp, Known, Resolve;
      var before := ResolveSlots(fields, lookup, k - 1);
      if before.Ok? {
        SlotAdded(fields, lookup, k - 1, before.value);
      } else {
        SlotsFailed(fields, lookup, k - 1, before.error);
      }
    }
  }

  /** The first k members are resolved, or the error is a name one of them looks up. */
  ghost predicate SlotsDone(fields: Fields, lookup: Lookup, k: nat, r: Result<Fields, string>)
    requires k <= |Settled(fields)|
  {
    if r.Ok? then |r.value| == k && forall p :: 0 <= p < k ==> SlotResolved(fields, lookup, Settled(fields)[p], r.value[p])
    else r.error !in lookup && exists p :: 0 <= p < k && SlotLooks(fields, Settled(fields)[p].1, r.error)
  }

  lemma NoSlots(fields: Fields, lookup: Lookup)
    ensures SlotsDone(fields, lookup, 0, Ok([]))
  {}

  lemma SlotsFailed(fields: Fields, lookup: Lookup, k: nat, name: string)
    requires k < |Settled(fields)| && SlotsDone(fields, lookup, k, Err(name))
    ensures SlotsDone(fields, lookup, k + 1, Err(name))
  {
    hide Settled, SlotLooks;
  }

  lemma SlotAdded(fields: Fields, lookup: Lookup, k: nat, before: Fields)
    requires k < |Settled(fields)| && SlotsDone(fields, lookup, k, Ok(before))
    ensures forall m :: SlotResolved(fields, lookup, Settled(fields)[k], m) ==> SlotsDone(fields, lookup, k + 1, Ok(before + [m]))
    ensures forall name :: name !in lookup && SlotLooks(fields, Settled(fields)[k].1, name) ==>
              SlotsDone(fields, lookup, k + 1, Err(name))
  {
    hide Settled, SlotLooks, SlotResolved;
    forall m | SlotResolved(fields, lookup, Settled(fields)[k], m) ensures SlotsDone(fields, lookup, k + 1, Ok(before + [m])) {
      assert forall p :: 0 <= p < k ==> (before + [m])[p] == before[p];
    }
  }

  ghost predicate SlotResolved(fields: Fields, lookup: Lookup, slot: (string, Origin), m: (string, Json)) {
    && m.0 == slot.0
    && match slot.1
       case Secret(name) => name in lookup && IsSecret(m.1, lookup[name])
       case Kept(i) => i < |fields| && Known(fields[i].1, lookup) && Resolved(fields[i].1, lookup, m.1)
  }

  ghost predicate SlotLooks(fields: Fields, o: Origin, name: string) { o.Kept? && o.i < |fields| && LooksUp(fields[o.i].1, name) }

  lemma {:induction false} ObjectResolves(fields: Fields, lookup: Lookup)
    requires Proper(Obj(fields))
    ensures Resolve(Obj(fields), lookup).Ok? <==> Known(Obj(fields), lookup)
    ensures Resolve(Obj(fields), lookup).Ok? ==> Resolved(Obj(fields), lookup, Resolve(Obj(fields), lookup).value)
    ensures Resolve(Obj(fields), lookup).Err? ==> LooksUp(Obj(fields), Resolve(Obj(fields), lookup).error) && Resolve(Obj(fields), lookup).error !in lookup
    decreases Obj(fields), 1
  {
    MissingExactly(fields, lookup);
    SettledExactly(fields);
    if Missing(fields, lookup).Some? {
      var name := Missing(fields, lookup).value;
      UnknownLooksUp(fields, lookup, name);
      return;
    }
    SettledOk(fields, lookup);
    SlotsResolve(fields, lookup, |Settled(fields)|);
    var r := ResolveSlots(fields, lookup, |Settled(fields)|);
    if r.Err? {
      SlotLooksUp(fields, r.error);
    } else {
      AllKnown(fields, lookup, r.value);
      AllMembers(fields, lookup, r.value);
    }
  }

  lemma UnknownLooksUp(fields: Fields, lookup: Lookup, name: string)
    requires FirstUnknown(fields, lookup, name)
    ensures LooksUp(Obj(fields), name)
  {
    var k :| 0 <= k < |fields| && AsksAt(fields[k], name);
    var key: string :| fields[k] == (key + "_from", Str("env.secret." + name));
    assert Asks(fields, key, name);
  }

  lemma SlotLooksUp(fields: Fields, name: string)
    requires OneEach(fields) && forall key, o :: (key, o) in Settled(fields) <==> Comes(fields, key, o)
    requires exists p :: 0 <= p < |Settled(fields)| && SlotLooks(fields, Settled(fields)[p].1, name)
    ensures LooksUp(Obj(fields), name)
  {
    var p :| 0 <= p < |Settled(fields)| && SlotLooks(fields, Settled(fields)[p].1, name);
    var slot := Settled(fields)[p];
    assert (slot.0, slot.1) in Settled(fields);
    assert Comes(fields, slot.0, slot.1) && !Asked(fields, slot.0);
    var i := slot.1.i;
    assert fields[i] in fields && fields[i].0 == slot.0;
    assert !IsRequest(fields[i]);
    assert Walked(fields, i);
  }

  /** What comes through the walk is complete: all that is looked up was found. */
  lemma AllKnown(fields: Fields, lookup: Lookup, out: Fields)
    requires OneEach(fields) && forall key, o :: (key, o) in Settled(fields) <==> Comes(fields, key, o)
    requires forall key, name :: Asks(fields, key, name) ==> name in lookup
    requires |out| == |Settled(fields)| && forall p :: 0 <= p < |out| ==> SlotResolved(fields, lookup, Settled(fields)[p], out[p])
    ensures Known(Obj(fields), lookup)
  {
    hide Settled;
    forall name | LooksUp(Obj(fields), name) ensures name in lookup {
      if key :| Asks(fields, key, name) {
      } else {
        var i :| 0 <= i < |fields| && Walked(fields, i) && LooksUp(fields[i].1, name);
        WalkedIsKept(fields, i);
        var p :| 0 <= p < |Settled(fields)| && Settled(fields)[p] == (fields[i].0, Kept(i));
        assert SlotResolved(fields, lookup, Settled(fields)[p], out[p]);
      }
    }
  }

  lemma WalkedIsKept(fields: Fields, i: nat)
    requires OneEach(fields) && i < |fields| && Walked(fields, i)
    ensures Comes(fields, fields[i].0, Kept(i))
  {
    forall f | f in fields && f.0 == fields[i].0 ensures !IsRequest(f) {
      var k :| 0 <= k < |fields| && fields[k] == f;
      SameMember(fields, i, k);
    }
  }

  lemma MemberComes(fields: Fields, lookup: Lookup, slot: (string, Origin), m: (string, Json))
    requires Comes(fields, slot.0, slot.1) && SlotResolved(fields, lookup, slot, m)
    ensures Member(fields, lookup, m)
  {}

  lemma KeysCome(fields: Fields, lookup: Lookup, out: Fields, key: string)
    requires OneEach(fields) && forall key, o :: (key, o) in Settled(fields) <==> Comes(fields, key, o)
    requires |out| == |Settled(fields)| && forall p :: 0 <= p < |out| ==> SlotResolved(fields, lookup, Settled(fields)[p], out[p])
    ensures Holds(out, key) <==> !Request(fields, key) && (Holds(fields, key) || Asked(fields, key))
  {
    hide Settled, Resolved, Known, Request, Asks;
    if Holds(out, key) {
      var p :| 0 <= p < |out| && out[p].0 == key;
      var slot := Settled(fields)[p];
      assert SlotResolved(fields, lookup, slot, out[p]);
      assert (slot.0, slot.1) in Settled(fields);
      assert Comes(fields, key, slot.1);
    }
    if !Request(fields, key) && (Holds(fields, key) || Asked(fields, key)) {
      var o: Origin;
      if Asked(fields, key) {
        var name :| Asks(fields, key, name);
        o := Secret(name);
      } else {
        var i :| 0 <= i < |fields| && fields[i].0 == key;
        o := Kept(i);
      }
      assert Comes(fields, key, o);
      var p :| 0 <= p < |Settled(fields)| && Settled(fields)[p] == (key, o);
      assert SlotResolved(fields, lookup, Settled(fields)[p], out[p]);
      assert out[p] in out;
    }
  }

  lemma AllMembers(fields: Fields, lookup: Lookup, out: Fields)
    requires OneEach(fields) && forall key, o :: (key, o) in Settled(fields) <==> Comes(fields, key, o)
    requires Ranked(fields, Settled(fields))
    requires |out| == |Settled(fields)| && forall p :: 0 <= p < |out| ==> SlotResolved(fields, lookup, Settled(fields)[p], out[p])
    ensures Resolved(Obj(fields), lookup, Obj(out))
  {
    hide Settled, Rank;
    forall p | 0 <= p < |out| ensures Member(fields, lookup, out[p]) {
      assert SlotResolved(fields, lookup, Settled(fields)[p], out[p]);
      MemberComes(fields, lookup, Settled(fields)[p], out[p]);
    }
    forall key ensures Holds(out, key) <==> !Request(fields, key) && (Holds(fields, key) || Asked(fields, key)) {
      KeysCome(fields, lookup, out, key);
    }
  }

  // ---------------------------------------------------------------- which error comes first, and what is left

  /** The first item that cannot be resolved says what is missing. */
  lemma {:induction false} FirstItem(items: seq<Json>, lookup: Lookup, k: nat, name: string)
    requires k <= |items|
    ensures ResolveItems(items, lookup, k) == Err(name) <==>
            exists i :: 0 <= i < k && Resolve(items[i], lookup) == Err(name) && forall m :: 0 <= m < i ==> Resolve(items[m], lookup).Ok?
  {
    hide Resolve;
    if k > 0 {
      FirstItem(items, lookup, k - 1, name);
      ItemsOk(items, lookup, k - 1);
    }
  }

  lemma {:induction false} ItemsOk(items: seq<Json>, lookup: Lookup, k: nat)
    requires k <= |items|
    ensures ResolveItems(items, lookup, k).Ok? <==> forall m :: 0 <= m < k ==> Resolve(items[m], lookup).Ok?
  {
    hide Resolve;
    if k > 0 { ItemsOk(items, lookup, k - 1); }
  }

  /** No object at any depth holds a request. */
  ghost predicate NoRequests(j: Json)
    decreases j
  {
    match j
    case Arr(items) => forall i :: 0 <= i < |items| ==> NoRequests(items[i])
    case Obj(fields) => forall i :: 0 <= i < |fields| ==> !IsRequest(fields[i]) && NoRequests(fields[i].1)
    case _ => true
  }

  lemma SecretHoldsNone(j: Json, value: string)
    requires IsSecret(j, value)
    ensures NoRequests(j)
  {
    assert !EndsWith("value", SUFFIX) by { assert "value"[|"value"| - |SUFFIX|..][0] != SUFFIX[0]; }
    RequestExactly(j.fields[0]);
    RequestExactly(j.fields[1]);
  }

  /** Nothing is left to be resolved. */
  lemma {:induction false} ResolvedHoldsNone(j: Json, lookup: Lookup, out: Json)
    requires Resolved(j, lookup, out)
    ensures NoRequests(out)
    decreases j
  {
    match j
    case Arr(items) =>
      forall i | 0 <= i < |items| ensures NoRequests(out.items[i]) { ResolvedHoldsNone(items[i], lookup, out.items[i]); }
    case Obj(fields) =>
      forall p | 0 <= p < |out.fields| ensures !IsRequest(out.fields[p]) && NoRequests(out.fields[p].1) {
        var m := out.fields[p];
        assert Member(fields, lookup, m);
        if Asked(fields, m.0) {
          var name :| Asks(fields, m.0, name) && name in lookup && IsSecret(m.1, lookup[name]);
          SecretHoldsNone(m.1, lookup[name]);
        } else {
          var i :| 0 <= i < |fields| && fields[i].0 == m.0 && Resolved(fields[i].1, lookup, m.1);
          ResolvedHoldsNone(fields[i].1, lookup, m.1);
          assert fields[i] in fields && fields[i] == (m.0, fields[i].1);
          if IsRequest(m) { SameText(fields[i].1, lookup, m.1); }
        }
      }
    case _ =>
  }

  lemma SameText(j: Json, lookup: Lookup, out: Json)
    requires Resolved(j, lookup, out) && out.Str?
    ensures j == out
  {}
}
