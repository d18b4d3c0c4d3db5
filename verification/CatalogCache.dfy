/** The catalog snapshot cache: bounded, short-lived, least recently used first out, with generations
    that keep work begun before an invalidation from refilling it. */
module CatalogCache {
  import opened Wrappers

  /** born is the moment the load behind the data began. */
  datatype Snapshot = Snapshot(key: string, expires: int, size: nat, born: nat)
  datatype Load = Load(born: nat, done: bool)

  /** What a reader gets: data from the cache, or the load it shares. */
  datatype Answer = Hit(snapshot: Snapshot) | Wait(generation: nat, born: nat)

  function Total(entries: seq<Snapshot>): nat {
    if entries == [] then 0 else entries[0].size + Total(entries[1..])
  }

  predicate Fits(entries: seq<Snapshot>, maxEntries: nat, maxBytes: nat) {
    |entries| <= maxEntries && Total(entries) <= maxBytes
  }

  /** Drop the oldest entries until the rest fits. */
  function Evicted(entries: seq<Snapshot>, maxEntries: nat, maxBytes: nat): seq<Snapshot> {
    if entries == [] || Fits(entries, maxEntries, maxBytes) then entries else Evicted(entries[1..], maxEntries, maxBytes)
  }

  function Fresh(entries: seq<Snapshot>, now: int): (kept: seq<Snapshot>)
    ensures forall s :: s in kept <==> s in entries && s.expires > now
  {
    if entries == [] then [] else
    var last := entries[|entries| - 1];
    Fresh(entries[..|entries| - 1], now) + (if last.expires > now then [last] else [])
  }

  function Position(entries: seq<Snapshot>, key: string): (i: nat)
    ensures i <= |entries| && (i < |entries| ==> entries[i].key == key)
    ensures i == |entries| ==> forall s :: s in entries ==> s.key != key
  {
    if entries == [] then 0 else if entries[0].key == key then 0 else 1 + Position(entries[1..], key)
  }

  ghost predicate DistinctKeys(entries: seq<Snapshot>) {
    forall i, j :: 0 <= i < j < |entries| ==> entries[i].key != entries[j].key
  }

  lemma {:induction false} TotalConcat(a: seq<Snapshot>, b: seq<Snapshot>)
    ensures Total(a + b) == Total(a) + Total(b)
  {
    if a == [] {
      assert a + b == b;
    } else {
      TotalConcat(a[1..], b);
      assert (a + b)[1..] == a[1..] + b;
    }
  }

  /** Expiry takes out the expired entries and keeps the order of the others. */
  lemma {:induction false} FreshInOrder(a: seq<Snapshot>, b: seq<Snapshot>, now: int)
    ensures Fresh(a + b, now) == Fresh(a, now) + Fresh(b, now)
  {
    hide Fresh;
    FreshNone(now);
    if b == [] {
      assert a + b == a;
    } else {
      var front, last := b[..|b| - 1], b[|b| - 1];
      FreshInOrder(a, front, now);
      FreshLast(a + front, last, now);
      FreshLast(front, last, now);
      Regroup(a, front, last);
      Apart(Fresh(a, now), Fresh(front, now), if last.expires > now then [last] else []);
      assert b == front + [last];
    }
  }

  lemma Regroup(a: seq<Snapshot>, front: seq<Snapshot>, last: Snapshot)
    ensures a + (front + [last]) == a + front + [last]
  {}

  lemma Apart(a: seq<Snapshot>, b: seq<Snapshot>, c: seq<Snapshot>)
    ensures a + b + c == a + (b + c)
  {}

  lemma FreshLast(entries: seq<Snapshot>, last: Snapshot, now: int)
    ensures Fresh(entries + [last], now) == Fresh(entries, now) + if last.expires > now then [last] else []
  {
    assert (entries + [last])[..|entries|] == entries;
  }

  lemma FreshNone(now: int)
    ensures Fresh([], now) == []
  {}

  /** Eviction drops a shortest sufficient run of the oldest entries. */
  lemma {:induction false} EvictedIsSuffix(entries: seq<Snapshot>, maxEntries: nat, maxBytes: nat) returns (k: nat)
    ensures k <= |entries| && Evicted(entries, maxEntries, maxBytes) == entries[k..]
    ensures |entries| - k <= maxEntries && Total(entries[k..]) <= maxBytes
    ensures forall j :: 0 <= j < k ==> |entries| - j > maxEntries || Total(entries[j..]) > maxBytes
  {
    assert entries[0..] == entries && Fits([], maxEntries, maxBytes);
    if entries == [] || Fits(entries, maxEntries, maxBytes) {
      k := 0;
    } else {
      hide Fits;
      var rest := EvictedIsSuffix(entries[1..], maxEntries, maxBytes);
      k := rest + 1;
      assert entries[1..][rest..] == entries[k..];
      forall j | 0 <= j < k ensures !Fits(entries[j..], maxEntries, maxBytes) {
        if j > 0 { assert entries[1..][j - 1..] == entries[j..]; }
      }
    }
  }

  /** With room for one entry, eviction never drops the youngest. */
  lemma EvictedKeepsLast(entries: seq<Snapshot>, maxEntries: nat, maxBytes: nat)
    requires entries != [] && maxEntries >= 1 && entries[|entries| - 1].size <= maxBytes
    ensures var kept := Evicted(entries, maxEntries, maxBytes); kept != [] && kept[|kept| - 1] == entries[|entries| - 1]
  {
    var k := EvictedIsSuffix(entries, maxEntries, maxBytes);
    var last := entries[|entries| - 1..];
    assert last == [entries[|entries| - 1]] && last[1..] == [];
    assert Total(last) == last[0].size + Total(last[1..]);
    assert Fits(last, maxEntries, maxBytes);
  }

  lemma TotalSnoc(entries: seq<Snapshot>, last: Snapshot)
    ensures Total(entries + [last]) == Total(entries) + last.size
  {
    TotalConcat(entries, [last]);
    assert [last][1..] == [];
  }

  lemma {:induction false} FreshShrinks(entries: seq<Snapshot>, now: int)
    ensures |Fresh(entries, now)| <= |entries| && Total(Fresh(entries, now)) <= Total(entries)
  {
    if entries != [] {
      var n := |entries| - 1;
      var rest, last := Fresh(entries[..n], now), entries[n];
      FreshShrinks(entries[..n], now);
      TotalSnoc(entries[..n], last);
      TotalSnoc(rest, last);
      hide Total;
      assert entries == entries[..n] + [last];
      assert rest + [] == rest;
    }
  }

  lemma {:induction false} FreshDistinct(entries: seq<Snapshot>, now: int)
    requires DistinctKeys(entries)
    ensures DistinctKeys(Fresh(entries, now))
  {
    if entries != [] {
      var n := |entries| - 1;
      FreshDistinct(entries[..n], now);
      assert forall s :: s in entries[..n] ==> s.key != entries[n].key;
      SnocDistinct(Fresh(entries[..n], now), entries[n]);
      assert Fresh(entries[..n], now) + [] == Fresh(entries[..n], now);
    }
  }

  /** Move one entry to the young end. */
  function Touched(entries: seq<Snapshot>, i: nat): seq<Snapshot>
    requires i < |entries|
  {
    entries[..i] + entries[i + 1..] + [entries[i]]
  }

  lemma TouchedKeeps(entries: seq<Snapshot>, i: nat)
    requires i < |entries|
    ensures |Touched(entries, i)| == |entries| && Total(Touched(entries, i)) == Total(entries)
    ensures forall s :: s in Touched(entries, i) <==> s in entries
    ensures DistinctKeys(entries) ==> DistinctKeys(Touched(entries, i))
  {
    assert entries == entries[..i] + [entries[i]] + entries[i + 1..];
    TotalConcat(entries[..i] + [entries[i]], entries[i + 1..]);
    TotalConcat(entries[..i], [entries[i]]);
    TotalConcat(entries[..i] + entries[i + 1..], [entries[i]]);
    TotalConcat(entries[..i], entries[i + 1..]);
  }

  type Pending = map<(nat, string), Load>

  /** The bounds hold, keys are unique, and all data is younger than the last invalidation. */
  ghost predicate EntriesOk(entries: seq<Snapshot>, invalidated: nat, time: nat, maxEntries: nat, maxBytes: nat) {
    && Fits(entries, maxEntries, maxBytes) && DistinctKeys(entries)
    && forall s :: s in entries ==> invalidated <= s.born < time
  }

  /** Loads of this generation are younger than the last invalidation, and a running one's key is not cached. */
  ghost predicate PendingOk(pending: Pending, entries: seq<Snapshot>, generation: nat, invalidated: nat, time: nat) {
    && invalidated <= time
    && (forall p :: p in pending ==> p.0 <= generation && pending[p].born < time)
    && (forall p :: p in pending && p.0 == generation ==> invalidated <= pending[p].born)
    && forall p :: p in pending && p.0 == generation && !pending[p].done ==> forall s :: s in entries ==> s.key != p.1
  }

  lemma FreshOk(entries: seq<Snapshot>, now: int, invalidated: nat, time: nat, maxEntries: nat, maxBytes: nat)
    requires EntriesOk(entries, invalidated, time, maxEntries, maxBytes)
    ensures EntriesOk(Fresh(entries, now), invalidated, time, maxEntries, maxBytes)
  {
    FreshShrinks(entries, now);
    FreshDistinct(entries, now);
    hide DistinctKeys;
  }

  lemma TouchedOk(entries: seq<Snapshot>, i: nat, invalidated: nat, time: nat, maxEntries: nat, maxBytes: nat)
    requires i < |entries| && EntriesOk(entries, invalidated, time, maxEntries, maxBytes)
    ensures EntriesOk(Touched(entries, i), invalidated, time, maxEntries, maxBytes)
  {
    TouchedKeeps(entries, i);
    hide DistinctKeys, Touched;
  }

  /** A smaller or reordered cache keeps the promise about running loads; so does the passing of time. */
  lemma FewerEntriesOk(pending: Pending, before: seq<Snapshot>, after: seq<Snapshot>, generation: nat, invalidated: nat, time: nat, later: nat)
    requires PendingOk(pending, before, generation, invalidated, time) && time <= later
    requires forall s :: s in after ==> s in before
    ensures PendingOk(pending, after, generation, invalidated, later)
  {}

  lemma NewLoadOk(pending: Pending, entries: seq<Snapshot>, key: string, generation: nat, invalidated: nat, time: nat)
    requires PendingOk(pending, entries, generation, invalidated, time) && forall s :: s in entries ==> s.key != key
    ensures PendingOk(pending[(generation, key) := Load(time, false)], entries, generation, invalidated, time + 1)
  {}

  lemma DoneLoadOk(pending: Pending, entries: seq<Snapshot>, p: (nat, string), generation: nat, invalidated: nat, time: nat)
    requires PendingOk(pending, entries, generation, invalidated, time) && p in pending
    ensures PendingOk(pending[p := pending[p].(done := true)], entries, generation, invalidated, time)
  {}

  /** Inserting a finished load's data and making room for it. */
  lemma InsertOk(pending: Pending, entries: seq<Snapshot>, snap: Snapshot, generation: nat, invalidated: nat, time: nat,
                 maxEntries: nat, maxBytes: nat)
    requires EntriesOk(entries, invalidated, time, maxEntries, maxBytes)
    requires PendingOk(pending, entries, generation, invalidated, time)
    requires (generation, snap.key) in pending && pending[(generation, snap.key)].done
    requires invalidated <= snap.born < time && forall s :: s in entries ==> s.key != snap.key
    ensures EntriesOk(Evicted(entries + [snap], maxEntries, maxBytes), invalidated, time, maxEntries, maxBytes)
    ensures PendingOk(pending, Evicted(entries + [snap], maxEntries, maxBytes), generation, invalidated, time)
  {
    var all := entries + [snap];
    var k := EvictedIsSuffix(all, maxEntries, maxBytes);
    hide Evicted, PendingOk, Total;
    SnocDistinct(entries, snap);
    SuffixOk(all, k);
    assert forall s :: s in all[k..] ==> s in entries || s == snap;
    PendingAlike(pending, entries, all[k..], snap, generation, invalidated, time);
  }

  lemma SuffixOk(all: seq<Snapshot>, k: nat)
    requires k <= |all| && DistinctKeys(all)
    ensures DistinctKeys(all[k..]) && forall s :: s in all[k..] ==> s in all
  {}

  lemma SnocDistinct(entries: seq<Snapshot>, snap: Snapshot)
    requires DistinctKeys(entries) && forall s :: s in entries ==> s.key != snap.key
    ensures DistinctKeys(entries + [snap])
  {
    assert forall i :: 0 <= i < |entries| ==> entries[i] in entries;
  }

  lemma PendingAlike(pending: Pending, entries: seq<Snapshot>, kept: seq<Snapshot>, snap: Snapshot,
                     generation: nat, invalidated: nat, time: nat)
    requires PendingOk(pending, entries, generation, invalidated, time)
    requires (generation, snap.key) in pending && pending[(generation, snap.key)].done
    requires forall s :: s in kept ==> s in entries || s == snap
    ensures PendingOk(pending, kept, generation, invalidated, time)
  {}

  /** Delete the expired entries one after the other. */
  method DropExpired(entries: seq<Snapshot>, now: int) returns (kept: seq<Snapshot>)
    ensures kept == Fresh(entries, now)
  {
    kept := [];
    for i := 0 to |entries|
      invariant kept == Fresh(entries[..i], now)
    {
      assert entries[..i + 1][..i] == entries[..i];
      if entries[i].expires > now { kept := kept + [entries[i]]; }
    }
    assert entries[..|entries|] == entries;
  }

  /** Pop the oldest entry until both limits hold. */
  method Evict(entries: seq<Snapshot>, maxEntries: nat, maxBytes: nat) returns (kept: seq<Snapshot>)
    ensures kept == Evicted(entries, maxEntries, maxBytes)
  {
    kept := entries;
    while |kept| > maxEntries || Total(kept) > maxBytes
      invariant Evicted(entries, maxEntries, maxBytes) == Evicted(kept, maxEntries, maxBytes)
      decreases |kept|
    {
      kept := kept[1..];
    }
  }

  class CatalogSnapshots {
    const ttl: nat
    const maxEntries: nat
    const maxBytes: nat
    var entries: seq<Snapshot>
    var pending: Pending
    var generation: nat
    var invalidated: nat
    var time: nat

    ghost predicate Valid()
      reads this
    {
      && EntriesOk(entries, invalidated, time, maxEntries, maxBytes)
      && PendingOk(pending, entries, generation, invalidated, time)
    }

    constructor (ttlSeconds: nat, entryLimit: nat, byteLimit: nat)
      ensures Valid() && entries == [] && pending == map[] && generation == 0
      ensures ttl == ttlSeconds && maxEntries == entryLimit && maxBytes == byteLimit
    {
      ttl, maxEntries, maxBytes := ttlSeconds, entryLimit, byteLimit;
      entries, pending, generation, invalidated, time := [], map[], 0, 0, 0;
    }

    /** Nothing loaded before this moment is served after it; running loads are left to finish. */
    method Invalidate()
      requires Valid()
      modifies this
      ensures Valid() && entries == [] && generation == old(generation) + 1 && pending == old(pending)
      ensures invalidated == old(time) && time == old(time) + 1
    {
      generation := generation + 1;
      entries := [];
      invalidated := time;
      time := time + 1;
    }

    /** A read: expired entries go, a cached one is served and touched, otherwise the reader shares the one
        load of this generation and key, starting it if there is none. Whatever it gets, the load behind it
        began after the last invalidation. */
    method Get(key: string, now: int) returns (answer: Answer)
      requires Valid()
      modifies this`entries, this`pending, this`time
      ensures Valid() && time == old(time) + 1
      ensures answer.Hit? ==> answer.snapshot in old(entries) && answer.snapshot.key == key
                              && answer.snapshot.expires > now && answer.snapshot.born >= invalidated
      ensures answer.Wait? ==> answer.generation == generation && (generation, key) in pending
                               && pending[(generation, key)].born == answer.born >= invalidated
      ensures answer.Hit? <==> exists s :: s in old(entries) && s.key == key && s.expires > now
      ensures forall s :: s in entries <==> s in old(entries) && s.expires > now
      ensures answer.Hit? ==> entries != [] && entries[|entries| - 1] == answer.snapshot
      ensures entries == if answer.Hit? then Touched(Fresh(old(entries), now), Position(Fresh(old(entries), now), key))
                         else Fresh(old(entries), now)
      ensures pending == if answer.Wait? && (generation, key) !in old(pending)
                         then old(pending)[(generation, key) := Load(old(time), false)] else old(pending)
    {
      hide EntriesOk, PendingOk;
      var kept := DropExpired(entries, now);
      FreshOk(entries, now, invalidated, time, maxEntries, maxBytes);
      FewerEntriesOk(pending, entries, kept, generation, invalidated, time, time);
      Older(kept, invalidated, time, maxEntries, maxBytes);
      var i := Position(kept, key);
      assert i < |kept| ==> kept[i] in kept;
      entries := kept;
      if i < |kept| {
        Touch(i);
        return Hit(kept[i]);
      }
      var load := Share(key);
      return Wait(generation, load.born);
    }

    /** Move the entry that was read to the young end. */
    method Touch(i: nat)
      requires Valid() && i < |entries|
      modifies this`entries, this`time
      ensures Valid() && time == old(time) + 1 && entries == Touched(old(entries), i)
      ensures |entries| > 0 && entries[|entries| - 1] == old(entries)[i] && old(entries)[i].born >= invalidated
      ensures forall s :: s in entries <==> s in old(entries)
    {
      assert entries[i] in entries;
      assert entries[i].born >= invalidated;
      hide EntriesOk, PendingOk;
      TouchedKeeps(entries, i);
      Older(entries, invalidated, time, maxEntries, maxBytes);
      TouchedOk(entries, i, invalidated, time + 1, maxEntries, maxBytes);
      FewerEntriesOk(pending, entries, Touched(entries, i), generation, invalidated, time, time + 1);
      entries := Touched(entries, i);
      time := time + 1;
    }

    /** The one load of this generation and key, started if there is none. */
    method Share(key: string) returns (load: Load)
      requires Valid() && forall s :: s in entries ==> s.key != key
      modifies this`pending, this`time
      ensures Valid() && time == old(time) + 1
      ensures (generation, key) in pending && pending[(generation, key)] == load && load.born >= invalidated
      ensures pending == if (generation, key) in old(pending) then old(pending)
                         else old(pending)[(generation, key) := Load(old(time), false)]
    {
      hide EntriesOk;
      Older(entries, invalidated, time, maxEntries, maxBytes);
      if (generation, key) !in pending {
        pending := pending[(generation, key) := Load(time, false)];
      }
      time := time + 1;
      load := pending[(generation, key)];
    }

    /** A load has its data: it is cached if nothing was invalidated meanwhile and it is not too big, and old
        entries make room, never the one just inserted. */
    method FinishLoad(loadGeneration: nat, key: string, size: nat, now: int)
      requires Valid() && (loadGeneration, key) in pending && !pending[(loadGeneration, key)].done
      modifies this`entries, this`pending
      ensures Valid()
      ensures pending == old(pending)[(loadGeneration, key) := old(pending[(loadGeneration, key)]).(done := true)]
      ensures loadGeneration != generation || size > maxBytes ==> entries == old(entries)
      ensures loadGeneration == generation && size <= maxBytes ==>
                entries == Evicted(old(entries) + [Snapshot(key, now + ttl, size, old(pending[(loadGeneration, key)]).born)],
                                   maxEntries, maxBytes)
      ensures |entries| <= maxEntries && Total(entries) <= maxBytes
      ensures loadGeneration == generation && size <= maxBytes && maxEntries >= 1 ==>
                entries != [] && entries[|entries| - 1].key == key
    {
      var load := pending[(loadGeneration, key)];
      DoneLoadOk(pending, entries, (loadGeneration, key), generation, invalidated, time);
      assert loadGeneration == generation ==> invalidated <= load.born < time && forall s :: s in entries ==> s.key != key;
      assert load.born < time;
      hide EntriesOk, PendingOk, Fits, Total, Evicted;
      pending := pending[(loadGeneration, key) := load.(done := true)];
      if loadGeneration == generation && size <= maxBytes {
        var snap := Snapshot(key, now + ttl, size, load.born);
        InsertOk(pending, entries, snap, generation, invalidated, time, maxEntries, maxBytes);
        if maxEntries >= 1 { EvictedKeepsLast(entries + [snap], maxEntries, maxBytes); }
        entries := Evict(entries + [snap], maxEntries, maxBytes);
      }
    }

    /** The done callback: forget the load, whether it succeeded or failed. */
    method Finished(loadGeneration: nat, key: string)
      requires Valid()
      modifies this`pending
      ensures Valid() && pending == old(pending) - {(loadGeneration, key)}
    {
      hide EntriesOk;
      pending := pending - {(loadGeneration, key)};
    }
  }

  lemma Older(entries: seq<Snapshot>, invalidated: nat, time: nat, maxEntries: nat, maxBytes: nat)
    requires EntriesOk(entries, invalidated, time, maxEntries, maxBytes)
    ensures EntriesOk(entries, invalidated, time + 1, maxEntries, maxBytes)
  {}
}
