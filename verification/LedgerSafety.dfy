/** What holds of the ledger over every run: one live holder per identifier and bridge address,
    no revival of expired leases, and a transfer that conserves exactly what is owned. */
module LedgerSafety {
  import opened Wrappers
  import opened FirstFit
  import opened VmAllocationModel
  import opened VmAllocationSoundness
  import opened VmAllocationTheorems
  import opened LedgerModel

  ghost predicate Live(l: Ledger, x: Lease) { x in l.leases && x.expires > l.now }

  ghost predicate KeysOk(l: Ledger) {
    && (forall x :: x in l.leases ==> x.id < l.nextId)
    && (forall x, y :: x in l.leases && y in l.leases && x.id == y.id ==> x == y)
    && (forall x, y :: x in l.leases && y in l.leases && x.project == y.project ==> x == y)
    && forall c, d :: c in l.claims && d in l.claims && c.deployment == d.deployment ==> c == d
  }

  /** No machine or address is held twice, by whichever pair of live leases and claims. */
  ghost predicate Disjoint(l: Ledger) {
    && (forall x, y :: Live(l, x) && Live(l, y) && x != y ==> !Overlap(x.rows, y.rows))
    && (forall x, c :: Live(l, x) && c in l.claims ==> !Overlap(x.rows, c.rows))
    && forall c, d :: c in l.claims && d in l.claims && c != d ==> !Overlap(c.rows, d.rows)
  }

  ghost predicate Solid(l: Ledger) {
    && (forall x :: Live(l, x) ==> Exclusive(x.rows))
    && forall c :: c in l.claims ==> Exclusive(c.rows)
  }

  ghost predicate Inv(l: Ledger) { KeysOk(l) && Disjoint(l) && Solid(l) }

  // ---------------------------------------------------------------- a new plan avoids everybody

  lemma {:induction false} AllTakenHas(occupied: Taken, others: seq<seq<VmRow>>, rows: seq<VmRow>)
    requires rows in others
    ensures Ids(rows) <= AllTaken(occupied, others).ids && Ips(rows) <= AllTaken(occupied, others).ips
  {
    hide Ids, Ips;
    var n := |others| - 1;
    if rows != others[n] {
      assert rows in others[..n] by {
        var i :| 0 <= i < |others| && others[i] == rows;
        assert others[..n][i] == rows;
      }
      AllTakenHas(occupied, others[..n], rows);
    }
  }

  lemma {:induction false} AllTakenKeeps(occupied: Taken, others: seq<seq<VmRow>>)
    ensures occupied.ids <= AllTaken(occupied, others).ids && occupied.ips <= AllTaken(occupied, others).ips
  {
    hide Ids, Ips;
    if others != [] { AllTakenKeeps(occupied, others[..|others| - 1]); }
  }

  /** A saved plan has no overlap with any other live lease or any claim. */
  lemma PlanAvoids(l: Ledger, current: Option<Lease>, r: Request, overrides: Ranges, occupied: Taken, rows: seq<VmRow>, other: seq<VmRow>)
    requires ValidRequest(r) && Plannable(r) && other in OthersFor(l, current)
    requires PlanRequest(r, overrides, AllTaken(occupied, OthersFor(l, current)), StoredRows(current)) == Ok(rows)
    ensures !Overlap(rows, other) && !Overlap(other, rows) && Exclusive(rows)
  {
    var all := AllTaken(occupied, OthersFor(l, current));
    hide PlanRequest, Ids, Ips, AllTaken, OthersFor, Exclusive, Plannable, ValidRequest, NetworkMap, Describes, Reserved;
    PlanSound(r, overrides, all, StoredRows(current));
    AllTakenHas(occupied, OthersFor(l, current), other);
  }

  lemma PlanExclusive(r: Request, overrides: Ranges, taken: Taken, current: seq<VmRow>, rows: seq<VmRow>)
    requires ValidRequest(r) && Plannable(r) && PlanRequest(r, overrides, taken, current) == Ok(rows)
    ensures Exclusive(rows)
  {
    hide *;
    PlanSound(r, overrides, taken, current);
  }

  /** Adding one row of a live lease, or extending it, beside rows that were there before. */
  lemma AddLease(l: Ledger, l': Ledger, rest: seq<Lease>, x: Lease)
    requires Inv(l) && l'.leases == rest + [x] && l'.claims == l.claims && l'.now == l.now && l'.nextId >= l.nextId
    requires (forall y :: y in rest ==> y in l.leases && y.id != x.id && y.project != x.project)
    requires x.id < l'.nextId && Exclusive(x.rows)
    requires forall y :: y in rest && y.expires > l.now ==> !Overlap(x.rows, y.rows) && !Overlap(y.rows, x.rows)
    requires forall c :: c in l.claims ==> !Overlap(x.rows, c.rows)
    ensures Inv(l')
  {
    hide Overlap, Exclusive;
    assert forall y :: y in l'.leases ==> y in rest || y == x;
  }

  lemma ReserveKeeps(l: Ledger, host: Host, r: Request, owner: string, occupied: Taken, free: set<nat>)
    requires Inv(l) && ValidRequest(r) && Plannable(r)
    ensures Inv(ReserveTx(l, host, r, owner, occupied, free).0)
  {
    hide Overlap, Exclusive, PlanRequest, Pending, ValidRequest, Plannable, AllTaken, OthersFor, Disjoint, Solid;
    var (l', outcome) := ReserveTx(l, host, r, owner, occupied, free);
    if outcome.Saved? {
      var live := Unexpired(l.leases, l.now);
      var current := OfProject(live, r.project);
      var rest := if current.Some? then Without(live, current.value.id) else live;
      var rows := outcome.lease.rows;
      PlanExclusive(r, host.overrides, AllTaken(occupied, OthersFor(l, current)), StoredRows(current), rows);
      forall x | x in rest ensures !Overlap(rows, x.rows) && !Overlap(x.rows, rows) {
        LeaseIsOther(l, current, x);
        PlanAvoids(l, current, r, host.overrides, occupied, rows, x.rows);
      }
      forall c | c in l.claims ensures !Overlap(rows, c.rows) {
        ClaimIsOther(l, current, c);
        PlanAvoids(l, current, r, host.overrides, occupied, rows, c.rows);
      }
      AddLease(l, l', rest, outcome.lease);
    }
  }

  lemma LeaseIsOther(l: Ledger, current: Option<Lease>, x: Lease)
    requires Live(l, x) && (current.Some? ==> x.id != current.value.id)
    ensures x.rows in OthersFor(l, current)
  {}

  lemma ClaimIsOther(l: Ledger, current: Option<Lease>, c: Claim)
    requires c in l.claims
    ensures c.rows in OthersFor(l, current)
  {}

  // ---------------------------------------------------------------- the other transactions

  /** Dropping leases, or letting them expire, keeps everything. */
  lemma FewerLeases(l: Ledger, l': Ledger)
    requires Inv(l) && l'.claims == l.claims && l'.now >= l.now && l'.nextId == l.nextId
    requires forall x :: x in l'.leases ==> x in l.leases
    ensures Inv(l')
  {
    hide Overlap, Exclusive;
    assert forall x :: Live(l', x) ==> Live(l, x);
  }

  lemma FewerClaims(l: Ledger, l': Ledger)
    requires Inv(l) && l'.leases == l.leases && l'.now == l.now && l'.nextId == l.nextId
    requires forall c :: c in l'.claims ==> c in l.claims
    ensures Inv(l')
  {
    hide Overlap, Exclusive;
    assert forall x :: Live(l', x) ==> Live(l, x);
  }

  // The manifest check by cardinalities is exactly exclusiveness.

  lemma IdCount(rows: seq<VmRow>)
    ensures |Ids(rows)| <= |rows|
    ensures |Ids(rows)| == |rows| <==> forall u, v :: 0 <= u < v < |rows| ==> rows[u].vmid != rows[v].vmid
  {
    if rows == [] {
      assert Ids(rows) == {};
    } else {
      var n := |rows| - 1;
      IdCount(rows[..n]);
      RowsGrow(rows[..n], rows[n]);
      assert rows == rows[..n] + [rows[n]];
      if ("", rows[n].vmid) in Ids(rows[..n]) {
        assert Ids(rows) == Ids(rows[..n]);
        var u :| 0 <= u < n && rows[..n][u].vmid == rows[n].vmid;
        assert rows[u].vmid == rows[n].vmid;
      } else {
        forall u | 0 <= u < n ensures rows[u].vmid != rows[n].vmid {
          assert ("", rows[..n][u].vmid) in Ids(rows[..n]);
        }
        forall u, v | 0 <= u < v < n ensures (rows[u].vmid != rows[v].vmid) == (rows[..n][u].vmid != rows[..n][v].vmid) {}
      }
    }
  }

  lemma PairCount(nics: seq<NicRow>)
    ensures |NicPairs(nics)| <= |nics|
    ensures |NicPairs(nics)| == |nics| <==> DistinctPairs(nics)
  {
    if nics == [] {
      assert NicPairs(nics) == {};
    } else {
      var n := |nics| - 1;
      var p := (nics[n].bridge, nics[n].ip);
      PairCount(nics[..n]);
      PairsSnoc(nics);
      DistinctSnoc(nics);
      if p in NicPairs(nics[..n]) { assert NicPairs(nics) == NicPairs(nics[..n]); }
    }
  }

  lemma DistinctSnoc(nics: seq<NicRow>)
    requires nics != []
    ensures var n := |nics| - 1;
            DistinctPairs(nics) <==> DistinctPairs(nics[..n]) && (nics[n].bridge, nics[n].ip) !in NicPairs(nics[..n])
  {
    var n := |nics| - 1;
    var p, before := (nics[n].bridge, nics[n].ip), nics[..n];
    assert forall j :: 0 <= j < n ==> before[j] == nics[j];
    if DistinctPairs(before) && p !in NicPairs(before) {
      forall j | 0 <= j < n ensures (nics[j].bridge, nics[j].ip) != p { assert (before[j].bridge, before[j].ip) in NicPairs(before); }
    }
  }

  lemma PairsSnoc(nics: seq<NicRow>)
    requires nics != []
    ensures NicPairs(nics) == NicPairs(nics[..|nics| - 1]) + {(nics[|nics| - 1].bridge, nics[|nics| - 1].ip)}
  {
    var n := |nics| - 1;
    forall c | c in NicPairs(nics) ensures c in NicPairs(nics[..n]) || c == (nics[n].bridge, nics[n].ip) {
      var j :| 0 <= j < |nics| && c == (nics[j].bridge, nics[j].ip);
      if j < n { assert c == (nics[..n][j].bridge, nics[..n][j].ip); }
    }
    forall c | c in NicPairs(nics[..n]) ensures c in NicPairs(nics) {
      var j :| 0 <= j < n && c == (nics[..n][j].bridge, nics[..n][j].ip);
      assert c == (nics[j].bridge, nics[j].ip);
    }
  }

  ghost predicate PairsExclusive(rows: seq<VmRow>) {
    && (forall u, v :: 0 <= u < v < |rows| ==> NicPairs(rows[u].nics) !! NicPairs(rows[v].nics))
    && forall v :: 0 <= v < |rows| ==> DistinctPairs(rows[v].nics)
  }

  lemma UnionSize<T>(a: set<T>, b: set<T>)
    ensures |a + b| <= |a| + |b| && (|a + b| == |a| + |b| <==> a !! b)
  {
    assert |a + b| == |a| + |b| - |a * b|;
    if a !! b {
      assert a * b == {};
    } else {
      var x :| x in a && x in b;
      assert x in a * b;
    }
  }

  lemma {:induction false} IpCount(rows: seq<VmRow>)
    ensures |Ips(rows)| <= CountNics(rows)
    ensures |Ips(rows)| == CountNics(rows) <==> PairsExclusive(rows)
  {
    if rows == [] {
      assert Ips(rows) == {};
    } else {
      var n := |rows| - 1;
      var before, last := rows[..n], rows[n];
      assert rows == before + [last];
      IpCount(before);
      RowsGrow(before, last);
      PairCount(last.nics);
      UnionSize(Ips(before), NicPairs(last.nics));
      PairsExclusiveSnoc(before, last);
    }
  }

  lemma PairsExclusiveSnoc(before: seq<VmRow>, last: VmRow)
    ensures PairsExclusive(before + [last])
      <==> PairsExclusive(before) && DistinctPairs(last.nics) && Ips(before) !! NicPairs(last.nics)
  {
    hide DistinctPairs;
    var rows, n := before + [last], |before|;
    assert rows[n] == last && forall v :: 0 <= v < n ==> rows[v] == before[v];
    if PairsExclusive(rows) {
      forall c | c in Ips(before) ensures c !in NicPairs(last.nics) {
        var v, j :| 0 <= v < n && 0 <= j < |before[v].nics| && c == (before[v].nics[j].bridge, before[v].nics[j].ip);
        assert c in NicPairs(rows[v].nics);
      }
      forall u, v | 0 <= u < v < n ensures NicPairs(before[u].nics) !! NicPairs(before[v].nics) {
        assert NicPairs(rows[u].nics) !! NicPairs(rows[v].nics);
      }
      forall v | 0 <= v < n ensures DistinctPairs(before[v].nics) { assert DistinctPairs(rows[v].nics); }
    }
    if PairsExclusive(before) && DistinctPairs(last.nics) && Ips(before) !! NicPairs(last.nics) {
      forall u, v | 0 <= u < v < |rows| ensures NicPairs(rows[u].nics) !! NicPairs(rows[v].nics) {
        if v == n { IpsHas(before, u); }
      }
    }
  }

  /** The manifest check by counting is exactly exclusiveness. */
  lemma NoDuplicatesIsExclusive(rows: seq<VmRow>)
    ensures NoDuplicates(rows) <==> Exclusive(rows)
  {
    hide Ids, Ips, NicPairs, CountNics, DistinctPairs;
    IdCount(rows);
    IpCount(rows);
  }

  lemma BindKeeps(l: Ledger, d: Deployment, rows: seq<VmRow>, draft: Option<Draft>)
    requires Inv(l)
    ensures Inv(BindTx(l, d, rows, draft).0)
  {
    hide Overlap, Exclusive, NoDuplicates, AnyProtected, ValidOverrides, Mapping;
    var l' := BindTx(l, d, rows, draft).0;
    if l' != l {
      NoDuplicatesIsExclusive(rows);
      var host := l.hosts[d.host];
      var lease := DraftLease(l, draft, host, rows).value;
      hide DraftLease, Inv;
      var mid := l.(leases := l'.leases);
      FewerLeases(l, mid);
      AddClaim(mid, l', l'.claims[|l.claims|]);
    }
  }

  lemma AddClaim(l: Ledger, l': Ledger, c: Claim)
    requires Inv(l) && l' == l.(claims := l.claims + [c]) && Exclusive(c.rows)
    requires forall b :: b in l.claims ==> b.deployment != c.deployment && !Overlap(c.rows, b.rows)
    requires forall x :: Live(l, x) ==> !Overlap(c.rows, x.rows)
    ensures Inv(l')
  {
    hide Exclusive;
    assert forall b :: b in l'.claims ==> b in l.claims || b == c;
    assert forall x :: Live(l', x) <==> Live(l, x);
  }

  lemma NextKeeps(l: Ledger, e: Event)
    requires Inv(l)
    ensures Inv(Next(l, e))
  {
    hide Inv, ReserveTx, BindTx, ValidRequest, Plannable;
    match e
    case DoReserve(host, r, owner, occupied, free) =>
      if ValidRequest(r) && Plannable(r) { ReserveKeeps(l, host, r, owner, occupied, free); }
    case DoBind(d, rows, draft) => BindKeeps(l, d, rows, draft);
    case DoUnbind(d, idle) => FewerClaims(l, Next(l, e));
    case _ => FewerLeases(l, Next(l, e));
  }

  /** In every run of interleaved authors, deployments and time: unexpired leases and claims share
      no machine identifier and no bridge address, and none repeats one. */
  lemma {:induction false} RunDisjoint(events: seq<Event>)
    ensures Inv(Run(EMPTY_LEDGER, events))
  {
    if events != [] {
      RunDisjoint(events[..|events| - 1]);
      NextKeeps(Run(EMPTY_LEDGER, events[..|events| - 1]), events[|events| - 1]);
    }
  }
}
