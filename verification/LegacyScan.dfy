/** The older in-memory identifier scan, and its agreement with the durable allocator. */
module LegacyScan {
  import opened Wrappers
  import opened FirstFit
  import opened VmAllocationModel
  import opened VmAllocationSoundness
  import opened VmAllocationTheorems

  const SCAN_LIMIT: nat := 100000

  predicate FreeId(v: nat, reserved: set<nat>, overrides: Ranges) {
    v !in reserved && !InRanges(v, DEFAULT_PROTECTED) && !InRanges(v, overrides)
  }

  /** The first identifiers from v on that are free: count of them, or all there are below the limit. */
  function Firsts(v: nat, count: nat, reserved: set<nat>, overrides: Ranges): seq<nat>
    decreases SCAN_LIMIT - v
  {
    if count == 0 || v >= SCAN_LIMIT then []
    else if FreeId(v, reserved, overrides) then [v] + Firsts(v + 1, count - 1, reserved, overrides)
    else Firsts(v + 1, count, reserved, overrides)
  }

  method AllocateVmids(start: nat, count: nat, reserved: set<nat>, overrides: Ranges) returns (r: Result<seq<nat>, string>)
    ensures r.Ok? <==> |Firsts(start, count, reserved, overrides)| >= count
    ensures r.Ok? ==> r.value == Firsts(start, count, reserved, overrides)
  {
    var out: seq<nat> := [];
    var v := start;
    while |out| < count && v < SCAN_LIMIT
      invariant |out| <= count
      invariant Firsts(start, count, reserved, overrides) == out + Firsts(v, count - |out|, reserved, overrides)
      decreases SCAN_LIMIT - v
    {
      var protected := CheckRanges(v, DEFAULT_PROTECTED);
      var overridden := CheckRanges(v, overrides);
      if v !in reserved && !protected && !overridden {
        out := out + [v];
      }
      v := v + 1;
    }
    assert Firsts(start, count, reserved, overrides) == out;
    if |out| < count { return Err("exhausted"); }
    return Ok(out);
  }

  /** Increasing, free, and with nothing free passed over. */
  ghost predicate LeastFree(xs: seq<nat>, start: nat, reserved: set<nat>, overrides: Ranges) {
    && (forall i, j :: 0 <= i < j < |xs| ==> xs[i] < xs[j])
    && (forall i :: 0 <= i < |xs| ==> start <= xs[i] < SCAN_LIMIT && FreeId(xs[i], reserved, overrides))
    && forall i, c :: 0 <= i < |xs| && start <= c < xs[i] && FreeId(c, reserved, overrides) ==> c in xs
  }

  /** The scan's answer is the one sequence of its length with these properties. */
  lemma {:induction false} FirstsUnique(xs: seq<nat>, start: nat, reserved: set<nat>, overrides: Ranges)
    requires LeastFree(xs, start, reserved, overrides)
    ensures Firsts(start, |xs|, reserved, overrides) == xs
    decreases SCAN_LIMIT - start
  {
    if xs != [] {
      hide InRanges;
      assert start <= xs[0] < SCAN_LIMIT;
      if FreeId(start, reserved, overrides) {
        assert xs[0] == start;
        forall i, c | 0 <= i < |xs| - 1 && start + 1 <= c < xs[1..][i] && FreeId(c, reserved, overrides) ensures c in xs[1..] {
          assert c < xs[i + 1] && c in xs;
        }
        FirstsUnique(xs[1..], start + 1, reserved, overrides);
        assert xs == [xs[0]] + xs[1..];
      } else {
        FirstsUnique(xs, start + 1, reserved, overrides);
      }
    }
  }

  function Vmids(rows: seq<VmRow>): seq<nat> { seq(|rows|, v requires 0 <= v < |rows| => rows[v].vmid) }

  function TakenIds(taken: Taken): set<nat> { set c | c in taken.ids && c.0 == "" :: c.1 }

  lemma SplitRanges(v: nat, overrides: Ranges)
    ensures InRanges(v, DEFAULT_PROTECTED + overrides) <==> InRanges(v, DEFAULT_PROTECTED) || InRanges(v, overrides)
  {
    if InRanges(v, DEFAULT_PROTECTED + overrides) {
      var r :| r in DEFAULT_PROTECTED + overrides && r.0 <= v <= r.1;
      assert r in DEFAULT_PROTECTED || r in overrides;
    }
    if InRanges(v, DEFAULT_PROTECTED) {
      var r :| r in DEFAULT_PROTECTED && r.0 <= v <= r.1;
      assert r in DEFAULT_PROTECTED + overrides;
    }
    if InRanges(v, overrides) {
      var r :| r in overrides && r.0 <= v <= r.1;
      assert r in DEFAULT_PROTECTED + overrides;
    }
  }

  /** No machine states an identifier or had one before. */
  ghost predicate AllAutomatic(r: Request, current: seq<VmRow>) {
    forall v :: 0 <= v < |r.vms| ==> PinnedId(r.vms[v], current).None?
  }

  lemma PlanIncreasing(r: Request, overrides: Ranges, taken: Taken, current: seq<VmRow>, rows: seq<VmRow>)
    requires ValidRequest(r) && AllValid(r.vms, NetworkMap(r.networks)) && AllAutomatic(r, current)
    requires PlanRequest(r, overrides, taken, current) == Ok(rows)
    ensures forall v :: 0 <= v < |rows| ==> r.start <= rows[v].vmid && FreeId(rows[v].vmid, TakenIds(taken), overrides)
    ensures forall v, c :: 0 <= v < |rows| && r.start <= c < rows[v].vmid && FreeId(c, TakenIds(taken), overrides) ==>
              exists u :: 0 <= u < v && rows[u].vmid == c
    ensures forall u, v :: 0 <= u < v < |rows| ==> rows[u].vmid < rows[v].vmid
  {
    hide PlanRequest, ValidRequest, AllValid, NetworkMap, Reserved, HoldsIp, PinnedIp, DescribesNics, InRanges, PinnedId;
    PlanSound(r, overrides, taken, current);
    forall v | 0 <= v < |rows| ensures r.start <= rows[v].vmid && FreeId(rows[v].vmid, TakenIds(taken), overrides) {
      PlanLeast(r, overrides, taken, current, v);
      SplitRanges(rows[v].vmid, overrides);
      assert ("", rows[v].vmid) in Ids(rows);
    }
    forall v, c | 0 <= v < |rows| && r.start <= c < rows[v].vmid && FreeId(c, TakenIds(taken), overrides)
      ensures exists u :: 0 <= u < v && rows[u].vmid == c
    {
      PlanLeast(r, overrides, taken, current, v);
      SplitRanges(c, overrides);
      assert ("", c) in taken.ids ==> c in TakenIds(taken);
    }
    forall u, v | 0 <= u < v < |rows| ensures rows[u].vmid < rows[v].vmid {}
  }

  /** Within their common bounds, an all-automatic request gets the identifiers of the older scan. */
  lemma PlanAgreesWithScan(r: Request, overrides: Ranges, taken: Taken, current: seq<VmRow>, rows: seq<VmRow>)
    requires ValidRequest(r) && AllValid(r.vms, NetworkMap(r.networks)) && AllAutomatic(r, current)
    requires PlanRequest(r, overrides, taken, current) == Ok(rows)
    requires forall v :: 0 <= v < |rows| ==> rows[v].vmid < SCAN_LIMIT
    ensures Firsts(r.start, |rows|, TakenIds(taken), overrides) == Vmids(rows)
  {
    hide PlanRequest, ValidRequest, AllValid, NetworkMap, FreeId, AllAutomatic;
    PlanIncreasing(r, overrides, taken, current, rows);
    var xs := Vmids(rows);
    forall i, c | 0 <= i < |xs| && r.start <= c < xs[i] && FreeId(c, TakenIds(taken), overrides) ensures c in xs {
      var u :| 0 <= u < i && rows[u].vmid == c;
      assert xs[u] == c;
    }
    FirstsUnique(xs, r.start, TakenIds(taken), overrides);
  }
}
