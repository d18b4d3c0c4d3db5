/** First-fit allocation of numbers from named pools, fixed wishes first: the scan shared by VM
    identifiers and bridge addresses. */
module FirstFit {
  import opened Wrappers

  datatype Slot = Slot(pool: string, want: Option<nat>, lo: nat, hi: nat)

  type Claims = set<(string, nat)>
  type Ranges = seq<(nat, nat)>

  predicate InRanges(v: nat, ranges: Ranges) { exists r | r in ranges :: r.0 <= v <= r.1 }

  method CheckRanges(v: nat, ranges: Ranges) returns (hit: bool)
    ensures hit == InRanges(v, ranges)
  {
    for i := 0 to |ranges|
      invariant !InRanges(v, ranges[..i])
    {
      if ranges[i].0 <= v <= ranges[i].1 {
        assert ranges[i] in ranges;
        return true;
      }
      assert ranges[..i + 1] == ranges[..i] + [ranges[i]];
    }
    assert ranges[..|ranges|] == ranges;
    return false;
  }

  predicate Free(pool: string, v: nat, used: Claims, barred: Ranges) {
    (pool, v) !in used && !InRanges(v, barred)
  }

  /** The least free number of the window, if it has one. */
  function Least(pool: string, lo: nat, hi: nat, used: Claims, barred: Ranges): (v: Option<nat>)
    ensures v.Some? ==> lo <= v.value < hi && Free(pool, v.value, used, barred)
    ensures v.Some? ==> forall c :: lo <= c < v.value ==> !Free(pool, c, used, barred)
    ensures v.None? ==> forall c :: lo <= c < hi ==> !Free(pool, c, used, barred)
    decreases hi - lo
  {
    if lo >= hi then None
    else if Free(pool, lo, used, barred) then Some(lo)
    else Least(pool, lo + 1, hi, used, barred)
  }

  method ScanLeast(pool: string, lo: nat, hi: nat, used: Claims, barred: Ranges) returns (v: Option<nat>)
    ensures v == Least(pool, lo, hi, used, barred)
  {
    var c := lo;
    while c < hi
      invariant lo <= c
      invariant Least(pool, lo, hi, used, barred) == Least(pool, c, hi, used, barred)
    {
      var blocked := CheckRanges(c, barred);
      if (pool, c) !in used && !blocked { return Some(c); }
      c := c + 1;
    }
    return None;
  }

  function Choice(s: Slot, used: Claims, barred: Ranges): Option<nat> {
    if s.want.Some? then s.want else Least(s.pool, s.lo, s.hi, used, barred)
  }

  /** Fill the slots in order; every earlier answer is off limits to the later ones. */
  function Fill(slots: seq<Slot>, used: Claims, barred: Ranges): (values: Option<seq<nat>>)
    ensures values.Some? ==> |values.value| == |slots|
  {
    if slots == [] then Some([]) else
    var v := Choice(slots[0], used, barred);
    if v.None? then None else
    var rest := Fill(slots[1..], used + {(slots[0].pool, v.value)}, barred);
    if rest.None? then None else Some([v.value] + rest.value)
  }

  function Claimed(slots: seq<Slot>, values: seq<nat>): Claims
    requires |slots| == |values|
  {
    set i | 0 <= i < |slots| :: (slots[i].pool, values[i])
  }

  function Wishes(slots: seq<Slot>): Claims {
    set i | 0 <= i < |slots| && slots[i].want.Some? :: (slots[i].pool, slots[i].want.value)
  }

  ghost predicate DistinctWishes(slots: seq<Slot>) {
    forall i, j :: 0 <= i < j < |slots| && slots[i].want.Some? && slots[j].want.Some? ==>
      slots[i].pool != slots[j].pool || slots[i].want != slots[j].want
  }

  ghost predicate DistinctClaims(slots: seq<Slot>, values: seq<nat>)
    requires |slots| == |values|
  {
    forall i, j :: 0 <= i < j < |slots| ==> (slots[i].pool, values[i]) != (slots[j].pool, values[j])
  }

  /** What the first-fit scan promises about each slot: a wish verbatim, or the least number of its
      window that nothing used before, no wish and no earlier slot holds. */
  ghost predicate Fits(slots: seq<Slot>, values: seq<nat>, used: Claims, barred: Ranges, i: nat)
    requires |slots| == |values| && i < |slots|
  {
    var now := used + Claimed(slots[..i], values[..i]);
    if slots[i].want.Some? then values[i] == slots[i].want.value
    else
      && slots[i].lo <= values[i] < slots[i].hi && Free(slots[i].pool, values[i], now, barred)
      && forall c :: slots[i].lo <= c < values[i] ==> !Free(slots[i].pool, c, now, barred)
  }

  lemma ClaimedCons(slots: seq<Slot>, values: seq<nat>)
    requires |slots| == |values| && slots != []
    ensures Claimed(slots, values) == {(slots[0].pool, values[0])} + Claimed(slots[1..], values[1..])
  {
    var all, rest := Claimed(slots, values), Claimed(slots[1..], values[1..]);
    forall c | c in all ensures c in {(slots[0].pool, values[0])} + rest {
      var i :| 0 <= i < |slots| && c == (slots[i].pool, values[i]);
      if i > 0 { assert c == (slots[1..][i - 1].pool, values[1..][i - 1]); }
    }
    forall c | c in rest ensures c in all {
      var i :| 0 <= i < |slots| - 1 && c == (slots[1..][i].pool, values[1..][i]);
      assert c == (slots[i + 1].pool, values[i + 1]);
    }
  }

  lemma {:induction false} FillFits(slots: seq<Slot>, used: Claims, barred: Ranges)
    requires Fill(slots, used, barred).Some?
    ensures forall i :: 0 <= i < |slots| ==> Fits(slots, Fill(slots, used, barred).value, used, barred, i)
  {
    if slots != [] {
      var values := Fill(slots, used, barred).value;
      var used' := used + {(slots[0].pool, values[0])};
      FillFits(slots[1..], used', barred);
      forall i | 0 <= i < |slots| ensures Fits(slots, values, used, barred, i) {
        if i == 0 {
          assert used + Claimed(slots[..0], values[..0]) == used;
        } else {
          assert Fits(slots[1..], values[1..], used', barred, i - 1);
          ClaimedCons(slots[..i], values[..i]);
          assert slots[..i][1..] == slots[1..][..i - 1] && values[..i][1..] == values[1..][..i - 1];
          assert used + Claimed(slots[..i], values[..i]) == used' + Claimed(slots[1..][..i - 1], values[1..][..i - 1]);
        }
      }
    }
  }

  /** With the wishes distinct and already off limits, nothing is handed out twice, and only wishes
      may come from what was used before. */
  lemma FillDistinct(slots: seq<Slot>, used: Claims, barred: Ranges)
    requires Fill(slots, used, barred).Some? && DistinctWishes(slots) && Wishes(slots) <= used
    ensures DistinctClaims(slots, Fill(slots, used, barred).value)
    ensures Claimed(slots, Fill(slots, used, barred).value) * used == Wishes(slots)
  {
    FillFits(slots, used, barred);
    var values := Fill(slots, used, barred).value;
    forall i, j | 0 <= i < j < |slots| ensures (slots[i].pool, values[i]) != (slots[j].pool, values[j]) {
      assert Fits(slots, values, used, barred, i) && Fits(slots, values, used, barred, j);
      if slots[j].want.None? {
        assert (slots[..j][i].pool, values[..j][i]) in Claimed(slots[..j], values[..j]);
      } else {
        assert (slots[j].pool, slots[j].want.value) in Wishes(slots);
      }
    }
    forall c | c in Claimed(slots, values) * used ensures c in Wishes(slots) {
      var i :| 0 <= i < |slots| && c == (slots[i].pool, values[i]);
      assert Fits(slots, values, used, barred, i);
    }
    forall c | c in Wishes(slots) ensures c in Claimed(slots, values) {
      var i :| 0 <= i < |slots| && slots[i].want.Some? && c == (slots[i].pool, slots[i].want.value);
      assert Fits(slots, values, used, barred, i);
    }
  }

  /** Exhaustion is only ever reported for a slot whose whole window is taken. */
  lemma {:induction false} FillExhausted(slots: seq<Slot>, used: Claims, barred: Ranges) returns (i: nat, before: seq<nat>)
    requires Fill(slots, used, barred).None?
    ensures i < |slots| && slots[i].want.None? && |before| == i && Fill(slots[..i], used, barred) == Some(before)
    ensures forall c :: slots[i].lo <= c < slots[i].hi ==>
              !Free(slots[i].pool, c, used + Claimed(slots[..i], before), barred)
  {
    var v := Choice(slots[0], used, barred);
    if v.None? {
      i, before := 0, [];
      assert used + Claimed([], []) == used;
    } else {
      var used' := used + {(slots[0].pool, v.value)};
      var i', before' := FillExhausted(slots[1..], used', barred);
      i, before := i' + 1, [v.value] + before';
      assert slots[..i][1..] == slots[1..][..i'] && before[1..] == before';
      ClaimedCons(slots[..i], before);
      assert used + Claimed(slots[..i], before) == used' + Claimed(slots[1..][..i'], before');
    }
  }

  /** And whenever an automatic slot's whole window is taken at its turn, filling fails. */
  lemma {:induction false} ExhaustedFails(slots: seq<Slot>, used: Claims, barred: Ranges, i: nat, before: seq<nat>)
    requires i < |slots| && slots[i].want.None? && |before| == i && Fill(slots[..i], used, barred) == Some(before)
    requires forall c :: slots[i].lo <= c < slots[i].hi ==>
               !Free(slots[i].pool, c, used + Claimed(slots[..i], before), barred)
    ensures Fill(slots, used, barred).None?
  {
    if i == 0 {
      assert used + Claimed(slots[..0], before) == used;
    } else {
      var used' := used + {(slots[0].pool, before[0])};
      assert slots[..i][1..] == slots[1..][..i - 1];
      ClaimedCons(slots[..i], before);
      assert used + Claimed(slots[..i], before) == used' + Claimed(slots[1..][..i - 1], before[1..]);
      ExhaustedFails(slots[1..], used', barred, i - 1, before[1..]);
    }
  }

  /** Slots that all state a wish are answered by exactly those wishes. */
  lemma {:induction false} FillWishes(slots: seq<Slot>, values: seq<nat>, used: Claims, barred: Ranges)
    requires |slots| == |values| && forall i :: 0 <= i < |slots| ==> slots[i].want == Some(values[i])
    ensures Fill(slots, used, barred) == Some(values)
  {
    if slots != [] {
      FillWishes(slots[1..], values[1..], used + {(slots[0].pool, values[0])}, barred);
      assert values == [values[0]] + values[1..];
    }
  }
}
