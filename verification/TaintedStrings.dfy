/** Known-secret redaction: replacing every needle, longest first, in every string of an event. */
module TaintedStrings {
  import opened Json

  const MARKER: string := "[REDACTED:tainted_string]"
  const INNER: string := "REDACTED:tainted_string"

  // ---------------------------------------------------------------- substrings

  predicate At(s: string, t: string, i: nat) { i + |t| <= |s| && s[i..i + |t|] == t }

  predicate Contains(s: string, t: string) { exists i: nat | i <= |s| :: At(s, t, i) }

  /** Leftmost, non-overlapping replacement. */
  function Replace(s: string, t: string, with: string): string
    requires t != ""
  {
    if s == "" then "" else if t <= s then with + Replace(s[|t|..], t, with) else [s[0]] + Replace(s[1..], t, with)
  }

  lemma ContainsParts(a: string, b: string, t: string)
    ensures Contains(a, t) ==> Contains(a + b, t)
    ensures Contains(b, t) ==> Contains(a + b, t)
  {
    if Contains(a, t) {
      var i: nat :| i <= |a| && At(a, t, i);
      assert At(a + b, t, i);
    }
    if Contains(b, t) {
      var i: nat :| i <= |b| && At(b, t, i);
      assert At(a + b, t, |a| + i);
    }
  }

  lemma StartIsInside(s: string, t: string)
    ensures t <= s ==> Contains(s, t)
  {
    assert t <= s ==> At(s, t, 0);
  }

  /** A needle without the character c cannot straddle it. */
  lemma NotAcross(a: string, c: char, b: string, t: string)
    requires c !in t && Contains(a + [c] + b, t)
    ensures Contains(a, t) || Contains(b, t)
  {
    var s := a + [c] + b;
    var i: nat :| i <= |s| && At(s, t, i);
    assert forall k :: i <= k < i + |t| ==> s[k] == s[i..i + |t|][k - i];
    assert s[|a|] == c;
    if i + |t| <= |a| {
      assert a[i..i + |t|] == s[i..i + |t|];
      assert At(a, t, i);
    } else if i > |a| {
      assert b[i - |a| - 1..i - |a| - 1 + |t|] == s[i..i + |t|];
      assert At(b, t, i - |a| - 1);
    }
  }

  // ---------------------------------------------------------------- needles a marker can complete

  /** The last k characters of t begin the marker. */
  predicate EndsInMarker(t: string, k: nat) { 0 < k <= |t| && k <= |MARKER| && t[|t| - k..] == MARKER[..k] }

  /** The first k characters of t end the marker. */
  predicate StartsInMarker(t: string, k: nat) { 0 < k <= |t| && k <= |MARKER| && t[..k] == MARKER[|MARKER| - k..] }

  /** Put next to some text, a marker makes the needle appear: one contains the other, or an end of one is
      a beginning of the other. */
  predicate Completable(t: string) {
    || Contains(MARKER, t)
    || Contains(t, MARKER)
    || (exists k | 0 < k <= |t| :: EndsInMarker(t, k))
    || (exists k | 0 < k <= |t| :: StartsInMarker(t, k))
  }

  ghost predicate BracketFree(t: string) { '[' !in t && ']' !in t }

  /** Without brackets only the marker's own text matters. */
  lemma BracketFreeCompletable(t: string)
    requires t != "" && BracketFree(t)
    ensures Completable(t) <==> Contains(INNER, t)
  {
    InnerOfMarker(t);
    forall i: nat ensures !At(t, MARKER, i) { if i + |MARKER| <= |t| { assert t[i..i + |MARKER|][0] == t[i]; } }
    forall k: nat ensures !EndsInMarker(t, k) { if 0 < k <= |t| { assert t[|t| - k..][0] == t[|t| - k]; } }
    forall k: nat ensures !StartsInMarker(t, k) { if 0 < k <= |t| { assert t[..k][k - 1] == t[k - 1]; } }
  }

  lemma InnerOfMarker(t: string)
    requires t != "" && BracketFree(t)
    ensures Contains(MARKER, t) <==> Contains(INNER, t)
  {
    hide Contains, BracketFree;
    InBrackets(INNER, t);
    assert MARKER == ['['] + INNER + [']'];
  }

  lemma InBrackets(inner: string, t: string)
    requires t != "" && BracketFree(t)
    ensures Contains(['['] + inner + [']'], t) <==> Contains(inner, t)
  {
    ContainsParts(['['], inner, t);
    ContainsParts(['['] + inner, [']'], t);
    hide Contains;
    if Contains(['['] + inner + [']'], t) {
      assert ['['] + inner + [']'] == [] + ['['] + (inner + [']']) && inner + [']'] == inner + [']'] + [];
      NotAcross([], '[', inner + [']'], t);
      NotInEmpty(t);
      NotAcross(inner, ']', [], t);
    }
  }

  lemma NotInEmpty(t: string)
    requires t != ""
    ensures !Contains([], t)
  {}

  /** Nothing at the end of u begins a marker, and no marker is in it. */
  ghost predicate NoMarkerStart(u: string) {
    forall j :: 0 <= j < |u| ==> !(u[j..] <= MARKER) && !(MARKER <= u[j..])
  }

  lemma CompletableStart(u: string)
    requires !Completable(u)
    ensures NoMarkerStart(u)
  {
    hide Completable;
    forall j | 0 <= j < |u| ensures !(u[j..] <= MARKER) && !(MARKER <= u[j..]) {
      if u[j..] <= MARKER || MARKER <= u[j..] { EndIsCompletable(u, j); }
    }
  }

  lemma EndIsCompletable(u: string, j: nat)
    requires j < |u| && (u[j..] <= MARKER || MARKER <= u[j..])
    ensures Completable(u)
  {
    if u[j..] <= MARKER { assert EndsInMarker(u, |u| - j); } else { assert At(u, MARKER, j); }
  }

  lemma EitherIsLonger(u: string, a: string, b: string)
    requires u <= a + b
    ensures u <= a || a <= u
  {}

  /** Before its first marker the result is a piece of the input. */
  lemma {:induction false} PrefixIsKept(s: string, t: string, u: string)
    requires t != "" && NoMarkerStart(u) && u <= Replace(s, t, MARKER)
    ensures u <= s
  {
    if u != "" && s != "" {
      assert u[0..] == u;
      if t <= s {
        EitherIsLonger(u, MARKER, Replace(s[|t|..], t, MARKER));
      } else {
        assert ([s[0]] + Replace(s[1..], t, MARKER))[1..] == Replace(s[1..], t, MARKER);
        assert forall j :: 0 <= j < |u| - 1 ==> u[1..][j..] == u[j + 1..];
        PrefixIsKept(s[1..], t, u[1..]);
        assert u == [u[0]] + u[1..] && s == [s[0]] + s[1..] && u[0] == s[0];
      }
    }
  }

  lemma InMarkerThen(rest: string, u: string)
    requires u != "" && !Completable(u) && Contains(MARKER + rest, u)
    ensures Contains(rest, u)
  {
    var s := MARKER + rest;
    var i: nat :| i <= |s| && At(s, u, i);
    AtAcross(MARKER, rest, u, i);
    hide At, Completable;
    if i < |MARKER| < i + |u| { StartIsCompletable(u, |MARKER| - i); } else if i < |MARKER| { InsideIsCompletable(u, i); }
  }

  lemma StartIsCompletable(u: string, k: nat)
    requires 0 < k <= |u| && k <= |MARKER| && u[..k] == MARKER[|MARKER| - k..]
    ensures Completable(u)
  {
    assert StartsInMarker(u, k);
  }

  lemma InsideIsCompletable(u: string, i: nat)
    requires At(MARKER, u, i)
    ensures Completable(u)
  {}

  lemma AtAcross(m: string, rest: string, u: string, i: nat)
    requires At(m + rest, u, i)
    ensures i >= |m| ==> i <= |m| + |rest| && At(rest, u, i - |m|)
    ensures i + |u| <= |m| ==> At(m, u, i)
    ensures i < |m| < i + |u| ==> u[..|m| - i] == m[i..]
  {
    var s := m + rest;
    if i >= |m| {
      assert s[i..i + |u|] == rest[i - |m|..i - |m| + |u|];
    } else if i + |u| <= |m| {
      assert s[i..i + |u|] == m[i..i + |u|];
    } else {
      assert s[i..i + |u|][..|m| - i] == m[i..];
    }
  }

  lemma ContainsHead(c: char, rest: string, u: string)
    requires Contains([c] + rest, u)
    ensures u <= [c] + rest || Contains(rest, u)
  {
    var s := [c] + rest;
    var i: nat :| i <= |s| && At(s, u, i);
    if i > 0 { assert At(rest, u, i - 1); }
  }

  /** Replacing a needle creates no occurrence of another one, and leaves none of its own. */
  lemma {:induction false} ReplaceCreatesNothing(s: string, t: string, u: string)
    requires t != "" && u != "" && !Completable(u)
    requires u == t || !Contains(s, u)
    ensures !Contains(Replace(s, t, MARKER), u)
  {
    hide Completable;
    StartIsInside(s, u);
    if s != "" {
      if t <= s {
        var rest := s[|t|..];
        assert s == s[..|t|] + rest;
        ContainsParts(s[..|t|], rest, u);
        ReplaceCreatesNothing(rest, t, u);
        if Contains(MARKER + Replace(rest, t, MARKER), u) { InMarkerThen(Replace(rest, t, MARKER), u); }
      } else {
        assert s == [s[0]] + s[1..];
        ContainsParts([s[0]], s[1..], u);
        ReplaceCreatesNothing(s[1..], t, u);
        if Contains(Replace(s, t, MARKER), u) {
          ContainsHead(s[0], Replace(s[1..], t, MARKER), u);
          CompletableStart(u);
          if u <= Replace(s, t, MARKER) { PrefixIsKept(s, t, u); }
        }
      }
    } else {
      assert forall i: nat :: !At("", u, i);
    }
  }

  // ---------------------------------------------------------------- one string

  /** All needles in turn, in the given order. */
  function RedactString(s: string, needles: seq<string>): string
    requires "" !in needles
  {
    if needles == [] then s else
    var last := needles[|needles| - 1];
    Replace(RedactString(s, needles[..|needles| - 1]), last, MARKER)
  }

  lemma {:induction false} ReplaceAbsent(s: string, t: string, with: string)
    requires t != "" && !Contains(s, t)
    ensures Replace(s, t, with) == s
  {
    if s != "" {
      assert s == [s[0]] + s[1..];
      ContainsParts([s[0]], s[1..], t);
      StartIsInside(s, t);
      ReplaceAbsent(s[1..], t, with);
    }
  }

  /** A needle that no marker can complete is gone at the end, whatever the other needles are and in
      whatever order they are replaced. */
  lemma {:induction false} OneGone(s: string, needles: seq<string>, u: string)
    requires "" !in needles && u in needles && !Completable(u)
    ensures !Contains(RedactString(s, needles), u)
  {
    hide Contains, Completable, Replace;
    var n := |needles| - 1;
    assert u == needles[n] || u in needles[..n];
    if u in needles[..n] { OneGone(s, needles[..n], u); }
    ReplaceCreatesNothing(RedactString(s, needles[..n]), needles[n], u);
  }

  ghost predicate Safe(needles: seq<string>) { "" !in needles && forall t :: t in needles ==> !Completable(t) }

  /** No replacement brings back what an earlier one removed: at the end no needle is left. */
  lemma {:induction false} NoneLeft(s: string, needles: seq<string>)
    requires Safe(needles)
    ensures forall t :: t in needles ==> !Contains(RedactString(s, needles), t)
  {
    hide Contains, Completable;
    forall t | t in needles ensures !Contains(RedactString(s, needles), t) { OneGone(s, needles, t); }
  }

  lemma {:induction false} CleanUnchanged(s: string, needles: seq<string>)
    requires "" !in needles && forall t :: t in needles ==> !Contains(s, t)
    ensures RedactString(s, needles) == s
  {
    hide Contains, Replace;
    if needles != [] {
      CleanUnchanged(s, needles[..|needles| - 1]);
      ReplaceAbsent(s, needles[|needles| - 1], MARKER);
    }
  }

  ghost predicate Sorted(needles: seq<string>) {
    forall i, j :: 0 <= i < j < |needles| ==> |needles[i]| >= |needles[j]| && needles[i] != needles[j]
  }

  /** Needles that a marker completes, if at all, by containing them; bracket-free ones are such. */
  ghost predicate NoPartialOverlap(needles: seq<string>) {
    forall t :: t in needles ==> Completable(t) ==> Contains(MARKER, t)
  }

  lemma BracketFreeNoPartial(needles: seq<string>)
    requires "" !in needles && forall t :: t in needles ==> BracketFree(t)
    ensures NoPartialOverlap(needles)
  {
    hide Completable, Contains, BracketFree;
    forall t | t in needles ensures Completable(t) ==> Contains(MARKER, t) {
      BracketFreeCompletable(t);
      InnerOfMarker(t);
    }
  }

  /** For a fixed list of needles without partial overlaps, longest first, the guarantee holds for every
      string if and only if no needle is part of the marker. */
  lemma GuaranteeExactly(needles: seq<string>)
    requires "" !in needles && Sorted(needles) && NoPartialOverlap(needles)
    ensures (forall s, t :: t in needles ==> !Contains(RedactString(s, needles), t))
      <==> forall t :: t in needles ==> !Contains(MARKER, t)
  {
    hide Replace, Contains, Completable;
    if forall t :: t in needles ==> !Contains(MARKER, t) {
      forall s, t | t in needles ensures !Contains(RedactString(s, needles), t) { NoneLeft(s, needles); }
    } else {
      var t := Offender(needles, |needles|);
    }
  }

  /** The last needle inside the marker comes back from its own replacement. */
  lemma {:induction false} Offender(needles: seq<string>, k: nat) returns (t: string)
    requires "" !in needles && Sorted(needles) && k <= |needles|
    requires exists i :: 0 <= i < k && Contains(MARKER, needles[i])
    requires forall i :: k <= i < |needles| ==> !Contains(MARKER, needles[i])
    ensures t in needles && Contains(RedactString(t, needles), t)
  {
    var n := needles[k - 1];
    hide Replace, Contains;
    if Contains(MARKER, n) {
      t := n;
      OwnTurn(needles, k - 1);
      LaterKeepMarker(needles, k, n);
    } else {
      t := Offender(needles, k - 1);
    }
  }

  lemma NotInShorter(s: string, t: string)
    requires |t| >= |s| && t != s
    ensures !Contains(s, t)
  {
    assert s[0..|s|] == s;
    assert forall m: nat :: At(s, t, m) ==> m == 0 && |t| == |s|;
  }

  /** Longer needles, and other needles of the same length, do not occur in a needle. */
  lemma {:induction false} OwnTurn(needles: seq<string>, k: nat)
    requires "" !in needles && Sorted(needles) && k < |needles|
    ensures "" !in needles[..k] && RedactString(needles[k], needles[..k]) == needles[k]
  {
    forall t | t in needles[..k] ensures !Contains(needles[k], t) {
      var i :| 0 <= i < k && needles[..k][i] == t;
      assert |t| >= |needles[k]| && t != needles[k];
      NotInShorter(needles[k], t);
    }
    CleanUnchanged(needles[k], needles[..k]);
  }

  /** Once a needle has become a marker, needles outside it leave it alone. */
  lemma {:induction false} LaterKeepMarker(needles: seq<string>, k: nat, n: string)
    requires "" !in needles && 0 < k <= |needles| && n == needles[k - 1]
    requires RedactString(n, needles[..k - 1]) == n
    requires forall i :: k <= i < |needles| ==> !Contains(MARKER, needles[i])
    ensures RedactString(n, needles) == MARKER
    decreases |needles|
  {
    hide Contains;
    if k == |needles| {
      assert n <= n && n[|n|..] == "" && Replace("", n, MARKER) == "" && MARKER + "" == MARKER;
    } else {
      var last := needles[|needles| - 1];
      assert needles[..|needles| - 1][..k - 1] == needles[..k - 1];
      LaterKeepMarker(needles[..|needles| - 1], k, n);
      ReplaceAbsent(MARKER, last, MARKER);
    }
  }
}
