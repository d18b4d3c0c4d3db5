/** Which secrets the known-string layer hides, whatever else is secret: exactly those that no marker
    can complete. */
module TaintedSecrets {
  import opened TaintedStrings
  import opened TaintedEvents

  /** What the layer builds from its secrets: every secret and its escaped forms, longest first. */
  ghost predicate NeedlesOf(needles: seq<string>, secrets: set<string>) {
    "" !in needles && Sorted(needles) && forall t :: t in needles <==> t in NeedleSet(secrets)
  }

  // ---------------------------------------------------------------- escaped forms are as safe as the secret

  /** What an escaped string begins with, up to a backslash, the string itself begins with. */
  lemma {:induction false} PlainStart(u: string, q: string, ascii: bool)
    requires '\\' !in q && q <= Escape(u, ascii)
    ensures q <= u
  {
    hide EscapeChar;
    if u != "" {
      var front, last := u[..|u| - 1], u[|u| - 1];
      var e, f := Escape(front, ascii), EscapeChar(last, ascii);
      EscapeTail(last, ascii);
      if |q| <= |e| {
        assert q <= e;
        PlainStart(front, q, ascii);
      } else {
        EscapeSafe(front, ascii);
        assert e <= q && q[|e|] == f[0];
        assert forall c :: c in e ==> c in q;
        assert q == e + [last] && u == front + [last];
      }
    }
  }

  /** Where a piece without backslashes that starts at a bracket can lie, when a character is appended. */
  lemma PieceEnds(e: string, f: string, last: char, r: string, i: nat)
    requires r != "" && r[0] == '[' && '\\' !in r && At(e + f, r, i)
    requires f != [] && (f == [last] || (f[0] == '\\' && '[' !in f))
    ensures At(e, r, i) || (f == [last] && i + |r| == |e| + 1 && r[|r| - 1] == last
                            && (|r| == 1 || At(e, r[..|r| - 1], i)))
  {
    var s := e + f;
    assert s[i] == s[i..i + |r|][0];
    if i + |r| <= |e| {
      assert s[i..i + |r|] == e[i..i + |r|];
    } else {
      if i < |e| { assert s[|e|] == s[i..i + |r|][|e| - i] && s[|e|] in r; }
      assert s[|e|] == f[0];
      assert s[i..i + |r|][|r| - 1] == s[i + |r| - 1];
      assert s[i..i + |r|][..|r| - 1] == s[i..i + |r| - 1];
      if |r| > 1 { assert s[i..i + |r| - 1] == e[i..i + |r| - 1]; }
    }
  }

  lemma LastAt(s: string, c: char)
    ensures At(s + [c], [c], |s|)
  {}

  /** Appending a character lengthens a piece at the end and leaves any other one. */
  lemma AtLonger(s: string, t: string, i: nat, c: char)
    requires At(s, t, i)
    ensures At(s + [c], t, i) && (i + |t| == |s| ==> At(s + [c], t + [c], i))
  {
    assert (s + [c])[i..i + |t|] == s[i..i + |t|];
    if i + |t| == |s| { assert (s + [c])[i..i + |t| + 1] == s[i..i + |t|] + [c]; }
  }

  /** A piece of an escaped string that starts at a bracket and has no backslash is a piece of the string. */
  lemma {:induction false} PlainPiece(u: string, r: string, ascii: bool, i: nat) returns (j: nat)
    requires r != "" && r[0] == '[' && '\\' !in r && At(Escape(u, ascii), r, i)
    ensures At(u, r, j) && (i + |r| == |Escape(u, ascii)| ==> j + |r| == |u|)
  {
    hide EscapeChar;
    var front, last := u[..|u| - 1], u[|u| - 1];
    var e, f := Escape(front, ascii), EscapeChar(last, ascii);
    EscapeTail(last, ascii);
    assert Escape(u, ascii) == e + f && u == front + [last] && f != [];
    PieceEnds(e, f, last, r, i);
    hide Escape, At;
    AtFits(e + f, r, i);
    if At(e, r, i) {
      j := PlainPiece(front, r, ascii, i);
      AtFits(e, r, i);
      AtLonger(front, r, j, last);
    } else if |r| == 1 {
      j := |front|;
      LastAt(front, last);
    } else {
      assert forall c :: c in r[..|r| - 1] ==> c in r;
      j := PlainPiece(front, r[..|r| - 1], ascii, i);
      AtLonger(front, r[..|r| - 1], j, last);
      assert r == r[..|r| - 1] + [last];
    }
  }

  /** A character is escaped to itself or to something that begins with a backslash and has no bracket. */
  lemma EscapeTail(c: char, ascii: bool)
    ensures EscapeChar(c, ascii) != []
    ensures EscapeChar(c, ascii) == [c] || (EscapeChar(c, ascii)[0] == '\\' && '[' !in EscapeChar(c, ascii))
  {
    hide Unit;
    var n := c as int;
    UnitShape(n);
    if n >= 0x10000 {
      UnitShape(0xD800 + (n - 0x10000) / 1024);
      UnitShape(0xDC00 + (n - 0x10000) % 1024);
    }
  }

  lemma UnitShape(n: nat)
    ensures '[' !in Unit(n) && |Unit(n)| == 6 && Unit(n)[0] == '\\'
  {
    UnitSafe(n);
  }

  lemma PlainMarker(k: nat)
    requires k <= |MARKER|
    ensures '\\' !in MARKER[..k] && '\\' !in MARKER[k..]
  {
    assert forall i :: 0 <= i < |MARKER| ==> MARKER[i] != '\\';
  }

  lemma OnlyPlainInMarker(u: string, ascii: bool, i: nat)
    requires At(MARKER, Escape(u, ascii), i)
    ensures Escape(u, ascii) == u
  {
    EscapeSafe(u, ascii);
    PlainMarker(|MARKER|);
    assert forall c :: c in MARKER[i..i + |Escape(u, ascii)|] ==> c in MARKER[..|MARKER|];
  }

  /** If a marker can complete an escaped form, it can complete the secret. */
  lemma EscapeStaysSafe(u: string, ascii: bool)
    requires Completable(Escape(u, ascii))
    ensures Completable(u)
  {
    var e := Escape(u, ascii);
    hide Escape, At;
    if Contains(MARKER, e) {
      var i: nat :| i <= |MARKER| && At(MARKER, e, i);
      OnlyPlainInMarker(u, ascii, i);
    } else if Contains(e, MARKER) {
      var i: nat :| i <= |e| && At(e, MARKER, i);
      PlainMarker(0);
      assert MARKER[0..] == MARKER;
      var j := PlainPiece(u, MARKER, ascii, i);
      AtFits(u, MARKER, j);
    } else if exists k | 0 < k <= |e| :: EndsInMarker(e, k) {
      var k :| 0 < k <= |e| && EndsInMarker(e, k);
      EndComesBack(u, ascii, k);
    } else {
      var k :| 0 < k <= |e| && StartsInMarker(e, k);
      PlainMarker(|MARKER| - k);
      assert e[..k] <= e;
      PlainStart(u, e[..k], ascii);
      assert StartsInMarker(u, k);
    }
  }

  lemma AtFits(s: string, t: string, i: nat)
    requires At(s, t, i)
    ensures i + |t| <= |s| && Contains(s, t)
  {}

  lemma EndComesBack(u: string, ascii: bool, k: nat)
    requires EndsInMarker(Escape(u, ascii), k)
    ensures EndsInMarker(u, k) && k <= |u|
  {
    hide Escape;
    PlainMarker(k);
    var j := PlainPiece(u, MARKER[..k], ascii, |Escape(u, ascii)| - k);
  }

  /** Secrets that no marker can complete give safe needles, escaped forms included. */
  lemma NeedlesSafe(secrets: set<string>, needles: seq<string>)
    requires forall t :: t in secrets && t != "" ==> !Completable(t)
    requires NeedlesOf(needles, secrets)
    ensures Safe(needles)
  {
    hide Completable, Escape;
    forall t | t in needles ensures !Completable(t) {
      if !(t in secrets && t != "") {
        var s, ascii :| s in secrets && s != "" && t == Escape(s, ascii);
        if Completable(t) { EscapeStaysSafe(s, ascii); }
      }
    }
  }

  // ---------------------------------------------------------------- what a marker can complete does leak

  function Run(c: char, n: nat): string { seq(n, _ => c) }

  /** A run of a character is taken out where it stands. */
  lemma {:induction false} RunReplaced(a: string, c: char, n: nat, b: string, with: string)
    requires 0 < n && |a| <= n && (a != "" ==> a[|a| - 1] != c) && (|b| < n || (|b| == n && b[0] != c))
    ensures Replace(a + Run(c, n) + b, Run(c, n), with) == a + with + b
  {
    hide Contains, Run, Replace;
    RunLength(c, n);
    if a == "" {
      RunAbsent(b, c, n);
      ReplaceFirst(Run(c, n), b, with);
      assert "" + Run(c, n) + b == Run(c, n) + b && "" + with + b == with + b;
    } else {
      var s := a[1..] + Run(c, n) + b;
      RunReplaced(a[1..], c, n, b, with);
      assert ([a[0]] + s)[|a| - 1] == a[|a| - 1];
      ReplaceLater(a[0], s, Run(c, n), |a| - 1, with);
      assert [a[0]] + s == a + Run(c, n) + b && [a[0]] + (a[1..] + with + b) == a + with + b;
    }
  }

  lemma ReplaceFirst(t: string, b: string, with: string)
    requires t != "" && !Contains(b, t)
    ensures Replace(t + b, t, with) == with + b
  {
    ReplaceAbsent(b, t, with);
    hide Contains;
    assert (t + b)[|t|..] == b;
  }

  lemma ReplaceLater(first: char, s: string, t: string, k: nat, with: string)
    requires t != "" && k < |t| && k <= |s| && ([first] + s)[k] != t[k]
    ensures Replace([first] + s, t, with) == [first] + Replace(s, t, with)
  {
    assert ([first] + s)[1..] == s;
  }

  lemma RunAbsent(b: string, c: char, n: nat)
    requires 0 < n && (|b| < n || (|b| == n && b[0] != c))
    ensures !Contains(b, Run(c, n))
  {
    forall i: nat ensures !At(b, Run(c, n), i) {
      if At(b, Run(c, n), i) { RunInside(b, c, n, i); }
    }
  }

  lemma RunInside(b: string, c: char, n: nat, i: nat)
    requires 0 < n && At(b, Run(c, n), i)
    ensures i + n <= |b| && b[i] == c
  {
    assert b[i] == Run(c, n)[0];
  }

  /** No needle that holds a piece of the marker between parts at least as long as a and b. */
  lemma NotStretched(a: string, c: char, n: nat, b: string, before: string, r: string, after: string)
    requires r != "" && r[0] != c && |before| >= |a| && |after| >= |b|
    ensures !Contains(a + Run(c, n) + b, before + r + after)
  {
    var s, w := a + Run(c, n) + b, before + r + after;
    forall i: nat ensures !At(s, w, i) {
      if i + |w| <= |s| {
        assert s[i..i + |w|][|before|] == s[i + |before|] == c;
        assert w[|before|] == r[0];
      }
    }
  }

  lemma {:induction false} EscapeParts(x: string, y: string, ascii: bool)
    ensures Escape(x + y, ascii) == Escape(x, ascii) + Escape(y, ascii)
  {
    hide EscapeChar;
    if y == "" {
      assert x + y == x;
    } else {
      var n := |y| - 1;
      EscapeParts(x, y[..n], ascii);
      assert (x + y)[..|x + y| - 1] == x + y[..n];
    }
  }

  predicate Plain(c: char) { c in MARKER || c == 'x' || c == 'y' }

  lemma PlainRange(c: char)
    requires Plain(c)
    ensures ' ' < c <= '~' && c != '\\' && c != '"'
  {
    assert forall i :: 0 <= i < |MARKER| ==> ' ' < MARKER[i] <= '~' && MARKER[i] != '\\' && MARKER[i] != '"';
  }

  lemma PlainChar(c: char, ascii: bool)
    requires Plain(c)
    ensures EscapeChar(c, ascii) == [c]
  {
    PlainRange(c);
    hide Plain, Unit;
  }

  lemma {:induction false} EscapePlain(s: string, ascii: bool)
    requires forall c :: c in s ==> Plain(c)
    ensures Escape(s, ascii) == s
  {
    hide Plain, EscapeChar;
    if s != "" {
      var front, last := s[..|s| - 1], s[|s| - 1];
      assert s == front + [last] && last in s;
      assert forall c :: c in front ==> c in s;
      EscapePlain(front, ascii);
      PlainChar(last, ascii);
    }
  }

  lemma Foreign(c: char)
    requires c == 'x' || c == 'y'
    ensures c !in MARKER && Plain(c)
  {
    assert forall i :: 0 <= i < |MARKER| ==> MARKER[i] != 'x' && MARKER[i] != 'y';
  }

  /** Longest first, a shortest needle comes last. */
  lemma ShortestLast(needles: seq<string>, t: string)
    requires Sorted(needles) && t in needles && forall w :: w in needles && w != t ==> |w| > |t|
    ensures needles[|needles| - 1] == t && t !in needles[..|needles| - 1]
  {
    var i :| 0 <= i < |needles| && needles[i] == t;
    assert needles[|needles| - 1] in needles;
  }

  /** The character next to the run that must differ from it. */
  function Edge(a: string, b: string): char
    requires 0 < |a| + |b|
  {
    if a != "" then a[|a| - 1] else b[0]
  }

  /** With a shorter run of a foreign character as the only other secret, a text with that run between a
      and b becomes a, the marker and b. */
  lemma Stretched(u: string, a: string, r: string, b: string, c: char, needles: seq<string>)
    requires u == a + r + b && r != "" && 0 < |a| + |b| && |u| > 1 && (forall d :: d in r ==> d in MARKER)
    requires (c == 'x' || c == 'y') && c != Edge(a, b)
    requires NeedlesOf(needles, {u, Run(c, |u| - 1)})
    ensures RedactString(a + Run(c, |u| - 1) + b, needles) == a + MARKER + b
  {
    hide Contains, RedactString, Replace, NeedleSet, Run, Plain;
    var t := Run(c, |u| - 1);
    var s := a + t + b;
    Foreign(c);
    forall w | w in needles && w != t ensures |w| > |u| - 1 && !Contains(s, w) {
      StretchedNeedle(u, a, r, b, c, w);
    }
    RunLength(c, |u| - 1);
    OwnNeedle(u, t);
    ShortestLast(needles, t);
    var n := |needles| - 1;
    assert forall w :: w in needles[..n] ==> w in needles;
    CleanUnchanged(s, needles[..n]);
    RunReplaced(a, c, |u| - 1, b, MARKER);
    LastTurn(s, needles);
  }

  lemma RunLength(c: char, n: nat)
    ensures |Run(c, n)| == n && forall i :: 0 <= i < n ==> Run(c, n)[i] == c
  {}

  lemma OwnNeedle(u: string, t: string)
    requires t != ""
    ensures t in NeedleSet({u, t})
  {}

  lemma LastTurn(s: string, needles: seq<string>)
    requires needles != [] && "" !in needles && "" !in needles[..|needles| - 1]
    ensures RedactString(s, needles) == Replace(RedactString(s, needles[..|needles| - 1]), needles[|needles| - 1], MARKER)
  {}

  lemma StretchedNeedle(u: string, a: string, r: string, b: string, c: char, w: string)
    requires u == a + r + b && r != "" && |u| > 1 && (forall d :: d in r ==> d in MARKER)
    requires c !in MARKER && Plain(c)
    requires w in NeedleSet({u, Run(c, |u| - 1)}) && w != Run(c, |u| - 1)
    ensures |w| >= |u| && !Contains(a + Run(c, |u| - 1) + b, w)
  {
    hide Plain, Contains, Escape;
    assert r[0] in r;
    if w == u {
      NotStretched(a, c, |u| - 1, b, a, r, b);
    } else {
      var v, ascii :| v in {u, Run(c, |u| - 1)} && v != "" && w == Escape(v, ascii);
      if v != u {
        assert forall d :: d in v ==> d == c;
        EscapePlain(v, ascii);
      }
      StretchedEscape(u, a, r, b, c, ascii);
    }
  }

  lemma StretchedEscape(u: string, a: string, r: string, b: string, c: char, ascii: bool)
    requires u == a + r + b && r != "" && |u| > 1 && (forall d :: d in r ==> d in MARKER) && c !in MARKER
    ensures |Escape(u, ascii)| >= |u| && !Contains(a + Run(c, |u| - 1) + b, Escape(u, ascii))
  {
    hide Contains, Escape;
    assert r[0] in r;
    EscapeParts(a + r, b, ascii);
    EscapeParts(a, r, ascii);
    EscapePlain(r, ascii);
    EscapeSafe(a, ascii);
    EscapeSafe(b, ascii);
    NotStretched(a, c, |u| - 1, b, Escape(a, ascii), r, Escape(b, ascii));
  }

  /** A secret inside the marker comes back with its own replacement. */
  lemma InsideMarker(u: string, needles: seq<string>)
    requires u != "" && Contains(MARKER, u) && NeedlesOf(needles, {u})
    ensures RedactString(u, needles) == MARKER
  {
    hide *;
    OnlyNeedle(u, needles);
    OwnReplacement(u);
    LastTurn(u, [u]);
    assert [u][..0] == [];
    CleanUnchanged(u, []);
  }

  lemma OnlyNeedle(u: string, needles: seq<string>)
    requires u != "" && Contains(MARKER, u) && NeedlesOf(needles, {u})
    ensures needles == [u]
  {
    hide Contains, Escape, Plain, NeedleSet;
    InMarkerChars(u);
    MarkerPlain(u);
    EscapePlain(u, true);
    EscapePlain(u, false);
    OneNeedle(u);
    assert u in needles && forall k :: 0 <= k < |needles| ==> needles[k] in needles;
    var n := |needles| - 1;
    assert needles[0] == needles[n] == u;
  }

  lemma MarkerPlain(u: string)
    requires forall c :: c in u ==> c in MARKER
    ensures forall c :: c in u ==> Plain(c)
  {}

  lemma OneNeedle(u: string)
    requires u != "" && Escape(u, true) == u && Escape(u, false) == u
    ensures NeedleSet({u}) == {u}
  {
    hide Escape;
  }

  lemma InMarkerChars(u: string)
    requires Contains(MARKER, u)
    ensures forall c :: c in u ==> c in MARKER
  {
    var i: nat :| i <= |MARKER| && At(MARKER, u, i);
  }

  lemma OwnReplacement(u: string)
    requires u != ""
    ensures Replace(u, u, MARKER) == MARKER
  {
    assert u <= u && u[|u|..] == "" && MARKER + "" == MARKER;
  }

  /** Every secret a marker can complete is left in some text, next to some other secret. */
  lemma CompletedLeaks(u: string) returns (secrets: set<string>, s: string)
    requires u != "" && Completable(u)
    ensures u in secrets && forall needles :: NeedlesOf(needles, secrets) ==> Contains(RedactString(s, needles), u)
  {
    if Contains(MARKER, u) {
      secrets, s := {u}, u;
      forall needles | NeedlesOf(needles, secrets) ensures Contains(RedactString(s, needles), u) { InsideMarker(u, needles); }
    } else {
      var a, r, b := Overlap(u);
      var c := if Edge(a, b) == 'x' then 'y' else 'x';
      secrets, s := {u, Run(c, |u| - 1)}, a + Run(c, |u| - 1) + b;
      forall needles | NeedlesOf(needles, secrets) ensures Contains(RedactString(s, needles), u) {
        Stretched(u, a, r, b, c, needles);
      }
    }
  }

  /** The part of the needle that a marker supplies, and the text it needs before and after. */
  lemma Overlap(u: string) returns (a: string, r: string, b: string)
    requires u != "" && Completable(u) && !Contains(MARKER, u)
    ensures u == a + r + b && r != "" && 0 < |a| + |b| && |u| > 1 && forall d :: d in r ==> d in MARKER
    ensures Contains(a + MARKER + b, u)
  {
    hide EndsInMarker, StartsInMarker, At;
    if Contains(u, MARKER) {
      var i: nat :| i <= |u| && At(u, MARKER, i);
      Around(u, i);
      a, r, b := u[..i], MARKER, u[i + |MARKER|..];
    } else if exists k | 0 < k <= |u| :: EndsInMarker(u, k) {
      var k :| 0 < k <= |u| && EndsInMarker(u, k);
      Before(u, k);
      a, r, b := u[..|u| - k], u[|u| - k..], "";
    } else {
      var k :| 0 < k <= |u| && StartsInMarker(u, k);
      After(u, k);
      a, r, b := "", u[..k], u[k..];
    }
  }

  lemma Around(u: string, i: nat)
    requires At(u, MARKER, i) && !Contains(MARKER, u)
    ensures i + |MARKER| <= |u| && |MARKER| < |u|
    ensures u == u[..i] + MARKER + u[i + |MARKER|..] && Contains(u[..i] + MARKER + u[i + |MARKER|..], u)
  {
    assert u == u[..i] + u[i..i + |MARKER|] + u[i + |MARKER|..];
    assert At(u, u, 0);
    assert |u| == |MARKER| ==> u == MARKER;
  }

  lemma Before(u: string, k: nat)
    requires EndsInMarker(u, k) && !Contains(MARKER, u)
    ensures 0 < k < |u| && u[|u| - k..] == MARKER[..k] && Contains(u[..|u| - k] + MARKER + "", u)
    ensures forall d :: d in u[|u| - k..] ==> d in MARKER
  {
    var s := u[..|u| - k] + MARKER + "";
    assert s[..|u|] == u[..|u| - k] + MARKER[..k] == u;
    assert At(s, u, 0);
    assert k == |u| ==> At(MARKER, u, 0);
  }

  lemma StartsAt(u: string, k: nat)
    requires StartsInMarker(u, k)
    ensures At(MARKER, u[..k], |MARKER| - k) && (k == |u| ==> u[..k] == u)
  {}

  lemma After(u: string, k: nat)
    requires StartsInMarker(u, k) && !Contains(MARKER, u)
    ensures 0 < k < |u| && k <= |MARKER| && u[..k] == MARKER[|MARKER| - k..] && Contains("" + MARKER + u[k..], u)
    ensures forall d :: d in u[..k] ==> d in MARKER
  {
    var s := "" + MARKER + u[k..];
    assert s[|MARKER| - k..] == MARKER[|MARKER| - k..] + u[k..] == u;
    assert At(s, u, |MARKER| - k);
    StartsAt(u, k);
  }

  // ---------------------------------------------------------------- the guarantee for one secret

  lemma {:induction false} SortedOf(strings: set<string>) returns (sorted: seq<string>)
    ensures Sorted(sorted) && forall t :: t in sorted <==> t in strings
    decreases |strings|
  {
    if strings == {} {
      sorted := [];
    } else {
      var t := ShortestOf(strings);
      sorted := SortedOf(strings - {t});
      assert forall i :: 0 <= i < |sorted| ==> sorted[i] in sorted;
      sorted := sorted + [t];
    }
  }

  lemma {:induction false} ShortestOf(strings: set<string>) returns (t: string)
    requires strings != {}
    ensures t in strings && forall s :: s in strings ==> |s| >= |t|
    decreases |strings|
  {
    t :| t in strings;
    if strings != {t} {
      var u := ShortestOf(strings - {t});
      if |u| < |t| { t := u; }
    }
  }

  /** Redaction leaves the string u in the text s. */
  ghost predicate LeftIn(s: string, needles: seq<string>, u: string) {
    "" !in needles && Contains(RedactString(s, needles), u)
  }

  /** A secret and its escaped forms are gone from every text, whatever the other secrets are, if and only
      if no marker can complete the secret. */
  lemma SecretHiddenExactly(u: string)
    requires u != ""
    ensures (forall secrets, needles, s :: u in secrets && NeedlesOf(needles, secrets) ==> !LeftIn(s, needles, u)) <==> !Completable(u)
    ensures !Completable(u) ==>
              forall secrets, needles, s, ascii :: u in secrets && NeedlesOf(needles, secrets) ==> !LeftIn(s, needles, Escape(u, ascii))
  {
    if Completable(u) {
      var secrets, needles, s := Leak(u);
      hide *;
      assert u in secrets && NeedlesOf(needles, secrets) && LeftIn(s, needles, u);
    } else {
      hide *;
      forall secrets, needles, s | u in secrets && NeedlesOf(needles, secrets) ensures !LeftIn(s, needles, u) {
        BothGone(u, secrets, needles, s, true);
      }
      forall secrets, needles, s, ascii | u in secrets && NeedlesOf(needles, secrets) ensures !LeftIn(s, needles, Escape(u, ascii)) {
        BothGone(u, secrets, needles, s, ascii);
      }
    }
  }

  lemma Leak(u: string) returns (secrets: set<string>, needles: seq<string>, s: string)
    requires u != "" && Completable(u)
    ensures u in secrets && NeedlesOf(needles, secrets) && LeftIn(s, needles, u)
  {
    hide Contains, Completable, NeedleSet, RedactString;
    secrets, s := CompletedLeaks(u);
    NoEmptyNeedle(secrets);
    needles := SortedOf(NeedleSet(secrets));
  }

  lemma BothGone(u: string, secrets: set<string>, needles: seq<string>, s: string, ascii: bool)
    requires u != "" && !Completable(u) && u in secrets && NeedlesOf(needles, secrets)
    ensures !LeftIn(s, needles, u) && !LeftIn(s, needles, Escape(u, ascii))
  {
    hide Contains, Completable, Escape, RedactString;
    if Completable(Escape(u, ascii)) { EscapeStaysSafe(u, ascii); }
    OneGone(s, needles, u);
    OneGone(s, needles, Escape(u, ascii));
  }

  // ---------------------------------------------------------------- one needle on its own

  const LOOP: string := "[a["

  /** On its own even a needle that a marker could complete may be harmless: this one would have to begin
      where its own replacement has already begun. */
  lemma LoopIsHarmless(s: string)
    ensures Completable(LOOP) && !LeftIn(s, [LOOP], LOOP)
  {
    assert EndsInMarker(LOOP, 1);
    LoopReplaced(s);
    assert [LOOP][..0] == [];
    CleanUnchanged(s, []);
    LastTurn(s, [LOOP]);
  }

  lemma {:induction false} LoopReplaced(s: string)
    ensures !Contains(Replace(s, LOOP, MARKER), LOOP)
  {
    if s != "" {
      if LOOP <= s {
        LoopReplaced(s[|LOOP|..]);
        LoopBehindMarker(Replace(s[|LOOP|..], LOOP, MARKER));
      } else {
        LoopReplaced(s[1..]);
        hide Contains;
        var r := [s[0]] + Replace(s[1..], LOOP, MARKER);
        if LOOP <= r { LoopAhead(s); }
        if Contains(r, LOOP) { ContainsHead(s[0], Replace(s[1..], LOOP, MARKER), LOOP); }
      }
    }
  }

  lemma LoopBehindMarker(rest: string)
    requires !Contains(rest, LOOP)
    ensures !Contains(MARKER + rest, LOOP)
  {
    assert forall i :: 0 < i < |MARKER| ==> MARKER[i] != '[';
    forall i: nat ensures !At(MARKER + rest, LOOP, i) {
      if At(MARKER + rest, LOOP, i) {
        LoopAt(MARKER + rest, i);
        AtAcross(MARKER, rest, LOOP, i);
      }
    }
  }

  lemma LoopAt(s: string, i: nat)
    requires At(s, LOOP, i)
    ensures i + 3 <= |s| && s[i] == '[' && s[i + 1] == 'a' && s[i + 2] == '['
  {
    assert s[i..i + 3][0] == s[i] && s[i..i + 3][1] == s[i + 1] && s[i..i + 3][2] == s[i + 2];
  }

  /** The result begins with the needle only where the text does. */
  lemma LoopAhead(s: string)
    requires s != "" && LOOP <= [s[0]] + Replace(s[1..], LOOP, MARKER)
    ensures LOOP <= s
  {
    var r := Replace(s[1..], LOOP, MARKER);
    assert ([s[0]] + r)[1..] == r && r[0] == 'a' && r[1] == '[' && MARKER[0] == '[';
    assert s[1..][1..] == s[2..] && r == [s[1]] + Replace(s[2..], LOOP, MARKER);
  }
}
