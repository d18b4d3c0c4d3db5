/** What known-secret redaction does to a text and to an event, and what the pipeline audits: the places that are
    replaced, the needles, and the records, told from the text and the secrets. */
module TaintedMeaning {
  import opened Json
  import opened TaintedStrings
  import opened TaintedEvents
  import SecretMeaning
  import RedactionMeaning
  import RedactionPipeline
  import SecretMarkers

  // ---------------------------------------------------------------- replacing

  function Join(pieces: seq<string>, with: string): string
    requires pieces != []
  {
    if |pieces| == 1 then pieces[0] else pieces[0] + with + Join(pieces[1..], with)
  }

  /** The needle stands behind the piece, and nowhere before. */
  ghost predicate EndsAtFirst(piece: string, t: string) { forall i: nat :: i < |piece| ==> !At(piece + t, t, i) }

  /** The text cut at the needle, from the left and without overlaps. */
  ghost predicate CutAt(s: string, t: string, pieces: seq<string>) {
    && pieces != [] && Join(pieces, t) == s
    && !Contains(pieces[|pieces| - 1], t)
    && forall k: nat :: k < |pieces| - 1 ==> EndsAtFirst(pieces[k], t)
  }

  lemma CutMore(s: string, t: string, pieces: seq<string>, piece: string)
    requires CutAt(s, t, pieces) && EndsAtFirst(piece, t)
    ensures CutAt(piece + t + s, t, [piece] + pieces)
    ensures forall with :: Join([piece] + pieces, with) == piece + with + Join(pieces, with)
  {
    hide EndsAtFirst, Contains;
    assert ([piece] + pieces)[1..] == pieces;
    forall k: nat | k < |pieces| ensures EndsAtFirst(([piece] + pieces)[k], t) { if k > 0 { assert ([piece] + pieces)[k] == pieces[k - 1]; } }
  }

  /** A character in front of a text that does not begin with the needle belongs to the first piece. */
  lemma CutLonger(c: char, s: string, t: string, pieces: seq<string>)
    requires CutAt(s, t, pieces) && t != "" && !(t <= [c] + s)
    ensures CutAt([c] + s, t, [[c] + pieces[0]] + pieces[1..])
    ensures forall with :: Join([[c] + pieces[0]] + pieces[1..], with) == [c] + Join(pieces, with)
  {
    var p, longer := pieces[0], [[c] + pieces[0]] + pieces[1..];
    JoinLonger(c, pieces);
    assert longer[1..] == pieces[1..];
    var tail := if |pieces| == 1 then "" else t + Join(pieces[1..], t);
    assert s == p + tail;
    if |pieces| == 1 {
      forall i: nat | i <= |[c] + p| ensures !At([c] + p, t, i) {
        AtShift(c, p, t, i);
        if i > 0 { assert !At(p, t, i - 1); }
      }
    } else {
      assert EndsAtFirst(p, t) && [c] + (p + t) == [c] + p + t;
      AtFront([c] + p + t, Join(pieces[1..], t), t);
      assert [c] + s == [c] + p + t + Join(pieces[1..], t);
      forall i: nat | i < |[c] + p| ensures !At([c] + p + t, t, i) {
        AtShift(c, p + t, t, i);
        if i > 0 { assert !At(p + t, t, i - 1); }
      }
      forall k: nat | k < |longer| - 1 ensures EndsAtFirst(longer[k], t) { if k > 0 { assert longer[k] == pieces[k]; } }
    }
  }

  lemma AtShift(c: char, a: string, t: string, i: nat)
    ensures i > 0 ==> (At([c] + a, t, i) <==> At(a, t, i - 1))
    ensures At([c] + a, t, 0) ==> t <= [c] + a
  {
    if 0 < i && i + |t| <= |[c] + a| { assert ([c] + a)[i..i + |t|] == a[i - 1..i - 1 + |t|]; }
  }

  lemma AtFront(a: string, b: string, t: string)
    ensures At(a, t, 0) ==> t <= a + b
  {
    if |t| <= |a| { assert (a + b)[..|t|] == a[..|t|]; }
  }

  lemma JoinLonger(c: char, pieces: seq<string>)
    requires pieces != []
    ensures forall with :: Join([[c] + pieces[0]] + pieces[1..], with) == [c] + Join(pieces, with)
  {
    assert ([[c] + pieces[0]] + pieces[1..])[1..] == pieces[1..];
    forall with ensures Join([[c] + pieces[0]] + pieces[1..], with) == [c] + Join(pieces, with) {
      if |pieces| > 1 {
        assert [c] + pieces[0] + with + Join(pieces[1..], with) == [c] + (pieces[0] + with + Join(pieces[1..], with));
      }
    }
  }

  lemma EmptyCut(t: string)
    requires t != ""
    ensures CutAt("", t, [""]) && EndsAtFirst("", t) && forall with :: Join([""], with) == ""
  {}

  /** Every occurrence found from the left becomes the marker, and the text between them stays. */
  lemma {:induction false} ReplaceExactly(s: string, t: string, with: string) returns (pieces: seq<string>)
    requires t != ""
    ensures pieces != [] && CutAt(s, t, pieces) && Replace(s, t, with) == Join(pieces, with)
  {
    hide CutAt, Join, Replace, EndsAtFirst;
    EmptyCut(t);
    ReplaceStep(s, t, with);
    Parts(s, t, with);
    if s == "" {
      pieces := [""];
    } else if t <= s {
      var rest := ReplaceExactly(s[|t|..], t, with);
      pieces := [""] + rest;
      CutMore(s[|t|..], t, rest, "");
    } else {
      var rest := ReplaceExactly(s[1..], t, with);
      pieces := [[s[0]] + rest[0]] + rest[1..];
      CutLonger(s[0], s[1..], t, rest);
    }
  }

  lemma ReplaceStep(s: string, t: string, with: string)
    requires t != ""
    ensures s == "" ==> Replace(s, t, with) == ""
    ensures s != "" && t <= s ==> Replace(s, t, with) == with + Replace(s[|t|..], t, with)
    ensures s != "" && !(t <= s) ==> Replace(s, t, with) == [s[0]] + Replace(s[1..], t, with)
  {}

  lemma Parts(s: string, t: string, with: string)
    ensures t <= s ==> s == "" + t + s[|t|..]
    ensures s != "" ==> s == [s[0]] + s[1..]
    ensures "" + with == with
  {}

  // ---------------------------------------------------------------- needles

  function Digit(c: char): nat { if '0' <= c <= '9' then c as int - '0' as int else if 'a' <= c <= 'f' then c as int - 'a' as int + 10 else 0 }

  /** Four hexadecimal digits. */
  function Hex(s: string): nat
    requires |s| >= 4
  {
    Digit(s[0]) * 4096 + Digit(s[1]) * 256 + Digit(s[2]) * 16 + Digit(s[3])
  }

  /** Reads one character of the body of a JSON string, and how many places it takes; a pair of surrogates is one. */
  function ReadChar(s: string): (int, nat)
    requires s != ""
  {
    if s[0] != '\\' then (s[0] as int, 1)
    else if |s| >= 2 && s[1] == 'n' then (10, 2)
    else if |s| >= 2 && s[1] == 'r' then (13, 2)
    else if |s| >= 2 && s[1] == 't' then (9, 2)
    else if |s| >= 2 && s[1] == 'f' then (12, 2)
    else if |s| >= 2 && s[1] == 'b' then (8, 2)
    else if |s| >= 6 && s[1] == 'u' then
      var n := Hex(s[2..]);
      if 0xD800 <= n < 0xDC00 && |s| >= 12 then (0x10000 + (n - 0xD800) * 1024 + Hex(s[8..]) - 0xDC00, 12) else (n, 6)
    else if |s| >= 2 then (s[1] as int, 2) else (-1, 1)
  }

  function Read(s: string): seq<int>
    decreases |s|
  {
    if s == "" then [] else
    var (c, n) := ReadChar(s);
    [c] + if n <= |s| then Read(s[n..]) else []
  }

  function Codes(s: string): seq<int> { seq(|s|, i requires 0 <= i < |s| => s[i] as int) }

  lemma HexDigit(k: nat)
    requires k < 16
    ensures Digit(HEX[k]) == k
  {}

  lemma Base16(n: nat)
    requires n < 0x10000
    ensures n == n / 4096 % 16 * 4096 + n / 256 % 16 * 256 + n / 16 % 16 * 16 + n % 16
  {
    var a, b, c := n / 16, n / 256, n / 4096;
    assert n == a * 16 + n % 16;
    assert b == a / 16 && a == b * 16 + a % 16;
    assert c == b / 16 && b == c * 16 + b % 16;
    assert c < 16;
  }

  lemma UnitReads(n: nat)
    requires n < 0x10000
    ensures |Unit(n)| == 6 && Unit(n)[0] == '\\' && Unit(n)[1] == 'u' && Hex(Unit(n)[2..]) == n
  {
    var a, b, c, d := n / 4096 % 16, n / 256 % 16, n / 16 % 16, n % 16;
    HexDigit(a);
    HexDigit(b);
    HexDigit(c);
    HexDigit(d);
    Base16(n);
    hide Digit;
    assert Unit(n)[2..] == [HEX[a], HEX[b], HEX[c], HEX[d]];
  }

  /** A unit in front is read as its number. */
  lemma UnitFront(n: nat, rest: string)
    requires n < 0x10000
    ensures var s := Unit(n) + rest;
            |s| >= 6 && s[0] == '\\' && s[1] == 'u' && Hex(s[2..]) == n && s[6..] == rest
  {
    UnitReads(n);
    hide Unit, Digit;
    assert (Unit(n) + rest)[2..][..4] == Unit(n)[2..];
    HexFront((Unit(n) + rest)[2..], Unit(n)[2..]);
  }

  lemma PairChar(s: string, high: nat, low: nat)
    requires |s| >= 12 && s[0] == '\\' && s[1] == 'u' && Hex(s[2..]) == high && Hex(s[8..]) == low
    requires 0xD800 <= high < 0xDC00 <= low < 0xE000
    ensures ReadChar(s) == (0x10000 + (high - 0xD800) * 1024 + low - 0xDC00, 12)
  {
    hide Hex;
  }

  lemma PairReads(high: nat, low: nat, rest: string)
    requires 0xD800 <= high < 0xDC00 <= low < 0xE000
    ensures |Unit(high) + Unit(low)| == 12
    ensures ReadChar(Unit(high) + Unit(low) + rest) == (0x10000 + (high - 0xD800) * 1024 + low - 0xDC00, 12)
  {
    hide Unit, Hex, ReadChar;
    UnitReads(high);
    UnitReads(low);
    var tail := Unit(low) + rest;
    UnitFront(high, tail);
    UnitFront(low, rest);
    var s := Unit(high) + tail;
    assert s[8..] == tail[2..];
    PairChar(s, high, low);
    assert Unit(high) + Unit(low) + rest == s;
  }

  function High(n: nat): nat
    requires n >= 0x10000
  {
    0xD800 + (n - 0x10000) / 1024
  }

  function Low(n: nat): nat
    requires n >= 0x10000
  {
    0xDC00 + (n - 0x10000) % 1024
  }

  lemma Surrogates(n: nat)
    requires 0x10000 <= n < 0x110000
    ensures 0xD800 <= High(n) < 0xDC00 <= Low(n) < 0xE000
    ensures 0x10000 + (High(n) - 0xD800) * 1024 + Low(n) - 0xDC00 == n
  {}

  lemma UnitReadsChar(n: nat, rest: string)
    requires n < 0xD800 || 0xDC00 <= n < 0x10000
    ensures |Unit(n)| == 6 && ReadChar(Unit(n) + rest) == (n, 6)
  {
    UnitReads(n);
    UnitFront(n, rest);
    hide Unit, Hex;
  }

  lemma HexFront(s: string, t: string)
    requires |s| >= 4 && t == s[..4]
    ensures Hex(s) == Hex(t)
  {}

  /** The escaped form of a character: itself, a short escape, or one or two units. */
  lemma EscapeCases(c: char, ascii: bool)
    ensures var e, n := EscapeChar(c, ascii), c as int;
            || (e == [c] && c >= ' ' && c != '"' && c != '\\' && (ascii ==> c <= '~'))
            || (e == ['\\', c] && (c == '"' || c == '\\'))
            || (e == "\\n" && n == 10) || (e == "\\r" && n == 13) || (e == "\\t" && n == 9) || (e == "\\f" && n == 12)
            || (e == "\\b" && n == 8)
            || (e == Unit(n) && n < 0x10000 && (c < ' ' || ascii))
            || (0x10000 <= n < 0x110000 && e == Unit(High(n)) + Unit(Low(n)) && ascii)
    ensures c >= ' ' && c != '"' && c != '\\' && (!ascii || c <= '~') ==> EscapeChar(c, ascii) == [c]
  {
    hide Unit;
  }

  lemma ShortReads(e: string, n: nat, rest: string)
    requires || (|e| == 1 && e[0] != '\\' && n == e[0] as int)
             || (|e| == 2 && e[0] == '\\' && (e[1] == '"' || e[1] == '\\') && n == e[1] as int)
             || (e == "\\n" && n == 10) || (e == "\\r" && n == 13) || (e == "\\t" && n == 9) || (e == "\\f" && n == 12)
             || (e == "\\b" && n == 8)
    ensures ReadChar(e + rest) == (n, |e|)
  {
    hide Hex;
    assert (e + rest)[0] == e[0] && (|e| >= 2 ==> (e + rest)[1] == e[1]);
  }

  /** An escaped character is read as the character. */
  lemma CharReads(c: char, ascii: bool, rest: string)
    ensures var e := EscapeChar(c, ascii);
            e != "" && ReadChar(e + rest) == (c as int, |e|) && (e + rest)[|e|..] == rest
  {
    var n := c as int;
    var e := EscapeChar(c, ascii);
    EscapeCases(c, ascii);
    hide EscapeChar, High, Low;
    if n >= 0x10000 && e == Unit(High(n)) + Unit(Low(n)) {
      Surrogates(n);
      PairReads(High(n), Low(n), rest);
    } else if n < 0x10000 && e == Unit(n) {
      UnitReadsChar(n, rest);
    } else {
      hide Unit, Hex, ReadChar;
      ShortReads(e, n, rest);
    }
  }

  lemma {:induction false} EscapeFirst(s: string, ascii: bool)
    requires s != ""
    ensures Escape(s, ascii) == EscapeChar(s[0], ascii) + Escape(s[1..], ascii)
  {
    hide EscapeChar;
    var front, last := s[..|s| - 1], s[|s| - 1];
    if front != "" {
      EscapeFirst(front, ascii);
      assert s[1..][..|s[1..]| - 1] == front[1..] && s[1..][|s[1..]| - 1] == last && front[0] == s[0];
    } else {
      assert s[1..] == "" && s[0] == last;
    }
  }

  /** Reading the escaped form as the body of a JSON string gives the secret back. */
  lemma {:induction false} EscapeReads(s: string, ascii: bool)
    ensures Read(Escape(s, ascii)) == Codes(s)
  {
    hide EscapeChar, ReadChar, Escape, Read;
    if s == "" {
      EmptyReads(ascii);
    } else {
      EscapeReads(s[1..], ascii);
      EscapeFirst(s, ascii);
      CharReads(s[0], ascii, Escape(s[1..], ascii));
      ReadFirst(EscapeChar(s[0], ascii), Escape(s[1..], ascii), s[0] as int);
      assert Codes(s) == [s[0] as int] + Codes(s[1..]);
    }
  }

  lemma EmptyReads(ascii: bool)
    ensures Read(Escape("", ascii)) == []
  {}

  lemma ReadFirst(e: string, rest: string, n: int)
    requires e != "" && ReadChar(e + rest) == (n, |e|) && (e + rest)[|e|..] == rest
    ensures Read(e + rest) == [n] + Read(rest)
  {
    hide ReadChar;
  }

  /** In the ASCII form every character is printable ASCII; in the other form only what JSON requires is escaped. */
  lemma {:induction false} EscapeForm(s: string)
    ensures forall c :: c in Escape(s, true) ==> ' ' <= c <= '~'
    ensures (forall c :: c in s ==> c >= ' ' && c != '"' && c != '\\') ==> Escape(s, false) == s
  {
    if s != "" {
      var front, last := s[..|s| - 1], s[|s| - 1];
      assert s == front + [last];
      EscapeForm(front);
      CharForm(last);
      hide EscapeChar;
      assert last in s && forall c :: c in front ==> c in s;
    }
  }

  lemma CharForm(c: char)
    ensures forall d :: d in EscapeChar(c, true) ==> ' ' <= d <= '~'
    ensures c >= ' ' && c != '"' && c != '\\' ==> EscapeChar(c, false) == [c]
  {
    var n := c as int;
    EscapeCases(c, true);
    EscapeCases(c, false);
    hide EscapeChar, High, Low, Unit;
    UnitForm(n);
    if n >= 0x10000 {
      UnitForm(High(n));
      UnitForm(Low(n));
    }
  }

  lemma UnitForm(n: nat)
    ensures forall d :: d in Unit(n) ==> ' ' <= d <= '~'
  {
    DigitForm(n / 4096 % 16);
    DigitForm(n / 256 % 16);
    DigitForm(n / 16 % 16);
    DigitForm(n % 16);
  }

  lemma DigitForm(k: nat)
    requires k < 16
    ensures ' ' <= HEX[k] <= '~'
  {}

  /** The needles are the non-empty secrets and their two escaped forms. */
  lemma NeedlesExactly(secrets: set<string>, t: string)
    ensures t in NeedleSet(secrets) <==> exists s :: s in secrets && s != "" && (t == s || t == Escape(s, true) || t == Escape(s, false))
  {}

  // ---------------------------------------------------------------- records

  /** The needle is found when its turn comes. */
  ghost predicate Found(s: string, needles: seq<string>, i: nat)
    requires "" !in needles && i < |needles|
  {
    Contains(RedactString(s, needles[..i]), needles[i])
  }

  ghost function FoundOf(s: string, needles: seq<string>, k: nat): set<nat>
    requires "" !in needles && k <= |needles|
  {
    set i: nat | i < k && Found(s, needles, i)
  }

  ghost predicate Holds(s: string, needles: seq<string>) { exists t :: t in needles && Contains(s, t) }

  /** A text is recorded once for every needle found in its turn, with its own path; so it is recorded exactly when
      it holds a needle. */
  lemma MarksExactly(s: string, needles: seq<string>, path: Path)
    requires "" !in needles
    ensures (forall m :: m in Marks(s, needles, path) ==> m == path) && |Marks(s, needles, path)| == |FoundOf(s, needles, |needles|)|
    ensures Marks(s, needles, path) == [] <==> !Holds(s, needles)
  {
    assert needles[..|needles|] == needles;
    MarksUpTo(s, needles, path, |needles|);
  }

  lemma {:induction false} MarksUpTo(s: string, needles: seq<string>, path: Path, k: nat)
    requires "" !in needles && k <= |needles|
    ensures "" !in needles[..k]
    ensures forall m :: m in Marks(s, needles[..k], path) ==> m == path
    ensures |Marks(s, needles[..k], path)| == |FoundOf(s, needles, k)|
    ensures Marks(s, needles[..k], path) == [] <==> !Holds(s, needles[..k])
  {
    hide Contains;
    if k > 0 {
      MarksUpTo(s, needles, path, k - 1);
      var before, last := needles[..k - 1], needles[k - 1];
      assert needles[..k][..k - 1] == before && needles[..k] == before + [last];
      FoundNext(s, needles, k - 1);
      HoldsNext(s, before, last);
      hide FoundOf, Holds, RedactString;
      if !Holds(s, before) { NothingReplaced(s, before); }
    }
  }

  lemma FoundNext(s: string, needles: seq<string>, k: nat)
    requires "" !in needles && k < |needles|
    ensures |FoundOf(s, needles, k + 1)| == |FoundOf(s, needles, k)| + if Found(s, needles, k) then 1 else 0
  {
    hide Found;
    assert FoundOf(s, needles, k + 1) == FoundOf(s, needles, k) + if Found(s, needles, k) then {k} else {};
  }

  lemma HoldsNext(s: string, before: seq<string>, last: string)
    ensures Holds(s, before + [last]) <==> Holds(s, before) || Contains(s, last)
  {
    hide Contains;
    if t :| t in before && Contains(s, t) { assert t in before + [last]; }
    assert last in before + [last];
  }

  lemma NothingReplaced(s: string, needles: seq<string>)
    requires "" !in needles && !Holds(s, needles)
    ensures RedactString(s, needles) == s
  {
    hide Contains;
    CleanUnchanged(s, needles);
  }

  /** A text at this path below the value holds a needle. */
  ghost predicate HoldsAt(j: Json, needles: seq<string>, q: Path)
    decreases |q|
  {
    if q == [] then j.Str? && Holds(j.s, needles)
    else exists c :: RedactionMeaning.Child(j, q[0], c) && HoldsAt(c, needles, q[1..])
  }

  ghost predicate AtOrBelow(base: Path, p: Path) { p == base || RedactionMeaning.Below(base, p) }

  lemma {:induction false} ItemMarks(items: seq<Json>, needles: seq<string>, base: Path, k: nat, p: Path)
    requires "" !in needles && k <= |items|
    ensures p in MarksOfItems(items, needles, base, k) <==> exists i: nat :: i < k && p in MarksOfTree(items[i], needles, base + [Index(i)])
  {
    hide MarksOfTree;
    if k > 0 { ItemMarks(items, needles, base, k - 1, p); }
  }

  lemma {:induction false} FieldMarks(fields: seq<(string, Json)>, needles: seq<string>, base: Path, k: nat, p: Path)
    requires "" !in needles && k <= |fields|
    ensures p in MarksOfFields(fields, needles, base, k) <==>
            exists i: nat :: i < k && p in MarksOfTree(fields[i].1, needles, base + [Key(fields[i].0)])
  {
    hide MarksOfTree;
    if k > 0 { FieldMarks(fields, needles, base, k - 1, p); }
  }

  /** The recorded paths are exactly those of the texts that hold a needle. */
  lemma {:induction false} MarkedExactly(j: Json, needles: seq<string>, base: Path, p: Path)
    requires "" !in needles
    ensures p in MarksOfTree(j, needles, base) <==> AtOrBelow(base, p) && HoldsAt(j, needles, p[|base|..])
    decreases j, 1
  {
    match j
    case Str(s) =>
      MarksExactly(s, needles, base);
      hide Marks, Holds;
      if Marks(s, needles, base) != [] { assert Marks(s, needles, base)[0] in Marks(s, needles, base); }
      assert p == base ==> p[|base|..] == [];
    case Arr(items) =>
      ItemMarks(items, needles, base, |items|, p);
      forall i: nat | i < |items| { ChildMarked(items[i], Index(i), needles, base, p); }
      ItemsMarked(items, needles, base, p);
    case Obj(fields) =>
      FieldMarks(fields, needles, base, |fields|, p);
      forall i: nat | i < |fields| { ChildMarked(fields[i].1, Key(fields[i].0), needles, base, p); }
      MembersMarked(fields, needles, base, p);
    case _ =>
  }

  lemma {:induction false} ChildMarked(c: Json, step: PathStep, needles: seq<string>, base: Path, p: Path)
    requires "" !in needles
    ensures p in MarksOfTree(c, needles, base + [step]) <==> RedactionMeaning.Through(base, step, p) && HoldsAt(c, needles, p[|base| + 1..])
    decreases c, 2
  {
    MarkedExactly(c, needles, base + [step], p);
    RedactionMeaning.AtStep(base, step, p);
  }

  lemma ItemsMarked(items: seq<Json>, needles: seq<string>, base: Path, p: Path)
    requires "" !in needles
    ensures AtOrBelow(base, p) && HoldsAt(Arr(items), needles, p[|base|..]) <==>
            exists i: nat :: i < |items| && RedactionMeaning.Through(base, Index(i), p) && HoldsAt(items[i], needles, p[|base| + 1..])
  {
    if AtOrBelow(base, p) && HoldsAt(Arr(items), needles, p[|base|..]) {
      var q := p[|base|..];
      var c :| RedactionMeaning.Child(Arr(items), q[0], c) && HoldsAt(c, needles, q[1..]);
      assert q[1..] == p[|base| + 1..] && RedactionMeaning.Through(base, Index(q[0].i), p);
    }
    if i: nat :| i < |items| && RedactionMeaning.Through(base, Index(i), p) && HoldsAt(items[i], needles, p[|base| + 1..]) {
      assert p[|base|..][1..] == p[|base| + 1..];
      assert RedactionMeaning.Child(Arr(items), p[|base|..][0], items[i]);
    }
  }

  lemma MembersMarked(fields: seq<(string, Json)>, needles: seq<string>, base: Path, p: Path)
    requires "" !in needles
    ensures AtOrBelow(base, p) && HoldsAt(Obj(fields), needles, p[|base|..]) <==>
            exists i: nat :: i < |fields| && RedactionMeaning.Through(base, Key(fields[i].0), p) && HoldsAt(fields[i].1, needles, p[|base| + 1..])
  {
    if AtOrBelow(base, p) && HoldsAt(Obj(fields), needles, p[|base|..]) {
      var q := p[|base|..];
      var c :| RedactionMeaning.Child(Obj(fields), q[0], c) && HoldsAt(c, needles, q[1..]);
      var i: nat :| i < |fields| && fields[i] == (q[0].k, c);
      assert q[1..] == p[|base| + 1..];
    }
    if i: nat :| i < |fields| && RedactionMeaning.Through(base, Key(fields[i].0), p) && HoldsAt(fields[i].1, needles, p[|base| + 1..]) {
      assert (fields[i].0, fields[i].1) in fields;
      assert p[|base|..][1..] == p[|base| + 1..];
      assert RedactionMeaning.Child(Obj(fields), p[|base|..][0], fields[i].1);
    }
  }

  /** The event after the layer: each text with its needles replaced, and all else as it was. */
  ghost predicate Masks(j: Json, needles: seq<string>, out: Json)
    requires "" !in needles
    decreases j
  {
    match j
    case Str(s) => out == Str(RedactString(s, needles))
    case Arr(items) => out.Arr? && |out.items| == |items| && forall i :: 0 <= i < |items| ==> Masks(items[i], needles, out.items[i])
    case Obj(fields) =>
      && out.Obj? && |out.fields| == |fields|
      && forall i :: 0 <= i < |fields| ==> out.fields[i].0 == fields[i].0 && Masks(fields[i].1, needles, out.fields[i].1)
    case _ => out == j
  }

  lemma {:induction false} MaskExactly(j: Json, needles: seq<string>)
    requires "" !in needles
    ensures Masks(j, needles, RedactTree(j, needles))
  {
    hide RedactString;
    match j
    case Arr(items) => forall i | 0 <= i < |items| { MaskExactly(items[i], needles); }
    case Obj(fields) => forall i | 0 <= i < |fields| { MaskExactly(fields[i].1, needles); }
    case _ =>
  }

  // ---------------------------------------------------------------- the audit

  /** The layer makes this record for this event. */
  ghost predicate Made(layer: RedactionPipeline.Layer, event: Json, rule: string, p: Path)
    requires RedactionPipeline.Runnable(layer)
  {
    match layer
    case Denylist(deny) => RedactionMeaning.Denial(event, deny, p, rule)
    case VaultTagged =>
      || (rule == "vault:tagged-value" && RedactionMeaning.Fires(event, p, SecretMarkers.TaggedValue))
      || (rule == "vault:ansible-vault-inline" && RedactionMeaning.Fires(event, p, SecretMarkers.InlineVault))
    case Tainted(needles) => rule == "tainted_string:known-secret" && HoldsAt(event, needles, p)
  }

  /** The event that the i-th layer is given. */
  ghost function Given(event: Json, layers: seq<RedactionPipeline.Layer>, i: nat): Json
    requires i <= |layers| && forall k :: 0 <= k < |layers| ==> RedactionPipeline.Runnable(layers[k])
  {
    RedactionPipeline.Pipeline(event, layers, i).0
  }

  lemma RecordsExactly(layer: RedactionPipeline.Layer, event: Json, rule: string, p: Path)
    requires RedactionPipeline.Runnable(layer) && SecretMeaning.Proper(event)
    ensures (rule, p) in RedactionPipeline.Apply(layer, event).1 <==> Made(layer, event, rule, p)
  {
    assert p[0..] == p && AtOrBelow([], p) && (p != [] ==> RedactionMeaning.Below([], p));
    match layer
    case Denylist(deny) => RedactionMeaning.DenialsExactly(event, deny, [], rule, p);
    case VaultTagged =>
      RedactionMeaning.FiredExactly(event, [], SecretMarkers.TaggedValue, p);
      RedactionMeaning.FiredExactly(event, [], SecretMarkers.InlineVault, p);
      VaultRecords(event, rule, p);
    case Tainted(needles) =>
      MarkedExactly(event, needles, [], p);
      KnownRecords(event, needles, rule, p);
  }

  lemma VaultRecords(event: Json, rule: string, p: Path)
    ensures (rule, p) in RedactionPipeline.Apply(RedactionPipeline.VaultTagged, event).1 <==>
            || (rule == "vault:tagged-value" && (SecretMarkers.TaggedValue, p) in SecretMarkers.Fired(event, []))
            || (rule == "vault:ansible-vault-inline" && (SecretMarkers.InlineVault, p) in SecretMarkers.Fired(event, []))
  {
    var fired, made := SecretMarkers.Fired(event, []), RedactionPipeline.Apply(RedactionPipeline.VaultTagged, event).1;
    assert |made| == |fired| && forall i :: 0 <= i < |fired| ==> made[i] == (RedactionPipeline.VaultRule(fired[i].0), fired[i].1);
    hide RedactionPipeline.Apply, SecretMarkers.Fired;
    if (SecretMarkers.TaggedValue, p) in fired {
      var i :| 0 <= i < |fired| && fired[i] == (SecretMarkers.TaggedValue, p);
      assert made[i] in made;
    }
    if (SecretMarkers.InlineVault, p) in fired {
      var i :| 0 <= i < |fired| && fired[i] == (SecretMarkers.InlineVault, p);
      assert made[i] in made;
    }
  }

  lemma KnownRecords(event: Json, needles: seq<string>, rule: string, p: Path)
    requires "" !in needles
    ensures (rule, p) in RedactionPipeline.Apply(RedactionPipeline.Tainted(needles), event).1 <==>
            rule == "tainted_string:known-secret" && p in MarksOfTree(event, needles, [])
  {
    var paths, made := MarksOfTree(event, needles, []), RedactionPipeline.Apply(RedactionPipeline.Tainted(needles), event).1;
    assert |made| == |paths| && forall i :: 0 <= i < |paths| ==> made[i] == ("tainted_string:known-secret", paths[i]);
    hide RedactionPipeline.Apply, MarksOfTree;
    if p in paths {
      var i :| 0 <= i < |paths| && paths[i] == p;
      assert made[i] in made;
    }
  }

  /** Layers keep objects without repeated keys. */
  lemma {:induction false} GivenProper(event: Json, layers: seq<RedactionPipeline.Layer>, i: nat)
    requires i <= |layers| && (forall k :: 0 <= k < |layers| ==> RedactionPipeline.Runnable(layers[k])) && SecretMeaning.Proper(event)
    ensures SecretMeaning.Proper(Given(event, layers, i))
  {
    if i > 0 {
      GivenProper(event, layers, i - 1);
      AppliedProper(layers[i - 1], Given(event, layers, i - 1));
    }
  }

  lemma {:induction false} DeniedProper(j: Json, deny: string -> bool)
    requires SecretMeaning.Proper(j)
    ensures SecretMeaning.Proper(RedactionPipeline.Deny(j, deny))
  {
    hide RedactionPipeline.HidesValue;
    match j
    case Arr(items) => forall i | 0 <= i < |items| { DeniedProper(items[i], deny); }
    case Obj(fields) => forall i | 0 <= i < |fields| { DeniedProper(fields[i].1, deny); }
    case _ =>
  }

  lemma {:induction false} CleanedProper(j: Json)
    requires SecretMeaning.Proper(j)
    ensures SecretMeaning.Proper(SecretMarkers.Clean(j)) && SecretMeaning.Proper(SecretMarkers.CleanChild(j))
  {
    hide SecretMarkers.IsMarked, SecretMarkers.Hit;
    match j
    case Arr(items) => forall i | 0 <= i < |items| { CleanedProper(items[i]); }
    case Obj(fields) => forall i | 0 <= i < |fields| { CleanedProper(fields[i].1); }
    case _ =>
  }

  lemma {:induction false} MaskedProper(j: Json, needles: seq<string>)
    requires "" !in needles && SecretMeaning.Proper(j)
    ensures SecretMeaning.Proper(RedactTree(j, needles))
  {
    hide RedactString;
    match j
    case Arr(items) => forall i | 0 <= i < |items| { MaskedProper(items[i], needles); }
    case Obj(fields) => forall i | 0 <= i < |fields| { MaskedProper(fields[i].1, needles); }
    case _ =>
  }

  lemma AppliedProper(layer: RedactionPipeline.Layer, event: Json)
    requires RedactionPipeline.Runnable(layer) && SecretMeaning.Proper(event)
    ensures SecretMeaning.Proper(RedactionPipeline.Apply(layer, event).0)
  {
    match layer
    case Denylist(deny) => DeniedProper(event, deny);
    case VaultTagged => CleanedProper(event);
    case Tainted(needles) => MaskedProper(event, needles);
  }

  /** The audit holds exactly the records that the layers make, each with the number of its layer. */
  lemma {:induction false} AuditExactly(event: Json, layers: seq<RedactionPipeline.Layer>, k: nat, row: RedactionPipeline.AuditRow)
    requires k <= |layers| && (forall i :: 0 <= i < |layers| ==> RedactionPipeline.Runnable(layers[i])) && SecretMeaning.Proper(event)
    ensures row in RedactionPipeline.Pipeline(event, layers, k).1 <==>
            row.layer < k && Made(layers[row.layer], Given(event, layers, row.layer), row.rule, row.path)
  {
    hide RedactionPipeline.Apply, RedactionPipeline.Runnable, RedactionPipeline.Pipeline, Given, Made, SecretMeaning.Proper;
    if k == 0 {
      NoAudit(event, layers);
    } else {
      AuditExactly(event, layers, k - 1, row);
      AuditNext(event, layers, k - 1, row);
    }
  }

  lemma NoAudit(event: Json, layers: seq<RedactionPipeline.Layer>)
    requires forall i :: 0 <= i < |layers| ==> RedactionPipeline.Runnable(layers[i])
    ensures RedactionPipeline.Pipeline(event, layers, 0).1 == []
  {}

  lemma AuditNext(event: Json, layers: seq<RedactionPipeline.Layer>, k: nat, row: RedactionPipeline.AuditRow)
    requires k < |layers| && (forall i :: 0 <= i < |layers| ==> RedactionPipeline.Runnable(layers[i])) && SecretMeaning.Proper(event)
    ensures row in RedactionPipeline.Pipeline(event, layers, k + 1).1 <==>
            || row in RedactionPipeline.Pipeline(event, layers, k).1
            || (row.layer == k && Made(layers[k], Given(event, layers, k), row.rule, row.path))
  {
    hide RedactionPipeline.Apply, RedactionPipeline.Rows, Made, SecretMeaning.Proper, RedactionPipeline.Runnable;
    GivenProper(event, layers, k);
    RecordsExactly(layers[k], Given(event, layers, k), row.rule, row.path);
    RowsExactly(k, RedactionPipeline.Apply(layers[k], Given(event, layers, k)).1, row);
  }

  lemma RowsExactly(layer: nat, marks: seq<RedactionPipeline.Mark>, row: RedactionPipeline.AuditRow)
    ensures row in RedactionPipeline.Rows(layer, marks) <==> row.layer == layer && (row.rule, row.path) in marks
  {
    var rows := RedactionPipeline.Rows(layer, marks);
    if (row.rule, row.path) in marks {
      var i :| 0 <= i < |marks| && marks[i] == (row.rule, row.path);
      assert rows[i] in rows;
    }
  }

  /** As many rows as there are records. */
  lemma {:induction false} AuditCount(event: Json, layers: seq<RedactionPipeline.Layer>, k: nat)
    requires 0 < k <= |layers| && forall i :: 0 <= i < |layers| ==> RedactionPipeline.Runnable(layers[i])
    ensures |RedactionPipeline.Pipeline(event, layers, k).1| ==
            |RedactionPipeline.Pipeline(event, layers, k - 1).1| + |RedactionPipeline.Apply(layers[k - 1], Given(event, layers, k - 1)).1|
  {
    hide RedactionPipeline.Apply;
  }
}
