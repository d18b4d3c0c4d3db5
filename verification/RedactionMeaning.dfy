/** What the two exact layers do to an event, told from its members: which values the vault layer and the denylist
    replace, what they leave alone, and which records they make, each once. */
module RedactionMeaning {
  import opened Wrappers
  import opened Json
  import opened SecretMarkers
  import opened SecretMeaning
  import RedactionPipeline

  /** One step down: a member under its key, or an item at its place. */
  ghost predicate Child(j: Json, step: PathStep, c: Json) {
    match step
    case Key(k) => j.Obj? && (k, c) in j.fields
    case Index(i) => j.Arr? && i < |j.items| && j.items[i] == c
  }

  lemma OnlyChild(j: Json, step: PathStep, a: Json, b: Json)
    requires Proper(j) && Child(j, step, a) && Child(j, step, b)
    ensures a == b
  {
    if step.Key? {
      var i :| 0 <= i < |j.fields| && j.fields[i] == (step.k, a);
      var k :| 0 <= k < |j.fields| && j.fields[k] == (step.k, b);
      SameMember(j.fields, i, k);
    }
  }

  ghost predicate Below(base: Path, p: Path) { |base| < |p| && p[..|base|] == base }

  ghost predicate Through(base: Path, step: PathStep, p: Path) { Below(base, p) && p[|base|] == step }

  /** A path through a child is the child's own path or leads below it. */
  lemma AtStep(base: Path, step: PathStep, p: Path)
    ensures Through(base, step, p) <==> p == base + [step] || Below(base + [step], p)
    ensures Below(base + [step], p) ==> p[|base| + 1..] == p[|base|..][1..]
  {
    var at := base + [step];
    if Through(base, step, p) {
      assert p[..|at|] == p[..|base|] + [step];
      if |p| == |at| { assert p == p[..|at|]; }
    }
    if Below(at, p) { assert p[..|at|][..|base|] == p[..|base|] && p[..|at|][|base|] == p[|base|]; }
  }

  // ---------------------------------------------------------------- the vault layer

  /** Text that starts, behind white space, with the inline tag. */
  ghost predicate InlineText(s: string) { exists n: nat :: n <= |s| && InlineAt(s, n) }

  ghost predicate InlineAt(s: string, n: nat)
    requires n <= |s|
  {
    AllBlank(s[..n]) && "!vault" <= s[n..]
  }

  ghost predicate AllBlank(s: string) { forall i :: 0 <= i < |s| ==> Blank(s[i]) }

  ghost predicate Tagged(j: Json) { j.Obj? && ("__range42_vault_origin__", Bool(true)) in j.fields }

  ghost predicate Inline(j: Json) { j.Str? && InlineText(j.s) }

  lemma VaultStart(s: string, n: nat)
    requires n <= |s|
    ensures "!vault" <= s[n..] ==> n < |s| && s[n] == '!' && !Blank(s[n])
    ensures AllBlank(s[..n]) && n > 0 ==> Blank(s[0])
  {
    if "!vault" <= s[n..] { assert s[n..][0] == "!vault"[0]; }
    if AllBlank(s[..n]) && n > 0 { assert s[..n][0] == s[0]; }
  }

  lemma BlankMore(s: string, n: nat)
    requires 0 < n <= |s| && Blank(s[0])
    ensures AllBlank(s[..n]) <==> AllBlank(s[1..][..n - 1])
    ensures s[n..] == s[1..][n - 1..]
  {
    assert s[..n] == [s[0]] + s[1..][..n - 1];
    assert forall i :: 0 < i < n ==> s[..n][i] == s[1..][..n - 1][i - 1];
  }

  lemma {:induction false} StripExactly(s: string)
    ensures "!vault" <= LStrip(s) <==> InlineText(s)
  {
    hide Blank;
    if s != "" && Blank(s[0]) {
      StripExactly(s[1..]);
      forall n: nat | n <= |s| ensures InlineAt(s, n) <==> 0 < n && InlineAt(s[1..], n - 1) {
        VaultStart(s, n);
        if n > 0 { BlankMore(s, n); }
      }
      if n: nat :| n <= |s[1..]| && InlineAt(s[1..], n) { assert InlineAt(s, n + 1); }
    } else {
      assert s[0..] == s && AllBlank(s[..0]);
      forall n: nat | n <= |s| ensures InlineAt(s, n) <==> n == 0 && "!vault" <= s { VaultStart(s, n); }
      assert InlineAt(s, 0) <==> "!vault" <= s;
    }
  }

  lemma {:induction false} FirstExactly(fields: Fields, key: string, v: Json)
    requires OneEach(fields)
    ensures FirstValue(fields, key) == Some(v) <==> (key, v) in fields
    ensures FirstValue(fields, key).None? <==> !Holds(fields, key)
  {
    if fields != [] {
      forall i, k | 0 <= i < k < |fields[1..]| ensures fields[1..][i].0 != fields[1..][k].0 { assert fields[i + 1].0 != fields[k + 1].0; }
      FirstExactly(fields[1..], key, v);
      if (key, v) in fields[1..] {
        var k :| 0 < k < |fields| && fields[k] == (key, v);
        assert fields[0].0 != fields[k].0;
      }
    }
  }

  lemma HitExactly(j: Json)
    requires Proper(j)
    ensures Hit(j) == Some(TaggedValue) <==> Tagged(j)
    ensures Hit(j) == Some(InlineVault) <==> Inline(j)
    ensures IsMarked(j) <==> Tagged(j)
  {
    if j.Obj? { FirstExactly(j.fields, MARKER, Bool(true)); }
    if j.Str? { StripExactly(j.s); }
  }

  ghost predicate Replaced(j: Json) { Tagged(j) || Inline(j) }

  /** The event after the layer: below the root a tagged value or inline text becomes the fixed string, and all else
      keeps its shape, keys and values; a tagged root is left as it is. */
  ghost predicate Cleans(j: Json, out: Json)
    decreases j, 0
  {
    match j
    case Arr(items) => out.Arr? && |out.items| == |items| && forall i :: 0 <= i < |items| ==> CleansTo(items[i], out.items[i])
    case Obj(fields) =>
      if Tagged(j) then out == j else
      && out.Obj? && |out.fields| == |fields|
      && forall i :: 0 <= i < |fields| ==> out.fields[i].0 == fields[i].0 && CleansTo(fields[i].1, out.fields[i].1)
    case _ => out == j
  }

  ghost predicate CleansTo(j: Json, out: Json)
    decreases j, 1
  {
    if Replaced(j) then out == Str("[REDACTED:vault_tagged]") else Cleans(j, out)
  }

  lemma {:induction false} CleanExactly(j: Json)
    requires Proper(j)
    ensures Cleans(j, Clean(j)) && CleansTo(j, CleanChild(j))
  {
    HitExactly(j);
    hide Hit, IsMarked, Replaced, Tagged, Inline, OneEach;
    match j
    case Arr(items) => forall i | 0 <= i < |items| { CleanExactly(items[i]); }
    case Obj(fields) => forall i | 0 <= i < |fields| { CleanExactly(fields[i].1); }
    case _ =>
  }

  /** Nothing tagged and no inline text below the root. */
  ghost predicate NoneReplaced(j: Json)
    decreases j
  {
    match j
    case Arr(items) => forall i :: 0 <= i < |items| ==> !Replaced(items[i]) && NoneReplaced(items[i])
    case Obj(fields) => forall i :: 0 <= i < |fields| ==> !Replaced(fields[i].1) && NoneReplaced(fields[i].1)
    case _ => true
  }

  lemma PlainString()
    ensures !Replaced(Str("[REDACTED:vault_tagged]"))
  {
    StripExactly("[REDACTED:vault_tagged]");
    assert "[REDACTED:vault_tagged]"[0] == '[';
    VaultStart("[REDACTED:vault_tagged]", 0);
  }

  lemma SameScalar(j: Json, out: Json)
    requires Cleans(j, out) && out.Bool?
    ensures j == out
  {}

  /** A value that was not replaced is not tagged afterwards either. */
  lemma StillPlain(j: Json, out: Json)
    requires Cleans(j, out) && Proper(j) && !Replaced(j)
    ensures !Replaced(out)
  {
    if j.Obj? && Tagged(out) {
      var k :| 0 <= k < |out.fields| && out.fields[k] == ("__range42_vault_origin__", Bool(true));
      assert CleansTo(j.fields[k].1, Bool(true));
      SameScalar(j.fields[k].1, Bool(true));
    }
  }

  /** Whatever comes out of the layer holds nothing it would replace, unless its root is tagged. */
  lemma {:induction false} CleansHoldsNone(j: Json, out: Json)
    requires Cleans(j, out) && Proper(j) && !Tagged(j)
    ensures NoneReplaced(out)
    decreases j, 0
  {
    match j
    case Arr(items) =>
      forall i | 0 <= i < |items| ensures !Replaced(out.items[i]) && NoneReplaced(out.items[i]) { ChildHoldsNone(items[i], out.items[i]); }
    case Obj(fields) =>
      forall i | 0 <= i < |fields| ensures !Replaced(out.fields[i].1) && NoneReplaced(out.fields[i].1) { ChildHoldsNone(fields[i].1, out.fields[i].1); }
    case _ =>
  }

  lemma {:induction false} ChildHoldsNone(j: Json, out: Json)
    requires CleansTo(j, out) && Proper(j)
    ensures !Replaced(out) && NoneReplaced(out)
    decreases j, 1
  {
    if Replaced(j) {
      PlainString();
    } else {
      StillPlain(j, out);
      CleansHoldsNone(j, out);
    }
  }

  /** The rule fires at this path: it leads, through nothing that is replaced itself, to such a value below the root. */
  ghost predicate Fires(j: Json, q: Path, rule: Rule)
    decreases |q|
  {
    && !Tagged(j) && q != []
    && exists c :: Child(j, q[0], c) && if |q| == 1 then Means(rule, c) else Fires(c, q[1..], rule)
  }

  ghost predicate Means(rule: Rule, j: Json) {
    match rule case TaggedValue => Tagged(j) case InlineVault => Inline(j)
  }

  /** The child at the step fires, itself or below. */
  ghost predicate ChildFires(c: Json, q: Path, rule: Rule) { if q == [] then Means(rule, c) else Fires(c, q, rule) }

  lemma {:induction false} ItemsMembers(items: seq<Json>, path: Path, k: nat, m: (Rule, Path))
    requires k <= |items|
    ensures m in FiredItems(items, path, k) <==> exists i: nat :: i < k && m in FiredChild(items[i], path + [Index(i)])
  {
    hide FiredChild;
    if k > 0 { ItemsMembers(items, path, k - 1, m); }
  }

  lemma {:induction false} FieldsMembers(fields: Fields, path: Path, k: nat, m: (Rule, Path))
    requires k <= |fields|
    ensures m in FiredFields(fields, path, k) <==> exists i: nat :: i < k && m in FiredChild(fields[i].1, path + [Key(fields[i].0)])
  {
    hide FiredChild;
    if k > 0 { FieldsMembers(fields, path, k - 1, m); }
  }

  lemma FiresStep(j: Json, q: Path, rule: Rule)
    requires q != []
    ensures Fires(j, q, rule) <==> !Tagged(j) && exists c :: Child(j, q[0], c) && ChildFires(c, q[1..], rule)
  {
    hide Tagged, Child, Means;
    if Fires(j, q, rule) {
      var c :| Child(j, q[0], c) && if |q| == 1 then Means(rule, c) else Fires(c, q[1..], rule);
      assert ChildFires(c, q[1..], rule);
    }
  }

  /** The records are exactly the rules that fire, each with the path where it does. */
  lemma {:induction false} FiredExactly(j: Json, base: Path, rule: Rule, p: Path)
    requires Proper(j)
    ensures (rule, p) in Fired(j, base) <==> Below(base, p) && Fires(j, p[|base|..], rule)
    decreases j, 1
  {
    HitExactly(j);
    match j
    case Arr(items) =>
      ItemsMembers(items, base, |items|, (rule, p));
      forall i: nat | i < |items| { ChildFired(items[i], base, Index(i), rule, p); }
      hide FiredItems, FiredChild, Fires, ChildFires, Hit, IsMarked, Tagged, Proper;
      if Below(base, p) { FiresStep(j, p[|base|..], rule); }
      if exists i: nat :: i < |items| && (rule, p) in FiredChild(items[i], base + [Index(i)]) {
        var i: nat :| i < |items| && (rule, p) in FiredChild(items[i], base + [Index(i)]);
        assert Child(j, p[|base|..][0], items[i]);
      }
    case Obj(fields) =>
      FieldsMembers(fields, base, |fields|, (rule, p));
      forall i: nat | i < |fields| { ChildFired(fields[i].1, base, Key(fields[i].0), rule, p); }
      hide FiredFields, FiredChild, Fires, ChildFires, Hit, IsMarked, Tagged, Proper;
      if Below(base, p) { FiresStep(j, p[|base|..], rule); }
      if exists i: nat :: i < |fields| && (rule, p) in FiredChild(fields[i].1, base + [Key(fields[i].0)]) {
        var i: nat :| i < |fields| && (rule, p) in FiredChild(fields[i].1, base + [Key(fields[i].0)]);
        assert fields[i] in fields;
        assert Child(j, p[|base|..][0], fields[i].1);
      }
    case _ =>
  }

  lemma ReplacedStops(c: Json, q: Path, rule: Rule)
    requires Proper(c) && Hit(c).Some?
    ensures !Fires(c, q, rule)
  {
    HitExactly(c);
  }

  /** One child: it fires at its own path, or below it. */
  lemma {:induction false} ChildFired(c: Json, base: Path, step: PathStep, rule: Rule, p: Path)
    requires Proper(c)
    ensures (rule, p) in FiredChild(c, base + [step]) <==> Below(base, p) && p[|base|] == step && ChildFires(c, p[|base| + 1..], rule)
    decreases c, 2
  {
    HitExactly(c);
    var at := base + [step];
    FiredExactly(c, at, rule, p);
    AtStep(base, step, p);
    hide Hit, Fired, IsMarked, Proper, Tagged, Inline;
    if Hit(c).Some? && Below(at, p) { ReplacedStops(c, p[|at|..], rule); }
  }

  ghost predicate Once<T>(marks: seq<T>) { forall i, k :: 0 <= i < k < |marks| ==> marks[i] != marks[k] }

  lemma OnceApart<T>(a: seq<T>, b: seq<T>)
    requires Once(a) && Once(b) && forall m :: m in a ==> m !in b
    ensures Once(a + b)
  {
    forall i, k | 0 <= i < k < |a + b| ensures (a + b)[i] != (a + b)[k] {
      if i < |a| <= k { assert a[i] in a && b[k - |a|] in b; }
    }
  }

  /** Every record of a child carries the child's path. */
  lemma ChildPaths(c: Json, base: Path, step: PathStep, m: (Rule, Path))
    requires Proper(c) && m in FiredChild(c, base + [step])
    ensures Below(base, m.1) && m.1[|base|] == step
  {
    ChildFired(c, base, step, m.0, m.1);
  }

  /** No record is made twice. */
  lemma {:induction false} FiredOnce(j: Json, base: Path)
    requires Proper(j)
    ensures Once(Fired(j, base)) && Once(FiredChild(j, base))
    decreases j, 1
  {
    match j
    case Arr(items) => ItemsOnce(items, base, |items|);
    case Obj(fields) => FieldsOnce(fields, base, |fields|);
    case _ =>
  }

  lemma {:induction false} ItemsOnce(items: seq<Json>, base: Path, k: nat)
    requires Proper(Arr(items)) && k <= |items|
    ensures Once(FiredItems(items, base, k))
    decreases Arr(items), 0, k
  {
    if k > 0 {
      ItemsOnce(items, base, k - 1);
      FiredOnce(items[k - 1], base + [Index(k - 1)]);
      var before, now := FiredItems(items, base, k - 1), FiredChild(items[k - 1], base + [Index(k - 1)]);
      forall m | m in before ensures m !in now {
        ItemsMembers(items, base, k - 1, m);
        var i: nat :| i < k - 1 && m in FiredChild(items[i], base + [Index(i)]);
        ChildPaths(items[i], base, Index(i), m);
        if m in now { ChildPaths(items[k - 1], base, Index(k - 1), m); }
      }
      OnceApart(before, now);
    }
  }

  lemma {:induction false} FieldsOnce(fields: Fields, base: Path, k: nat)
    requires Proper(Obj(fields)) && k <= |fields|
    ensures Once(FiredFields(fields, base, k))
    decreases Obj(fields), 0, k
  {
    if k > 0 {
      FieldsOnce(fields, base, k - 1);
      FiredOnce(fields[k - 1].1, base + [Key(fields[k - 1].0)]);
      var before, now := FiredFields(fields, base, k - 1), FiredChild(fields[k - 1].1, base + [Key(fields[k - 1].0)]);
      forall m | m in before ensures m !in now {
        FieldsMembers(fields, base, k - 1, m);
        var i: nat :| i < k - 1 && m in FiredChild(fields[i].1, base + [Key(fields[i].0)]);
        ChildPaths(fields[i].1, base, Key(fields[i].0), m);
        if m in now { ChildPaths(fields[k - 1].1, base, Key(fields[k - 1].0), m); }
      }
      OnceApart(before, now);
    }
  }

  // ---------------------------------------------------------------- the denylist

  /** The environment shape: marked as secret, with a value. */
  ghost predicate HiddenValue(fields: Fields) { ("secret", Bool(true)) in fields && Holds(fields, "value") }

  /** The event after the denylist: a hidden value and a scalar under a denied key become the fixed string; lists and
      objects are walked whatever their key, and every other value is left as it is. */
  ghost predicate Denies(j: Json, deny: string -> bool, out: Json)
    decreases j
  {
    match j
    case Arr(items) => out.Arr? && |out.items| == |items| && forall i :: 0 <= i < |items| ==> Denies(items[i], deny, out.items[i])
    case Obj(fields) =>
      && out.Obj? && |out.fields| == |fields|
      && forall i :: 0 <= i < |fields| ==>
           && out.fields[i].0 == fields[i].0
           && if fields[i].0 == "value" && HiddenValue(fields) then out.fields[i].1 == Str("[REDACTED:config_denylist]")
              else if fields[i].1.Arr? || fields[i].1.Obj? then Denies(fields[i].1, deny, out.fields[i].1)
              else out.fields[i].1 == if deny(fields[i].0) then Str("[REDACTED:config_denylist]") else fields[i].1
    case _ => out == j
  }

  lemma HiddenExactly(fields: Fields)
    requires OneEach(fields)
    ensures RedactionPipeline.HidesValue(fields) <==> HiddenValue(fields)
  {
    FirstExactly(fields, "secret", Bool(true));
    FirstExactly(fields, "value", Null);
  }

  lemma {:induction false} DenyExactly(j: Json, deny: string -> bool)
    requires Proper(j)
    ensures Denies(j, deny, RedactionPipeline.Deny(j, deny))
  {
    match j
    case Arr(items) => forall i | 0 <= i < |items| { DenyExactly(items[i], deny); }
    case Obj(fields) =>
      HiddenExactly(fields);
      forall i | 0 <= i < |fields| { DenyExactly(fields[i].1, deny); }
      hide HiddenValue, RedactionPipeline.HidesValue, OneEach;
      DeniedFields(fields, deny);
    case _ =>
  }

  lemma DeniedFields(fields: Fields, deny: string -> bool)
    requires RedactionPipeline.HidesValue(fields) <==> HiddenValue(fields)
    requires forall i :: 0 <= i < |fields| ==> Denies(fields[i].1, deny, RedactionPipeline.Deny(fields[i].1, deny))
    ensures Denies(Obj(fields), deny, RedactionPipeline.Deny(Obj(fields), deny))
  {
    hide HiddenValue, RedactionPipeline.HidesValue;
    var out := RedactionPipeline.Deny(Obj(fields), deny);
    forall i | 0 <= i < |fields| ensures out.fields[i] == RedactionPipeline.DenyField(fields, deny, i) {}
    hide RedactionPipeline.Deny;
  }

  /** The record is made for this member itself: for a hidden value, and under its key for a denied one. */
  ghost predicate Records(fields: Fields, f: (string, Json), deny: string -> bool, rule: string) {
    var hidden := f.0 == "value" && HiddenValue(fields);
    || (rule == "denylist:env.secret-true" && hidden)
    || (rule == "denylist:" + f.0 && deny(f.0) && (hidden || !(f.1.Arr? || f.1.Obj?)))
  }

  /** The record is made at this path: it leads to a member with that record, through no hidden value. */
  ghost predicate Denial(j: Json, deny: string -> bool, q: Path, rule: string)
    decreases |q|
  {
    && q != []
    && match q[0]
       case Key(k) =>
         j.Obj? && exists c :: (k, c) in j.fields && (if |q| == 1 then Records(j.fields, (k, c), deny, rule)
                                                   else !(k == "value" && HiddenValue(j.fields)) && Denial(c, deny, q[1..], rule))
       case Index(i) => j.Arr? && i < |j.items| && Denial(j.items[i], deny, q[1..], rule)
  }

  /** What is recorded for this member: at its own path, or below it. */
  ghost predicate FieldDenial(fields: Fields, f: (string, Json), deny: string -> bool, q: Path, rule: string) {
    if q == [] then Records(fields, f, deny, rule)
    else !(f.0 == "value" && HiddenValue(fields)) && Denial(f.1, deny, q, rule)
  }

  lemma {:induction false} DenialsMembers(items: seq<Json>, deny: string -> bool, path: Path, k: nat, m: RedactionPipeline.Mark)
    requires k <= |items|
    ensures m in RedactionPipeline.DenialsOfItems(items, deny, path, k) <==>
            exists i: nat :: i < k && m in RedactionPipeline.Denials(items[i], deny, path + [Index(i)])
  {
    hide RedactionPipeline.Denials;
    if k > 0 { DenialsMembers(items, deny, path, k - 1, m); }
  }

  function FieldDenials(fields: Fields, deny: string -> bool, path: Path, i: nat): seq<RedactionPipeline.Mark>
    requires i < |fields|
  {
    RedactionPipeline.DenialsOfField(fields[i], RedactionPipeline.HidesValue(fields) && fields[i].0 == "value", deny, path)
  }

  lemma {:induction false} DenialsFields(fields: Fields, deny: string -> bool, path: Path, k: nat, m: RedactionPipeline.Mark)
    requires k <= |fields|
    ensures m in RedactionPipeline.DenialsOfFields(fields, deny, path, k) <==>
            exists i: nat :: i < k && m in FieldDenials(fields, deny, path, i)
  {
    hide RedactionPipeline.DenialsOfField, RedactionPipeline.HidesValue;
    if k > 0 {
      DenialsFields(fields, deny, path, k - 1, m);
      assert RedactionPipeline.DenialsOfFields(fields, deny, path, k)
          == RedactionPipeline.DenialsOfFields(fields, deny, path, k - 1) + FieldDenials(fields, deny, path, k - 1);
    }
  }

  /** The records are exactly those of hidden values and of denied keys, each with the path where it is made. */
  lemma {:induction false} DenialsExactly(j: Json, deny: string -> bool, base: Path, rule: string, p: Path)
    requires Proper(j)
    ensures (rule, p) in RedactionPipeline.Denials(j, deny, base) <==> Below(base, p) && Denial(j, deny, p[|base|..], rule)
    decreases j, 1
  {
    match j
    case Arr(items) =>
      DenialsMembers(items, deny, base, |items|, (rule, p));
      forall i: nat | i < |items| { ItemDenied(items[i], i, deny, base, rule, p); }
    case Obj(fields) => ObjectDenied(fields, deny, base, rule, p);
    case _ =>
  }

  lemma {:induction false} ItemDenied(c: Json, i: nat, deny: string -> bool, base: Path, rule: string, p: Path)
    requires Proper(c)
    ensures (rule, p) in RedactionPipeline.Denials(c, deny, base + [Index(i)]) <==>
            Through(base, Index(i), p) && Denial(c, deny, p[|base| + 1..], rule)
    decreases c, 2
  {
    DenialsExactly(c, deny, base + [Index(i)], rule, p);
    AtStep(base, Index(i), p);
    assert !Denial(c, deny, [], rule);
  }

  ghost predicate OwnRecord(fields: Fields, i: nat, base: Path, rule: string, p: Path)
    requires i < |fields|
  {
    (rule, p) == (RedactionPipeline.HIDDEN_RULE, base + [Key("value")]) && HiddenValue(fields) && fields[i].0 == "value"
  }

  lemma {:induction false} FieldDenied(fields: Fields, i: nat, deny: string -> bool, base: Path, rule: string, p: Path)
    requires Proper(Obj(fields)) && i < |fields|
    ensures (rule, p) in FieldDenials(fields, deny, base, i) || OwnRecord(fields, i, base, rule, p) <==>
            Through(base, Key(fields[i].0), p) && FieldDenial(fields, fields[i], deny, p[|base| + 1..], rule)
    decreases fields[i].1, 2
  {
    var f, at := fields[i], base + [Key(fields[i].0)];
    HiddenExactly(fields);
    DenialsExactly(f.1, deny, at, rule, p);
    AtStep(base, Key(f.0), p);
    hide RedactionPipeline.Denials, RedactionPipeline.HidesValue, HiddenValue, Proper, OneEach;
    if !RedactionPipeline.Container(f.1) && Below(at, p) { assert !Denial(f.1, deny, p[|at|..], rule); }
  }

  lemma DenialStep(fields: Fields, deny: string -> bool, q: Path, rule: string)
    requires q != []
    ensures Denial(Obj(fields), deny, q, rule) <==>
            exists i: nat :: i < |fields| && q[0] == Key(fields[i].0) && FieldDenial(fields, fields[i], deny, q[1..], rule)
  {
    hide HiddenValue, Records;
    if Denial(Obj(fields), deny, q, rule) {
      var k := q[0].k;
      var c :| (k, c) in fields && (if |q| == 1 then Records(fields, (k, c), deny, rule)
                                    else !(k == "value" && HiddenValue(fields)) && Denial(c, deny, q[1..], rule));
      var i: nat :| i < |fields| && fields[i] == (k, c);
      assert FieldDenial(fields, fields[i], deny, q[1..], rule);
    }
    if i: nat :| i < |fields| && q[0] == Key(fields[i].0) && FieldDenial(fields, fields[i], deny, q[1..], rule) {
      assert (fields[i].0, fields[i].1) in fields;
    }
  }

  lemma {:induction false} ObjectDenied(fields: Fields, deny: string -> bool, base: Path, rule: string, p: Path)
    requires Proper(Obj(fields))
    ensures (rule, p) in RedactionPipeline.Denials(Obj(fields), deny, base) <==>
            Below(base, p) && Denial(Obj(fields), deny, p[|base|..], rule)
    decreases Obj(fields), 0
  {
    HiddenExactly(fields);
    DenialsFields(fields, deny, base, |fields|, (rule, p));
    forall i: nat | i < |fields| { FieldDenied(fields, i, deny, base, rule, p); }
    if Below(base, p) { DenialStep(fields, deny, p[|base|..], rule); }
    hide RedactionPipeline.DenialsOfFields, RedactionPipeline.HidesValue, FieldDenial, FieldDenials, Denial, Proper, OneEach;
    var hidden := (rule, p) == (RedactionPipeline.HIDDEN_RULE, base + [Key("value")]) && HiddenValue(fields);
    assert (rule, p) in RedactionPipeline.Denials(Obj(fields), deny, base) <==>
           hidden || exists i: nat :: i < |fields| && (rule, p) in FieldDenials(fields, deny, base, i);
    if hidden {
      var i: nat :| i < |fields| && fields[i].0 == "value";
      assert OwnRecord(fields, i, base, rule, p);
    }
  }

  lemma DenialPath(fields: Fields, deny: string -> bool, base: Path, i: nat, m: RedactionPipeline.Mark)
    requires Proper(Obj(fields)) && i < |fields| && m in FieldDenials(fields, deny, base, i)
    ensures Through(base, Key(fields[i].0), m.1)
  {
    FieldDenied(fields, i, deny, base, m.0, m.1);
  }

  /** No record is made twice. */
  lemma {:induction false} DenialsOnce(j: Json, deny: string -> bool, base: Path)
    requires Proper(j)
    ensures Once(RedactionPipeline.Denials(j, deny, base))
    decreases j, 1
  {
    match j
    case Arr(items) => DenialItemsOnce(items, deny, base, |items|);
    case Obj(fields) =>
      DenialFieldsOnce(fields, deny, base, |fields|);
      if RedactionPipeline.HidesValue(fields) { HiddenOnce(fields, deny, base); }
      hide RedactionPipeline.DenialsOfFields, RedactionPipeline.HidesValue, Proper;
      var own := if RedactionPipeline.HidesValue(fields) then [(RedactionPipeline.HIDDEN_RULE, base + [Key("value")])] else [];
      OnceApart(own, RedactionPipeline.DenialsOfFields(fields, deny, base, |fields|));
    case _ =>
  }

  /** Only the object itself records a hidden value, and not its member. */
  lemma HiddenOnce(fields: Fields, deny: string -> bool, base: Path)
    requires Proper(Obj(fields)) && RedactionPipeline.HidesValue(fields)
    ensures (RedactionPipeline.HIDDEN_RULE, base + [Key("value")]) !in RedactionPipeline.DenialsOfFields(fields, deny, base, |fields|)
  {
    var m := (RedactionPipeline.HIDDEN_RULE, base + [Key("value")]);
    DenialsFields(fields, deny, base, |fields|, m);
    forall i: nat | i < |fields| ensures m !in FieldDenials(fields, deny, base, i) {
      if m in FieldDenials(fields, deny, base, i) {
        DenialPath(fields, deny, base, i, m);
        NotHiddenRule(fields[i].0);
      }
    }
  }

  lemma NotHiddenRule(key: string)
    ensures key == "value" ==> RedactionPipeline.KeyRule(key) != RedactionPipeline.HIDDEN_RULE
  {
    assert |RedactionPipeline.HIDDEN_RULE| == 24 && |"denylist:value"| == 14;
  }

  lemma {:induction false} DenialItemsOnce(items: seq<Json>, deny: string -> bool, base: Path, k: nat)
    requires Proper(Arr(items)) && k <= |items|
    ensures Once(RedactionPipeline.DenialsOfItems(items, deny, base, k))
    decreases Arr(items), 0, k
  {
    if k > 0 {
      DenialItemsOnce(items, deny, base, k - 1);
      DenialsOnce(items[k - 1], deny, base + [Index(k - 1)]);
      var before := RedactionPipeline.DenialsOfItems(items, deny, base, k - 1);
      var now := RedactionPipeline.Denials(items[k - 1], deny, base + [Index(k - 1)]);
      forall m | m in before ensures m !in now {
        DenialsMembers(items, deny, base, k - 1, m);
        var i: nat :| i < k - 1 && m in RedactionPipeline.Denials(items[i], deny, base + [Index(i)]);
        ItemDenied(items[i], i, deny, base, m.0, m.1);
        ItemDenied(items[k - 1], k - 1, deny, base, m.0, m.1);
      }
      OnceApart(before, now);
    }
  }

  lemma {:induction false} DenialFieldsOnce(fields: Fields, deny: string -> bool, base: Path, k: nat)
    requires Proper(Obj(fields)) && k <= |fields|
    ensures Once(RedactionPipeline.DenialsOfFields(fields, deny, base, k))
    decreases Obj(fields), 0, k
  {
    if k > 0 {
      DenialFieldsOnce(fields, deny, base, k - 1);
      DenialsOnce(fields[k - 1].1, deny, base + [Key(fields[k - 1].0)]);
      var before, now := RedactionPipeline.DenialsOfFields(fields, deny, base, k - 1), FieldDenials(fields, deny, base, k - 1);
      forall m | m in before ensures m !in now {
        DenialsFields(fields, deny, base, k - 1, m);
        var i: nat :| i < k - 1 && m in FieldDenials(fields, deny, base, i);
        DenialPath(fields, deny, base, i, m);
        if m in now { DenialPath(fields, deny, base, k - 1, m); }
      }
      OnceApart(before, now);
    }
  }

  // ---------------------------------------------------------------- what the denylist tells apart

  ghost predicate SameDenials(a: Json, b: Json, deny: string -> bool) {
    forall q, rule :: Denial(a, deny, q, rule) <==> Denial(b, deny, q, rule)
  }

  lemma HiddenDenial(fields: Fields, deny: string -> bool)
    ensures Denial(Obj(fields), deny, [Key("value")], RedactionPipeline.HIDDEN_RULE) <==> HiddenValue(fields)
  {
    NotHiddenRule("value");
    if HiddenValue(fields) {
      var m :| m in fields && m.0 == "value";
      assert Records(fields, ("value", m.1), deny, RedactionPipeline.HIDDEN_RULE) && (m.0, m.1) in fields;
    }
  }

  lemma ItemDenials(x: seq<Json>, y: seq<Json>, deny: string -> bool, i: nat)
    requires i < |x| == |y| && SameDenials(Arr(x), Arr(y), deny)
    ensures SameDenials(x[i], y[i], deny)
  {
    forall q, rule ensures Denial(x[i], deny, q, rule) <==> Denial(y[i], deny, q, rule) {
      var p := [Index(i)] + q;
      assert p[1..] == q && (Denial(Arr(x), deny, p, rule) <==> Denial(Arr(y), deny, p, rule));
    }
  }

  lemma MemberDenial(x: Fields, deny: string -> bool, i: nat, q: Path, rule: string)
    requires OneEach(x) && i < |x| && q != [] && !(x[i].0 == "value" && HiddenValue(x))
    ensures Denial(Obj(x), deny, [Key(x[i].0)] + q, rule) <==> Denial(x[i].1, deny, q, rule)
  {
    var p := [Key(x[i].0)] + q;
    assert p[1..] == q;
    assert (x[i].0, x[i].1) in x;
    forall c | (x[i].0, c) in x ensures c == x[i].1 {
      var k :| 0 <= k < |x| && x[k] == (x[i].0, c);
      SameMember(x, i, k);
    }
    hide Denial, Records, HiddenValue, OneEach;
    DenialAt(x, deny, x[i].0, q, rule);
  }

  lemma DenialAt(x: Fields, deny: string -> bool, k: string, q: Path, rule: string)
    requires q != []
    ensures Denial(Obj(x), deny, [Key(k)] + q, rule) <==>
            exists c :: (k, c) in x && !(k == "value" && HiddenValue(x)) && Denial(c, deny, q, rule)
  {
    assert ([Key(k)] + q)[1..] == q;
    hide HiddenValue;
  }

  lemma MemberDenials(x: Fields, y: Fields, deny: string -> bool, i: nat)
    requires OneEach(x) && OneEach(y) && i < |x| == |y| && x[i].0 == y[i].0 && SameDenials(Obj(x), Obj(y), deny)
    requires !(x[i].0 == "value" && (HiddenValue(x) || HiddenValue(y)))
    ensures SameDenials(x[i].1, y[i].1, deny)
  {
    forall q, rule ensures Denial(x[i].1, deny, q, rule) <==> Denial(y[i].1, deny, q, rule) {
      if q != [] {
        MemberDenial(x, deny, i, q, rule);
        MemberDenial(y, deny, i, q, rule);
      } else {
        assert !Denial(x[i].1, deny, q, rule) && !Denial(y[i].1, deny, q, rule);
      }
    }
  }

  lemma {:induction false} AlikeIfSame(a: Json, b: Json, deny: string -> bool)
    requires Proper(a) && Proper(b) && RedactionPipeline.Deny(a, deny) == RedactionPipeline.Deny(b, deny) && SameDenials(a, b, deny)
    ensures RedactionPipeline.Alike(a, b, deny)
    decreases a
  {
    DenyExactly(a, deny);
    DenyExactly(b, deny);
    match a
    case Arr(x) =>
      var y := b.items;
      forall i | 0 <= i < |x| ensures RedactionPipeline.Alike(x[i], y[i], deny) {
        ItemDenials(x, y, deny, i);
        assert RedactionPipeline.Deny(a, deny).items[i] == RedactionPipeline.Deny(b, deny).items[i];
        AlikeIfSame(x[i], y[i], deny);
      }
    case Obj(x) => ObjectsAlike(x, b.fields, deny);
    case _ =>
  }

  lemma {:induction false} ObjectsAlike(x: Fields, y: Fields, deny: string -> bool)
    requires Proper(Obj(x)) && Proper(Obj(y))
    requires RedactionPipeline.Deny(Obj(x), deny) == RedactionPipeline.Deny(Obj(y), deny) && SameDenials(Obj(x), Obj(y), deny)
    ensures RedactionPipeline.Alike(Obj(x), Obj(y), deny)
    decreases Obj(x), 0
  {
    HiddenExactly(x);
    HiddenExactly(y);
    HiddenDenial(x, deny);
    HiddenDenial(y, deny);
    hide HiddenValue, RedactionPipeline.HidesValue;
    assert |RedactionPipeline.Deny(Obj(x), deny).fields| == |x| == |y|;
    forall i | 0 <= i < |x|
      ensures x[i].0 == y[i].0
      ensures || (HiddenValue(x) && x[i].0 == "value")
              || (deny(x[i].0) && !RedactionPipeline.Container(x[i].1) && !RedactionPipeline.Container(y[i].1))
              || RedactionPipeline.Alike(x[i].1, y[i].1, deny)
    {
      FieldOf(x, deny, i);
      FieldOf(y, deny, i);
      if !(HiddenValue(x) && x[i].0 == "value") {
        MemberDenials(x, y, deny, i);
        if RedactionPipeline.Container(x[i].1) && RedactionPipeline.Container(y[i].1) { AlikeIfSame(x[i].1, y[i].1, deny); }
      }
    }
    hide RedactionPipeline.Deny;
  }

  lemma FieldOf(x: Fields, deny: string -> bool, i: nat)
    requires i < |x|
    ensures RedactionPipeline.Deny(Obj(x), deny).Obj? && |RedactionPipeline.Deny(Obj(x), deny).fields| == |x|
    ensures RedactionPipeline.Deny(Obj(x), deny).fields[i] == RedactionPipeline.DenyField(x, deny, i)
  {
    hide RedactionPipeline.DenyField;
  }

  /** Two events look the same to the denylist, in what it publishes and in what it records, if and only if they differ
      only in scalars under denied keys and in hidden values. */
  lemma AlikeExactly(a: Json, b: Json, deny: string -> bool)
    requires Proper(a) && Proper(b)
    ensures RedactionPipeline.Alike(a, b, deny) <==>
            && RedactionPipeline.Deny(a, deny) == RedactionPipeline.Deny(b, deny)
            && RedactionPipeline.Denials(a, deny, []) == RedactionPipeline.Denials(b, deny, [])
  {
    if RedactionPipeline.Alike(a, b, deny) { RedactionPipeline.DeniedAlike(a, b, deny, []); }
    if RedactionPipeline.Deny(a, deny) == RedactionPipeline.Deny(b, deny)
       && RedactionPipeline.Denials(a, deny, []) == RedactionPipeline.Denials(b, deny, []) {
      forall q, rule ensures Denial(a, deny, q, rule) <==> Denial(b, deny, q, rule) {
        DenialsExactly(a, deny, [], rule, q);
        DenialsExactly(b, deny, [], rule, q);
        assert q[0..] == q;
      }
      AlikeIfSame(a, b, deny);
    }
  }
}
