/** The denylist layer, and the layers run one after the other with their audit. */
module RedactionPipeline {
  import opened Wrappers
  import opened Json
  import TaintedStrings
  import TaintedEvents
  import SecretMarkers

  type Fields = seq<(string, Json)>

  const DENIED: string := "[REDACTED:config_denylist]"
  const HIDDEN_RULE: string := "denylist:env.secret-true"

  /** What one redaction records: the rule that fired and where. */
  type Mark = (string, Path)

  function KeyRule(key: string): string { "denylist:" + key }

  predicate Container(j: Json) { j.Arr? || j.Obj? }

  /** The environment shape with secret: true and a value. */
  predicate HidesValue(fields: Fields) {
    SecretMarkers.FirstValue(fields, "secret") == Some(Bool(true)) && SecretMarkers.FirstValue(fields, "value").Some?
  }

  /** Scalars under denied keys and hidden values are replaced; lists and objects are walked, whatever their key. */
  function Deny(j: Json, deny: string -> bool): Json
    decreases j, 1
  {
    match j
    case Arr(items) => Arr(seq(|items|, i requires 0 <= i < |items| => Deny(items[i], deny)))
    case Obj(fields) => Obj(seq(|fields|, i requires 0 <= i < |fields| => DenyField(fields, deny, i)))
    case _ => j
  }

  function DenyField(fields: Fields, deny: string -> bool, i: nat): (string, Json)
    requires i < |fields|
    decreases Obj(fields), 0
  {
    (fields[i].0,
     if HidesValue(fields) && fields[i].0 == "value" then Str(DENIED)
     else if Container(fields[i].1) then Deny(fields[i].1, deny)
     else if deny(fields[i].0) then Str(DENIED) else fields[i].1)
  }

  function Denials(j: Json, deny: string -> bool, path: Path): seq<Mark>
    decreases j, 0
  {
    match j
    case Arr(items) => DenialsOfItems(items, deny, path, |items|)
    case Obj(fields) => (if HidesValue(fields) then [(HIDDEN_RULE, path + [Key("value")])] else []) + DenialsOfFields(fields, deny, path, |fields|)
    case _ => []
  }

  function DenialsOfItems(items: seq<Json>, deny: string -> bool, path: Path, k: nat): seq<Mark>
    requires k <= |items|
    decreases Arr(items), 0, k
  {
    if k == 0 then [] else DenialsOfItems(items, deny, path, k - 1) + Denials(items[k - 1], deny, path + [Index(k - 1)])
  }

  function DenialsOfField(f: (string, Json), hidden: bool, deny: string -> bool, path: Path): seq<Mark>
    decreases f.1, 1
  {
    if Container(f.1) && !hidden then Denials(f.1, deny, path + [Key(f.0)])
    else if deny(f.0) then [(KeyRule(f.0), path + [Key(f.0)])] else []
  }

  function DenialsOfFields(fields: Fields, deny: string -> bool, path: Path, k: nat): seq<Mark>
    requires k <= |fields|
    decreases Obj(fields), 0, k
  {
    if k == 0 then [] else
    DenialsOfFields(fields, deny, path, k - 1)
    + DenialsOfField(fields[k - 1], HidesValue(fields) && fields[k - 1].0 == "value", deny, path)
  }

  method WalkDenied(j: Json, deny: string -> bool, path: Path, fired: seq<Mark>) returns (out: Json, more: seq<Mark>)
    ensures out == Deny(j, deny) && more == fired + Denials(j, deny, path)
    decreases j, 1
  {
    match j
    case Arr(items) =>
      var done: seq<Json> := [];
      more := fired;
      for i := 0 to |items|
        invariant |done| == i && forall k :: 0 <= k < i ==> done[k] == Deny(items[k], deny)
        invariant more == fired + DenialsOfItems(items, deny, path, i)
      {
        var item;
        item, more := WalkDenied(items[i], deny, path + [Index(i)], more);
        done := done + [item];
      }
      out := Arr(done);
    case Obj(fields) =>
      var first := if HidesValue(fields) then [(HIDDEN_RULE, path + [Key("value")])] else [];
      var done;
      done, more := WalkMembers(fields, deny, path, fired + first);
      assert Deny(j, deny).fields == done;
      out := Obj(done);
    case _ =>
      out, more := j, fired;
  }

  method WalkMembers(fields: Fields, deny: string -> bool, path: Path, fired: seq<Mark>) returns (done: Fields, more: seq<Mark>)
    ensures |done| == |fields| && forall k :: 0 <= k < |fields| ==> done[k] == DenyField(fields, deny, k)
    ensures more == fired + DenialsOfFields(fields, deny, path, |fields|)
    decreases Obj(fields), 0
  {
    hide HidesValue, Deny, Denials;
    done, more := [], fired;
    var hides := HidesValue(fields);
    for i := 0 to |fields|
      invariant |done| == i && forall k :: 0 <= k < i ==> done[k] == DenyField(fields, deny, k)
      invariant more == fired + DenialsOfFields(fields, deny, path, i)
    {
      var f := fields[i];
      if hides && f.0 == "value" {
        if deny(f.0) { more := more + [(KeyRule(f.0), path + [Key(f.0)])]; }
        done := done + [(f.0, Str(DENIED))];
      } else if Container(f.1) {
        var value;
        value, more := WalkDenied(f.1, deny, path + [Key(f.0)], more);
        done := done + [(f.0, value)];
      } else if deny(f.0) {
        more := more + [(KeyRule(f.0), path + [Key(f.0)])];
        done := done + [(f.0, Str(DENIED))];
      } else {
        done := done + [f];
      }
    }
  }

  // ---------------------------------------------------------------- denied values do not matter

  /** Equal but for scalars under denied keys and hidden values. */
  ghost predicate Alike(a: Json, b: Json, deny: string -> bool)
    decreases a
  {
    match (a, b)
    case (Arr(x), Arr(y)) => |x| == |y| && forall i :: 0 <= i < |x| ==> Alike(x[i], y[i], deny)
    case (Obj(x), Obj(y)) =>
      && |x| == |y| && HidesValue(x) == HidesValue(y)
      && forall i :: 0 <= i < |x| ==>
           && x[i].0 == y[i].0
           && ((HidesValue(x) && x[i].0 == "value")
               || (deny(x[i].0) && !Container(x[i].1) && !Container(y[i].1))
               || Alike(x[i].1, y[i].1, deny))
    case _ => a == b
  }

  /** Events that differ only in what must be hidden are redacted alike, and leave the same audit. */
  lemma {:induction false} DeniedAlike(a: Json, b: Json, deny: string -> bool, path: Path)
    requires Alike(a, b, deny)
    ensures Deny(a, deny) == Deny(b, deny) && Denials(a, deny, path) == Denials(b, deny, path)
    ensures Container(a) == Container(b)
    decreases a, 1
  {
    match (a, b)
    case (Arr(x), Arr(y)) =>
      forall i | 0 <= i < |x| ensures Deny(x[i], deny) == Deny(y[i], deny) { DeniedAlike(x[i], y[i], deny, path); }
      ItemsAlike(x, y, deny, path, |x|);
    case (Obj(x), Obj(y)) =>
      hide HidesValue;
      forall i | 0 <= i < |x| ensures DenyField(x, deny, i) == DenyField(y, deny, i) {
        if !(HidesValue(x) && x[i].0 == "value") && !(deny(x[i].0) && !Container(x[i].1) && !Container(y[i].1)) {
          DeniedAlike(x[i].1, y[i].1, deny, path);
          if !Container(x[i].1) { ScalarsAlike(x[i].1, y[i].1, deny); }
        }
      }
      FieldsAlike(x, y, deny, path, |x|);
    case _ =>
  }

  lemma ScalarsAlike(a: Json, b: Json, deny: string -> bool)
    requires Alike(a, b, deny) && !Container(a)
    ensures a == b
  {}

  lemma {:induction false} ItemsAlike(x: seq<Json>, y: seq<Json>, deny: string -> bool, path: Path, k: nat)
    requires k <= |x| == |y| && forall i :: 0 <= i < |x| ==> Alike(x[i], y[i], deny)
    ensures DenialsOfItems(x, deny, path, k) == DenialsOfItems(y, deny, path, k)
    decreases Arr(x), 0, k
  {
    if k > 0 {
      ItemsAlike(x, y, deny, path, k - 1);
      DeniedAlike(x[k - 1], y[k - 1], deny, path + [Index(k - 1)]);
    }
  }

  lemma {:induction false} FieldsAlike(x: Fields, y: Fields, deny: string -> bool, path: Path, k: nat)
    requires k <= |x| && Alike(Obj(x), Obj(y), deny)
    ensures DenialsOfFields(x, deny, path, k) == DenialsOfFields(y, deny, path, k)
    decreases Obj(x), 0, k
  {
    hide HidesValue;
    if k > 0 {
      FieldsAlike(x, y, deny, path, k - 1);
      var f, g := x[k - 1], y[k - 1];
      if !(HidesValue(x) && f.0 == "value") && !(deny(f.0) && !Container(f.1) && !Container(g.1)) {
        DeniedAlike(f.1, g.1, deny, path + [Key(f.0)]);
      }
    }
  }

  // ---------------------------------------------------------------- what a denied key hides

  /** The documented promise: at any depth, what stands under a denied key has been replaced. */
  predicate AllHidden(j: Json, deny: string -> bool)
    decreases j
  {
    match j
    case Arr(items) => forall i | 0 <= i < |items| :: AllHidden(items[i], deny)
    case Obj(fields) =>
      forall i | 0 <= i < |fields| :: (deny(fields[i].0) ==> fields[i].1 == Str(DENIED)) && AllHidden(fields[i].1, deny)
    case _ => true
  }

  /** In all that the walk reaches, no list and no object stands under a denied key. */
  predicate OnlyScalars(j: Json, deny: string -> bool)
    decreases j
  {
    match j
    case Arr(items) => forall i | 0 <= i < |items| :: OnlyScalars(items[i], deny)
    case Obj(fields) =>
      forall i | 0 <= i < |fields| ::
        (HidesValue(fields) && fields[i].0 == "value")
        || ((deny(fields[i].0) ==> !Container(fields[i].1)) && OnlyScalars(fields[i].1, deny))
    case _ => true
  }

  /** Everything under a denied key is replaced if and only if denied keys hold only scalars, hidden values
      apart; a list or an object under such a key is walked and stays. */
  lemma {:induction false} DeniedExactly(j: Json, deny: string -> bool)
    ensures AllHidden(Deny(j, deny), deny) <==> OnlyScalars(j, deny)
    ensures Container(Deny(j, deny)) == Container(j)
  {
    hide HidesValue;
    match j
    case Arr(items) =>
      forall i | 0 <= i < |items| ensures AllHidden(Deny(items[i], deny), deny) <==> OnlyScalars(items[i], deny) {
        DeniedExactly(items[i], deny);
      }
      assert Deny(j, deny).Arr? && forall i :: 0 <= i < |items| ==> Deny(j, deny).items[i] == Deny(items[i], deny);
    case Obj(fields) =>
      forall i | 0 <= i < |fields| { DeniedExactly(fields[i].1, deny); }
      MembersExactly(fields, deny);
    case _ =>
  }

  lemma MembersExactly(fields: Fields, deny: string -> bool)
    requires forall i :: 0 <= i < |fields| ==>
               && (AllHidden(Deny(fields[i].1, deny), deny) <==> OnlyScalars(fields[i].1, deny))
               && Container(Deny(fields[i].1, deny)) == Container(fields[i].1)
    ensures AllHidden(Deny(Obj(fields), deny), deny) <==> OnlyScalars(Obj(fields), deny)
  {
    hide HidesValue;
    var out := Deny(Obj(fields), deny).fields;
    assert |out| == |fields|;
    forall i | 0 <= i < |fields|
      ensures ((deny(out[i].0) ==> out[i].1 == Str(DENIED)) && AllHidden(out[i].1, deny)) <==>
              ((HidesValue(fields) && fields[i].0 == "value")
               || ((deny(fields[i].0) ==> !Container(fields[i].1)) && OnlyScalars(fields[i].1, deny)))
    {
      assert out[i] == DenyField(fields, deny, i);
    }
  }

  /** A denied key hides scalars only: a list of them under that key passes as it is. */
  lemma DeniedListPasses(key: string, items: seq<Json>, deny: string -> bool)
    requires deny(key) && forall i :: 0 <= i < |items| ==> !Container(items[i])
    ensures Deny(Obj([(key, Arr(items))]), deny) == Obj([(key, Arr(items))])
    ensures !OnlyScalars(Obj([(key, Arr(items))]), deny)
  {
    var fields := [(key, Arr(items))];
    assert Deny(Arr(items), deny) == Arr(items) by {
      assert Deny(Arr(items), deny).items == items;
    }
    assert fields[1..] == [] && SecretMarkers.FirstValue(fields, "secret") != Some(Bool(true));
    assert DenyField(fields, deny, 0) == fields[0];
    assert Deny(Obj(fields), deny).fields == fields;
  }

  // ---------------------------------------------------------------- the pipeline

  datatype Layer = Denylist(deny: string -> bool) | VaultTagged | Tainted(needles: seq<string>)
  datatype AuditRow = AuditRow(layer: nat, rule: string, path: Path)

  const TAINTED_RULE: string := "tainted_string:known-secret"

  function VaultRule(rule: SecretMarkers.Rule): string {
    match rule case TaggedValue => "vault:tagged-value" case InlineVault => "vault:ansible-vault-inline"
  }

  predicate Runnable(layer: Layer) { layer.Tainted? ==> "" !in layer.needles }

  function Rows(layer: nat, marks: seq<Mark>): seq<AuditRow> {
    seq(|marks|, i requires 0 <= i < |marks| => AuditRow(layer, marks[i].0, marks[i].1))
  }

  function Apply(layer: Layer, event: Json): (Json, seq<Mark>)
    requires Runnable(layer)
  {
    match layer
    case Denylist(deny) => (Deny(event, deny), Denials(event, deny, []))
    case VaultTagged =>
      var fired := SecretMarkers.Fired(event, []);
      (SecretMarkers.Clean(event), seq(|fired|, i requires 0 <= i < |fired| => (VaultRule(fired[i].0), fired[i].1)))
    case Tainted(needles) =>
      var paths := TaintedEvents.MarksOfTree(event, needles, []);
      (TaintedEvents.RedactTree(event, needles), seq(|paths|, i requires 0 <= i < |paths| => (TAINTED_RULE, paths[i])))
  }

  /** The first k layers in order, with every audit row. */
  function Pipeline(event: Json, layers: seq<Layer>, k: nat): (Json, seq<AuditRow>)
    requires k <= |layers| && forall i :: 0 <= i < |layers| ==> Runnable(layers[i])
  {
    if k == 0 then (event, []) else
    var before := Pipeline(event, layers, k - 1);
    var now := Apply(layers[k - 1], before.0);
    (now.0, before.1 + Rows(k - 1, now.1))
  }

  method RunPipeline(event: Json, layers: seq<Layer>) returns (out: Json, audit: seq<AuditRow>)
    requires forall i :: 0 <= i < |layers| ==> Runnable(layers[i])
    ensures (out, audit) == Pipeline(event, layers, |layers|)
  {
    hide Apply;
    out, audit := event, [];
    for i := 0 to |layers|
      invariant (out, audit) == Pipeline(event, layers, i)
    {
      var (next, fired) := Apply(layers[i], out);
      out := next;
      for j := 0 to |fired|
        invariant audit == Pipeline(event, layers, i).1 + Rows(i, fired[..j])
      {
        assert Rows(i, fired[..j + 1]) == Rows(i, fired[..j]) + [AuditRow(i, fired[j].0, fired[j].1)];
        audit := audit + [AuditRow(i, fired[j].0, fired[j].1)];
      }
      assert fired[..|fired|] == fired;
    }
  }

  /** Whatever the earlier layers do, known-string redaction in the last place leaves no needle that a marker
      cannot complete. */
  lemma PipelineEndsClean(event: Json, layers: seq<Layer>, gone: seq<string>)
    requires layers != [] && (forall i :: 0 <= i < |layers| ==> Runnable(layers[i])) && layers[|layers| - 1].Tainted?
    requires forall t :: t in gone ==> t in layers[|layers| - 1].needles && !TaintedStrings.Completable(t)
    ensures TaintedEvents.CleanTree(Pipeline(event, layers, |layers|).0, gone)
  {
    TaintedEvents.RedactedIsClean(Pipeline(event, layers, |layers| - 1).0, layers[|layers| - 1].needles, gone);
  }

  /** With the denylist in the first place, neither the published event nor the audit depends on denied values. */
  lemma {:induction false} PipelineHidesDenied(a: Json, b: Json, layers: seq<Layer>, k: nat)
    requires 0 < k <= |layers| && forall i :: 0 <= i < |layers| ==> Runnable(layers[i])
    requires layers[0].Denylist? && Alike(a, b, layers[0].deny)
    ensures Pipeline(a, layers, k) == Pipeline(b, layers, k)
  {
    if k == 1 {
      DeniedAlike(a, b, layers[0].deny, []);
      assert Pipeline(a, layers, 0) == (a, []) && Pipeline(b, layers, 0) == (b, []);
    } else {
      hide Apply, Alike;
      PipelineHidesDenied(a, b, layers, k - 1);
    }
  }
}
