/** No skew, no difference: a served definition that passes the comparison accepts what the bundled one accepts. */
module CatalogAgreement {
  import opened Strings
  import opened Json
  import opened Manifests
  import opened CatalogSkew

  // ---- reading a parameter definition out of JSON ----------------------------------------------

  predicate Scalar(v: Json) { v.Bool? || v.Num? || v.Str? }

  function NumberAt(ms: seq<Member>, key: string): Option<string> {
    if Field(ms, key).Num? then Some(Field(ms, key).text) else None
  }

  function TextAt(ms: seq<Member>, key: string): Option<string> {
    if Field(ms, key).Str? then Some(Field(ms, key).s) else None
  }

  function ScalarAt(ms: seq<Member>, key: string): Option<Json> {
    if Scalar(Field(ms, key)) then Some(Field(ms, key)) else None
  }

  function BoundsOf(v: Json): Option<Bounds> {
    if !v.Obj? then None
    else
      var ms := v.members;
      Some(Bounds(if Field(ms, "allowlist").Arr? then Some(Field(ms, "allowlist").items) else None,
                  NumberAt(ms, "min"), NumberAt(ms, "max"), NumberAt(ms, "minItems"), NumberAt(ms, "maxItems"),
                  NumberAt(ms, "maxLength"), TextAt(ms, "pattern"), TextAt(ms, "semantic")))
  }

  function ConditionOf(v: Json): Option<Condition> {
    if v.Obj? && Field(v.members, "param").Str?
    then Some(Condition(Field(v.members, "param").s, ScalarAt(v.members, "equals"), ScalarAt(v.members, "notEquals")))
    else None
  }

  /** The fields of a repeated block. */
  function FieldsOf(v: Json): (fs: seq<Json>)
    ensures forall f :: f in fs ==> f < v
  {
    if v.Obj? && Field(v.members, "fields").Arr? then Field(v.members, "fields").items else []
  }

  function ParamOf(v: Json): Param
    decreases v
  {
    if !v.Obj? then Param("", false, None, None, Single)
    else
      var ms := v.members;
      var repeated := Field(ms, "repeated");
      var fs := FieldsOf(repeated);
      Param(if Field(ms, "name").Str? then Field(ms, "name").s else "",
            Field(ms, "required") == Bool(true),
            ConditionOf(Field(ms, "dependsOn")),
            BoundsOf(Field(ms, "bounds")),
            if repeated.Obj?
            then Repeated(seq(|fs|, i requires 0 <= i < |fs| => assert fs[i] in fs; ParamOf(fs[i])))
            else Single)
  }

  function ReadParams(list: seq<Json>): (ps: seq<Param>)
    ensures |ps| == |list| && forall i :: 0 <= i < |list| ==> ps[i] == ParamOf(list[i])
  {
    seq(|list|, i requires 0 <= i < |list| => ParamOf(list[i]))
  }

  function ParamsOf(definition: seq<Member>): seq<Param> { ReadParams(ListOf(Field(definition, "params"))) }

  // ---- a definition as JSON, and read back ---------------------------------------------------------

  function NumberJson(n: Option<string>): Json { if n.Some? then Num(n.value) else Undefined }

  function TextJson(t: Option<string>): Json { if t.Some? then Str(t.value) else Undefined }

  function ScalarJson(v: Option<Json>): Json { if v.Some? then v.value else Undefined }

  function BoundsJson(b: Bounds): Json {
    Obj([Member("allowlist", if b.allowlist.Some? then Arr(b.allowlist.value) else Undefined),
         Member("min", NumberJson(b.min)), Member("max", NumberJson(b.max)),
         Member("minItems", NumberJson(b.minItems)), Member("maxItems", NumberJson(b.maxItems)),
         Member("maxLength", NumberJson(b.maxLength)), Member("pattern", TextJson(b.pattern)),
         Member("semantic", TextJson(b.semantic))])
  }

  function ConditionJson(c: Condition): Json {
    Obj([Member("param", Str(c.param)), Member("equals", ScalarJson(c.equals)),
         Member("notEquals", ScalarJson(c.notEquals))])
  }

  function ParamMembers(p: Param, repeated: Json): seq<Member> {
    [Member("name", Str(p.name)), Member("required", Bool(p.required)),
     Member("dependsOn", if p.dependsOn.Some? then ConditionJson(p.dependsOn.value) else Undefined),
     Member("bounds", if p.bounds.Some? then BoundsJson(p.bounds.value) else Undefined),
     Member("repeated", repeated)]
  }

  /** A parameter definition as a manifest holds it. */
  function ParamJson(p: Param): Json
    decreases p
  {
    var repeated :=
      match p.nesting
      case Single => Undefined
      case Repeated(fields) =>
        Obj([Member("fields", Arr(seq(|fields|, i requires 0 <= i < |fields| =>
               assert fields[i] in fields; ParamJson(fields[i]))))]);
    Obj(ParamMembers(p, repeated))
  }

  /** The conditions at every depth compare with scalars. */
  predicate ComparesScalars(p: Param)
    decreases p
  {
    && (p.dependsOn.Some? ==>
          && (p.dependsOn.value.equals.Some? ==> Scalar(p.dependsOn.value.equals.value))
          && (p.dependsOn.value.notEquals.Some? ==> Scalar(p.dependsOn.value.notEquals.value)))
    && (p.nesting.Repeated? ==> forall f :: f in p.nesting.fields ==> ComparesScalars(f))
  }

  lemma BoundsReadBack(b: Bounds)
    ensures BoundsOf(BoundsJson(b)) == Some(b)
  {
    var ms := BoundsJson(b).members;
    hide NumberAt, TextAt, BoundsJson;
    assert ms == BoundsJson(b).members;
    BoundsFields(b);
  }

  lemma {:induction false} FieldAt(ms: seq<Member>, i: nat)
    requires i < |ms| && DistinctKeys(ms)
    ensures Field(ms, ms[i].key) == ms[i].value
  {
    if i > 0 { FieldAt(ms[1..], i - 1); }
  }

  lemma BoundsKeys(b: Bounds)
    ensures BoundsJson(b).Obj? && DistinctKeys(BoundsJson(b).members)
  {
    hide NumberJson, TextJson;
  }

  lemma BoundsFields(b: Bounds)
    ensures BoundsJson(b).Obj?
    ensures var ms := BoundsJson(b).members;
            && Field(ms, "allowlist") == (if b.allowlist.Some? then Arr(b.allowlist.value) else Undefined)
            && NumberAt(ms, "min") == b.min && NumberAt(ms, "max") == b.max
            && NumberAt(ms, "minItems") == b.minItems && NumberAt(ms, "maxItems") == b.maxItems
            && NumberAt(ms, "maxLength") == b.maxLength && TextAt(ms, "pattern") == b.pattern
            && TextAt(ms, "semantic") == b.semantic
  {
    hide Field, DistinctKeys;
    var ms := BoundsJson(b).members;
    BoundsKeys(b);
    FieldAt(ms, 0);
    FieldAt(ms, 1);
    FieldAt(ms, 2);
    FieldAt(ms, 3);
    FieldAt(ms, 4);
    FieldAt(ms, 5);
    FieldAt(ms, 6);
    FieldAt(ms, 7);
  }

  lemma ConditionReadsBack(c: Condition)
    requires c.equals.Some? ==> Scalar(c.equals.value)
    requires c.notEquals.Some? ==> Scalar(c.notEquals.value)
    ensures ConditionOf(ConditionJson(c)) == Some(c)
  {
    hide Field;
    var ms := ConditionJson(c).members;
    FieldAt(ms, 0);
    FieldAt(ms, 1);
    FieldAt(ms, 2);
  }

  lemma ParamKeys(p: Param, repeated: Json)
    ensures DistinctKeys(ParamMembers(p, repeated))
  {
    hide ConditionJson, BoundsJson;
  }

  lemma ParamFields(p: Param, repeated: Json)
    ensures var ms := ParamMembers(p, repeated);
            && Field(ms, "name") == Str(p.name) && Field(ms, "required") == Bool(p.required)
            && Field(ms, "dependsOn") == (if p.dependsOn.Some? then ConditionJson(p.dependsOn.value) else Undefined)
            && Field(ms, "bounds") == (if p.bounds.Some? then BoundsJson(p.bounds.value) else Undefined)
            && Field(ms, "repeated") == repeated
  {
    hide Field, ConditionJson, BoundsJson, DistinctKeys;
    var ms := ParamMembers(p, repeated);
    ParamKeys(p, repeated);
    FieldAt(ms, 0);
    FieldAt(ms, 1);
    FieldAt(ms, 2);
    FieldAt(ms, 3);
    FieldAt(ms, 4);
  }

  lemma ParamOfMembers(p: Param, repeated: Json)
    requires ComparesScalars(p)
    ensures var q := ParamOf(Obj(ParamMembers(p, repeated)));
            && q.name == p.name && q.required == p.required && q.dependsOn == p.dependsOn && q.bounds == p.bounds
            && q.nesting == if repeated.Obj? then Repeated(ReadParams(FieldsOf(repeated))) else Single
  {
    ParamFields(p, repeated);
    if p.dependsOn.Some? { ConditionReadsBack(p.dependsOn.value); }
    if p.bounds.Some? { BoundsReadBack(p.bounds.value); }
    NothingRead();
    hide Field, ConditionJson, BoundsJson, ConditionOf, BoundsOf, ParamMembers, FieldsOf;
    var q := ParamOf(Obj(ParamMembers(p, repeated)));
    if repeated.Obj? { assert q.nesting.fields == ReadParams(FieldsOf(repeated)); }
  }

  /** The repeated part of a definition as a manifest holds it. */
  lemma RepeatedOf(p: Param) returns (repeated: Json)
    ensures ParamJson(p) == Obj(ParamMembers(p, repeated))
    ensures p.nesting.Single? ==> repeated == Undefined
    ensures p.nesting.Repeated? ==>
              && repeated.Obj? && |FieldsOf(repeated)| == |p.nesting.fields|
              && forall i :: 0 <= i < |p.nesting.fields| ==> FieldsOf(repeated)[i] == ParamJson(p.nesting.fields[i])
  {
    hide ConditionJson, BoundsJson;
    repeated := ParamJson(p).members[4].value;
    assert ParamJson(p).members == ParamMembers(p, repeated);
    if p.nesting.Repeated? { OnlyField("fields", repeated.members[0].value); }
  }

  /** Reading inverts writing: every definition, nested blocks included, is read as what it is. */
  lemma {:induction false} ParamReadsBack(p: Param)
    requires ComparesScalars(p)
    ensures ParamOf(ParamJson(p)) == p
    decreases p
  {
    hide ParamOf, ParamJson, ParamMembers, FieldsOf, ConditionJson, BoundsJson;
    var repeated := RepeatedOf(p);
    ParamOfMembers(p, repeated);
    if p.nesting.Repeated? {
      var fields := p.nesting.fields;
      forall i | 0 <= i < |fields| ensures ReadParams(FieldsOf(repeated))[i] == fields[i] {
        assert fields[i] in fields;
        ParamReadsBack(fields[i]);
      }
      assert ReadParams(FieldsOf(repeated)) == fields;
    }
  }

  lemma OnlyField(key: string, v: Json)
    ensures Field([Member(key, v)], key) == v
  {
  }

  lemma NothingRead()
    ensures ConditionOf(Undefined) == None && BoundsOf(Undefined) == None
  {
  }

  // ---- definitions of the declared shape -------------------------------------------------------

  predicate MaybeNumber(v: Json) { v == Undefined || v.Num? }
  predicate MaybeText(v: Json) { v == Undefined || v.Str? }
  predicate MaybeScalar(v: Json) { v == Undefined || Scalar(v) }

  predicate ShapedBounds(v: Json) {
    v == Undefined ||
    (v.Obj? &&
     var ms := v.members;
     var allowed := Field(ms, "allowlist");
     && (allowed == Undefined || (allowed.Arr? && forall i :: 0 <= i < |allowed.items| ==> Scalar(allowed.items[i])))
     && MaybeNumber(Field(ms, "min")) && MaybeNumber(Field(ms, "max"))
     && MaybeNumber(Field(ms, "minItems")) && MaybeNumber(Field(ms, "maxItems"))
     && MaybeNumber(Field(ms, "maxLength")) && MaybeText(Field(ms, "pattern")) && MaybeText(Field(ms, "semantic")))
  }

  predicate ShapedCondition(v: Json) {
    v == Undefined ||
    (v.Obj? && Field(v.members, "param").Str?
     && MaybeScalar(Field(v.members, "equals")) && MaybeScalar(Field(v.members, "notEquals")))
  }

  /** A parameter definition whose enforced fields have the declared types, at every depth. */
  predicate Shaped(v: Json)
    decreases v
  {
    v.Obj? &&
    var ms := v.members;
    var repeated := Field(ms, "repeated");
    var fs := FieldsOf(repeated);
    && Field(ms, "name").Str? && Field(ms, "required").Bool?
    && ShapedCondition(Field(ms, "dependsOn")) && ShapedBounds(Field(ms, "bounds"))
    && (repeated == Undefined || (repeated.Obj? && Field(repeated.members, "fields").Arr?))
    && forall i :: 0 <= i < |fs| ==> fs[i] in fs && Shaped(fs[i])
  }

  predicate ShapedOperation(definition: seq<Member>) {
    && Field(definition, "params").Arr?
    && forall i :: 0 <= i < |Field(definition, "params").items| ==> Shaped(Field(definition, "params").items[i])
  }

  // ---- deep equality preserves what is read ------------------------------------------------------

  const INHERITED: set<string> := METHODS + {PROTO}

  lemma {:induction false} FieldIsHeld(ms: seq<Member>, k: string)
    ensures k in Keys(ms) ==> Member(k, Field(ms, k)) in ms
  {
    if ms != [] && ms[0].key != k {
      FieldIsHeld(ms[1..], k);
      assert ms == [ms[0]] + ms[1..];
      assert k in Keys(ms) ==> k in Keys(ms[1..]);
    }
  }

  /** Keys that no object inherits answer deeply equal values wherever slots agree. */
  lemma SlotIsField(ms: seq<Member>, ns: seq<Member>, k: string)
    requires SlotsEqual(ms, ns, k) && k !in INHERITED
    ensures DeepEqual(Field(ms, k), Field(ns, k))
  {
  }

  lemma FieldsAgree(a: Json, b: Json, k: string)
    requires a.Obj? && DeepEqual(a, b) && k !in INHERITED
    ensures b.Obj? && DeepEqual(Field(a.members, k), Field(b.members, k))
  {
    var ms, ns := a.members, b.members;
    FieldIsHeld(ms, k);
    FieldIsHeld(ns, k);
    if k in Keys(ms) && k in Keys(ns) {
      var i :| 0 <= i < |ms| && ms[i] == Member(k, Field(ms, k));
      var j :| 0 <= j < |ns| && ns[j] == Member(k, Field(ns, k));
      assert DeepEqual(ms[i].value, ns[j].value);
    }
  }

  lemma ScalarEqual(a: Json, b: Json)
    requires DeepEqual(a, b)
    ensures Scalar(a) || a == Undefined || Scalar(b) || b == Undefined ==> a == b
  {
  }

  lemma ScalarFieldEqual(a: Json, b: Json, k: string)
    requires a.Obj? && b.Obj? && DeepEqual(a, b) && k !in INHERITED && MaybeScalar(Field(a.members, k))
    ensures Field(a.members, k) == Field(b.members, k)
  {
    FieldsAgree(a, b, k);
    ScalarEqual(Field(a.members, k), Field(b.members, k));
  }

  lemma ConditionAgrees(a: Json, b: Json)
    requires DeepEqual(a, b) && ShapedCondition(a)
    ensures ShapedCondition(b) && ConditionOf(a) == ConditionOf(b)
  {
    hide Field, DeepEqual;
    ScalarEqual(a, b);
    if a.Obj? {
      FieldsAgree(a, b, "param");
      ScalarFieldEqual(a, b, "param");
      ScalarFieldEqual(a, b, "equals");
      ScalarFieldEqual(a, b, "notEquals");
    }
  }

  lemma AllowlistAgrees(a: Json, b: Json)
    requires DeepEqual(a, b) && (a.Arr? ==> forall i :: 0 <= i < |a.items| ==> Scalar(a.items[i]))
    requires a.Arr? || a == Undefined
    ensures a == b
  {
    ScalarEqual(a, b);
    if a.Arr? {
      forall i | 0 <= i < |a.items| ensures a.items[i] == b.items[i] { ScalarEqual(a.items[i], b.items[i]); }
    }
  }

  lemma NumberAgrees(a: Json, b: Json, k: string)
    requires a.Obj? && b.Obj? && DeepEqual(a, b) && k !in INHERITED && MaybeNumber(Field(a.members, k))
    ensures MaybeNumber(Field(b.members, k)) && NumberAt(a.members, k) == NumberAt(b.members, k)
  {
    hide Field, DeepEqual;
    ScalarFieldEqual(a, b, k);
  }

  lemma TextAgrees(a: Json, b: Json, k: string)
    requires a.Obj? && b.Obj? && DeepEqual(a, b) && k !in INHERITED && MaybeText(Field(a.members, k))
    ensures MaybeText(Field(b.members, k)) && TextAt(a.members, k) == TextAt(b.members, k)
  {
    hide Field, DeepEqual;
    ScalarFieldEqual(a, b, k);
  }

  lemma BoundsAgree(a: Json, b: Json)
    requires DeepEqual(a, b) && ShapedBounds(a)
    ensures ShapedBounds(b) && BoundsOf(a) == BoundsOf(b)
  {
    hide Field, DeepEqual, NumberAt, TextAt, MaybeNumber, MaybeText, Scalar, INHERITED;
    EnforcedIsCompared();
    if a.Obj? {
      FieldsAgree(a, b, "allowlist");
      AllowlistAgrees(Field(a.members, "allowlist"), Field(b.members, "allowlist"));
      NumberAgrees(a, b, "min");
      NumberAgrees(a, b, "max");
      NumberAgrees(a, b, "minItems");
      NumberAgrees(a, b, "maxItems");
      NumberAgrees(a, b, "maxLength");
      TextAgrees(a, b, "pattern");
      TextAgrees(a, b, "semantic");
    } else {
      ScalarEqual(a, b);
    }
  }

  /** The fields of a parameter definition that a submission is checked against. */
  const ENFORCED: set<string> := {"name", "required", "dependsOn", "bounds", "repeated"}

  lemma EnforcedIsCompared()
    ensures forall k :: k in ENFORCED ==> k !in INHERITED && k !in PRESENTATION_PARAM_FIELDS && k != "params"
    ensures "fields" !in INHERITED && "params" !in INHERITED
    ensures "allowlist" !in INHERITED && "min" !in INHERITED && "max" !in INHERITED && "minItems" !in INHERITED
    ensures "maxItems" !in INHERITED && "maxLength" !in INHERITED && "pattern" !in INHERITED && "semantic" !in INHERITED
  {
  }

  /** Definitions that agree on the enforced fields are read as the same parameter. */
  lemma {:induction false} ParamAgrees(a: Json, b: Json)
    requires Shaped(a) && b.Obj?
    requires forall k :: k in ENFORCED ==> DeepEqual(Field(a.members, k), Field(b.members, k))
    ensures Shaped(b) && ParamOf(a) == ParamOf(b)
    decreases a
  {
    hide Field, BoundsOf, ConditionOf, ShapedBounds, ShapedCondition, DeepEqual;
    var ms, ns := a.members, b.members;
    ScalarEqual(Field(ms, "name"), Field(ns, "name"));
    ScalarEqual(Field(ms, "required"), Field(ns, "required"));
    ConditionAgrees(Field(ms, "dependsOn"), Field(ns, "dependsOn"));
    BoundsAgree(Field(ms, "bounds"), Field(ns, "bounds"));
    var ra, rb := Field(ms, "repeated"), Field(ns, "repeated");
    ScalarEqual(ra, rb);
    if ra.Obj? {
      EnforcedIsCompared();
      FieldsAgree(ra, rb, "fields");
      var fs, gs := FieldsOf(ra), FieldsOf(rb);
      ItemsDeepEqual(Field(ra.members, "fields"), Field(rb.members, "fields"));
      forall i | 0 <= i < |fs| ensures gs[i] in gs && Shaped(gs[i]) && ParamOf(fs[i]) == ParamOf(gs[i]) {
        assert fs[i] in fs && gs[i] in gs;
        FieldSmaller(a, fs[i]);
        NestedAgrees(fs[i], gs[i]);
        ParamAgrees(fs[i], gs[i]);
      }
      assert ParamOf(a).nesting.fields == ParamOf(b).nesting.fields;
    }
  }

  lemma FieldSmaller(v: Json, f: Json)
    requires v.Obj? && f in FieldsOf(Field(v.members, "repeated"))
    ensures f < v
  {
  }

  lemma ItemsDeepEqual(a: Json, b: Json)
    requires DeepEqual(a, b) && a.Arr?
    ensures b.Arr? && |a.items| == |b.items|
    ensures forall i :: 0 <= i < |a.items| ==> DeepEqual(a.items[i], b.items[i])
  {
  }

  lemma NestedAgrees(a: Json, b: Json)
    requires DeepEqual(a, b) && a.Obj?
    ensures b.Obj? && forall k :: k in ENFORCED ==> DeepEqual(Field(a.members, k), Field(b.members, k))
  {
    hide DeepEqual, Field;
    EnforcedIsCompared();
    FieldsAgree(a, b, "name");
    forall k | k in ENFORCED ensures DeepEqual(Field(a.members, k), Field(b.members, k)) { FieldsAgree(a, b, k); }
  }

  // ---- the main result -----------------------------------------------------------------------------

  ghost predicate NoSkew(bundled: seq<Member>, served: Json) { forall path :: !SkewAt(bundled, served, path) }

  /** Parameter lists without skew hold the same parameters, order aside. */
  lemma NoSkewSameParams(bs: seq<Json>, ss: seq<Json>)
    requires forall path :: !ParamSkewAt(bs, ss, path)
    requires forall i :: 0 <= i < |bs| ==> Shaped(bs[i])
    ensures forall i :: 0 <= i < |ss| ==> Shaped(ss[i])
    ensures forall p :: p in ReadParams(bs) <==> p in ReadParams(ss)
    ensures bs == [] <==> ss == []
  {
    hide ParamOf, Shaped, NameOf, Named, ParamSkewAt, ReadParams, NamedDistinctly;
    NoSkewDistinct(bs, ss);
    var ps, qs := ReadParams(bs), ReadParams(ss);
    forall i | 0 <= i < |ss| ensures Shaped(ss[i]) && qs[i] in ps {
      EachIsNamed(ss, i);
      var j := PartnerOf(bs, ss, NameOf(ss[i]), i, false);
      assert ps[j] in ps;
    }
    forall j | 0 <= j < |bs| ensures ps[j] in qs {
      EachIsNamed(bs, j);
      var i := PartnerOf(bs, ss, NameOf(bs[j]), j, true);
      assert qs[i] in qs;
    }
    assert bs != [] ==> ps[0] in qs;
    assert ss != [] ==> qs[0] in ps;
  }

  lemma NoSkewDistinct(bs: seq<Json>, ss: seq<Json>)
    requires forall path :: !ParamSkewAt(bs, ss, path)
    ensures NamedDistinctly(bs) && NamedDistinctly(ss)
  {
    hide NamedDistinctly;
    assert !ParamSkewAt(bs, ss, MALFORMED_PARAMS);
  }

  lemma EachIsNamed(list: seq<Json>, i: nat)
    requires NamedDistinctly(list) && i < |list|
    ensures Named(list[i])
  {
  }

  /** The parameter of the same name on the other side, which is read the same. */
  lemma PartnerOf(bs: seq<Json>, ss: seq<Json>, name: string, i: nat, bundled: bool) returns (j: nat)
    requires forall path :: !ParamSkewAt(bs, ss, path)
    requires NamedDistinctly(bs) && NamedDistinctly(ss)
    requires forall k :: 0 <= k < |bs| ==> Shaped(bs[k])
    requires if bundled then i < |bs| && Named(bs[i]) && NameOf(bs[i]) == name
             else i < |ss| && Named(ss[i]) && NameOf(ss[i]) == name
    ensures if bundled then j < |ss| && ParamOf(bs[i]) == ParamOf(ss[j])
            else j < |bs| && ParamOf(bs[j]) == ParamOf(ss[i]) && Shaped(ss[i])
  {
    hide ParamOf, Shaped, ByNameMap, NameOf, Named, Diverges;
    if bundled { ThereIsFound(bs, name, i); } else { ThereIsFound(ss, name, i); }
    var bp, sp := ParamNamed(bs, name), ParamNamed(ss, name);
    assert !NameSkewAt(bp, sp, name, ParamsPath(name)) by { assert !ParamSkewAt(bs, ss, ParamsPath(name)); }
    assert bp.Some? && sp.Some?;
    var b := IndexOf(bs, name);
    var s := IndexOf(ss, name);
    forall k ensures !Diverges(bp.value, sp.value, PRESENTATION_PARAM_FIELDS, k) {
      assert !ParamSkewAt(bs, ss, (ParamsPath(name) + ".") + k);
      assert !NameSkewAt(bp, sp, name, (ParamsPath(name) + ".") + k);
    }
    PairAgrees(bs[b], ss[s]);
    OneOfAName(bs, name, b, if bundled then i else b);
    OneOfAName(ss, name, s, if bundled then s else i);
    j := if bundled then s else b;
  }

  lemma IndexOf(list: seq<Json>, name: string) returns (i: nat)
    requires ParamNamed(list, name).Some?
    ensures i < |list| && list[i] == Obj(ParamNamed(list, name).value) && Named(list[i]) && NameOf(list[i]) == name
  {
    i := FoundIsThere(list, name);
  }

  lemma OneOfAName(list: seq<Json>, name: string, i: nat, j: nat)
    requires NamedDistinctly(list) && i < |list| && j < |list|
    requires NameOf(list[i]) == name && NameOf(list[j]) == name
    ensures i == j
  {
  }

  lemma PairAgrees(b: Json, s: Json)
    requires Shaped(b) && s.Obj?
    requires forall k :: !Diverges(b.members, s.members, PRESENTATION_PARAM_FIELDS, k)
    ensures Shaped(s) && ParamOf(b) == ParamOf(s)
  {
    hide SlotsEqual, ParamOf, Field;
    EnforcedIsCompared();
    forall k | k in ENFORCED ensures DeepEqual(Field(b.members, k), Field(s.members, k)) {
      assert !Diverges(b.members, s.members, PRESENTATION_PARAM_FIELDS, k);
      UncomparedIsEqual(b.members, s.members, k);
      SlotIsField(b.members, s.members, k);
    }
    assert Shaped(b) ==> b.Obj?;
    ParamAgrees(b, s);
  }

  lemma UncomparedIsEqual(ms: seq<Member>, ns: seq<Member>, k: string)
    ensures k !in Keys(ms) + Keys(ns) ==> SlotsEqual(ms, ns, k)
  {
  }

  /**
   * Main result: a served definition in which no skew is found accepts exactly the records
   * the bundled one accepts, through nested blocks and in any parameter order. It is of the
   * declared shape exactly when its `params` is a list, which the comparison does not ask
   * of it when the bundled operation has no parameters.
   */
  lemma NoSkewAcceptsTheSame(env: Env, bundled: seq<Member>, served: Json, rec: seq<Member>)
    requires ShapedOperation(bundled) && NoSkew(bundled, served)
    ensures served.Obj?
    ensures ShapedOperation(served.members) <==> Field(served.members, "params").Arr?
    ensures ListOf(Field(bundled, "params")) != [] ==> ShapedOperation(served.members)
    ensures Accepts(env, ParamsOf(bundled), rec) <==> Accepts(env, ParamsOf(served.members), rec)
  {
    hide Field, Shaped, ReadParams, Fails;
    assert served.Obj? by { assert !SkewAt(bundled, served, MALFORMED_OPERATION); }
    var bs, ss := ListOf(Field(bundled, "params")), ListOf(Field(served.members, "params"));
    forall path ensures !ParamSkewAt(bs, ss, path) { assert !SkewAt(bundled, served, path); }
    NoSkewSameParams(bs, ss);
  }

  /**
   * Without skew every field that is not presentation agrees, whatever the field is called:
   * what governs approval, and fields that are added to the type later.
   */
  lemma NoSkewFieldsAgree(bundled: seq<Member>, served: Json, k: string)
    requires NoSkew(bundled, served) && k !in PRESENTATION_OP_FIELDS && k != "params" && k !in INHERITED
    ensures served.Obj? && DeepEqual(Field(bundled, k), Field(served.members, k))
  {
    hide SlotsEqual, DeepEqual;
    assert served.Obj? by { assert !SkewAt(bundled, served, MALFORMED_OPERATION); }
    assert !SkewAt(bundled, served, "" + k);
    assert !Diverges(bundled, served.members, PRESENTATION_OP_FIELDS, k);
    UncomparedIsEqual(bundled, served.members, k);
    SlotIsField(bundled, served.members, k);
  }

  /** The gap: against a bundled operation without parameters, anything that is no list passes as one. */
  lemma ParamsNeedNotBeAList()
    ensures var bundled, served := [Member("params", Arr([]))], Obj([Member("params", Null)]);
            ShapedOperation(bundled) && NoSkew(bundled, served) && !ShapedOperation(served.members)
  {
    var bundled, ss := [Member("params", Arr([]))], [Member("params", Null)];
    assert Keys(bundled) == {"params"} && Keys(ss) == {"params"};
    forall path ensures !SkewAt(bundled, Obj(ss), path) {
      assert ListOf(Field(bundled, "params")) == [] && ListOf(Field(ss, "params")) == [];
    }
  }
}
