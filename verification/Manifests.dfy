/** Validating submitted parameters against an operation's definition, nested repeated blocks included. */
module Manifests {
  import opened Strings
  import opened Json

  /** What a definition is interpreted with: string coercion, case folding, patterns and the order of numbers. */
  datatype Env = Env(
    text: Json -> string,
    fold: string -> string,
    matches: (string, string) -> bool,
    less: (string, string) -> bool,
    count: nat -> string)

  datatype Condition = Condition(param: string, equals: Option<Json>, notEquals: Option<Json>)

  datatype Bounds = Bounds(
    allowlist: Option<seq<Json>>, min: Option<string>, max: Option<string>,
    minItems: Option<string>, maxItems: Option<string>,
    maxLength: Option<string>, pattern: Option<string>, semantic: Option<string>)

  /** The part of a parameter definition that decides what is accepted for it. */
  datatype Param = Param(
    name: string, required: bool, dependsOn: Option<Condition>, bounds: Option<Bounds>, nesting: Nesting)

  datatype Nesting = Single | Repeated(fields: seq<Param>)

  /** Reading a key of an object: undefined when there is none. */
  function Field(ms: seq<Member>, key: string): (v: Json)
    ensures v == Undefined || exists m :: m in ms && m.key == key && m.value == v
    ensures key !in Keys(ms) ==> v == Undefined
  {
    if ms == [] then Undefined
    else if ms[0].key == key then ms[0].value
    else
      assert ms == [ms[0]] + ms[1..];
      Field(ms[1..], key)
  }

  // ---- what is out of bounds -------------------------------------------------------------------

  predicate CountOutside(env: Env, b: Bounds, n: nat) {
    || (b.minItems.Some? && env.less(env.count(n), b.minItems.value))
    || (b.maxItems.Some? && env.less(b.maxItems.value, env.count(n)))
  }

  predicate ScalarOutside(env: Env, b: Bounds, v: Json) {
    || (b.allowlist.Some? && v !in b.allowlist.value)
    || (v.Num? && b.min.Some? && env.less(v.text, b.min.value))
    || (v.Num? && b.max.Some? && env.less(b.max.value, v.text))
    || (v.Str? && b.maxLength.Some? && env.less(b.maxLength.value, env.count(|v.s|)))
    || (v.Str? && b.pattern.Some? && !env.matches(b.pattern.value, v.s))
  }

  const AZURE_TAG_MAP := "azure_tag_map"

  /** Two spellings of one tag. */
  predicate FoldsCollide(env: Env, ms: seq<Member>) {
    exists i, j :: 0 <= i < j < |ms| && env.fold(ms[i].key) == env.fold(ms[j].key)
  }

  /** Some item, key or value is out of bounds, or there are too few or too many of them. */
  predicate OutOfBounds(env: Env, b: Bounds, v: Json)
    decreases v
  {
    match v
    case Arr(items) =>
      CountOutside(env, b, |items|) || exists i :: 0 <= i < |items| && OutOfBounds(env, b, items[i])
    case Obj(ms) =>
      || CountOutside(env, b, |ms|)
      || (b.semantic == Some(AZURE_TAG_MAP) && FoldsCollide(env, ms))
      || exists i :: 0 <= i < |ms| && (ScalarOutside(env, b, Str(ms[i].key)) || OutOfBounds(env, b, ms[i].value))
    case _ => ScalarOutside(env, b, v)
  }

  predicate IsActive(env: Env, p: Param, rec: seq<Member>) {
    p.dependsOn.None? ||
    var cond := p.dependsOn.value;
    var controller := Field(rec, cond.param);
    controller != Undefined && controller != Null && controller != Str("") &&
    if cond.equals.Some? then env.text(controller) == env.text(cond.equals.value)
    else cond.notEquals.Some? && env.text(controller) != env.text(cond.notEquals.value)
  }

  predicate Absent(v: Json) { v == Undefined || v == Null || v == Arr([]) }

  /** A record fails a parameter that is active: required but absent, or out of bounds. */
  predicate Fails(env: Env, p: Param, rec: seq<Member>)
    decreases p, 2
  {
    var v := Field(rec, p.name);
    IsActive(env, p, rec) && if Absent(v) then p.required else ValueFails(env, p, v)
  }

  predicate ValueFails(env: Env, p: Param, v: Json)
    decreases p, 1
  {
    if p.nesting.Repeated? then InstancesFail(env, p, v) else p.bounds.Some? && OutOfBounds(env, p.bounds.value, v)
  }

  /** A repeated block: its instances are counted, and each is a record of its own. */
  predicate InstancesFail(env: Env, p: Param, v: Json)
    requires p.nesting.Repeated?
    decreases p, 0
  {
    || !v.Arr?
    || (p.bounds.Some? && CountOutside(env, p.bounds.value, |v.items|))
    || exists i :: 0 <= i < |v.items| && InstanceFails(env, p, p.nesting.fields, v.items[i])
  }

  predicate InstanceFails(env: Env, p: Param, fields: seq<Param>, instance: Json)
    requires forall f :: f in fields ==> f < p
    decreases p, 0, 0
  {
    !instance.Obj? || exists f :: f in fields && Fails(env, f, instance.members)
  }

  /** A definition accepts a record that fails none of its parameters. */
  predicate Accepts(env: Env, params: seq<Param>, rec: seq<Member>) {
    forall p :: p in params ==> !Fails(env, p, rec)
  }

  lemma OneFieldFails(env: Env, p: Param, v: Json, i: nat, j: nat)
    requires p.nesting.Repeated? && v.Arr? && i < |v.items| && j < |p.nesting.fields|
    requires v.items[i].Obj? && Fails(env, p.nesting.fields[j], v.items[i].members)
    ensures InstancesFail(env, p, v)
  {
    assert InstanceFails(env, p, p.nesting.fields, v.items[i]);
  }

  // ---- what the rules ask, place by place ----------------------------------------------------------

  /** `x` is a scalar somewhere in a value: an item, the key of an entry as a string, or what an entry holds. */
  ghost predicate LeafOf(x: Json, v: Json)
    decreases v
  {
    match v
    case Arr(items) => exists i :: 0 <= i < |items| && LeafOf(x, items[i])
    case Obj(ms) => exists i :: 0 <= i < |ms| && (x == Str(ms[i].key) || LeafOf(x, ms[i].value))
    case _ => x == v
  }

  /** `c` is a list or a map somewhere in a value, the value itself included. */
  ghost predicate PartOf(c: Json, v: Json)
    decreases v
  {
    match v
    case Arr(items) => c == v || exists i :: 0 <= i < |items| && PartOf(c, items[i])
    case Obj(ms) => c == v || exists i :: 0 <= i < |ms| && PartOf(c, ms[i].value)
    case _ => false
  }

  predicate LeafOk(env: Env, b: Bounds, x: Json) {
    && (b.allowlist.Some? ==> x in b.allowlist.value)
    && (x.Num? ==>
          && (b.min.Some? ==> !env.less(x.text, b.min.value))
          && (b.max.Some? ==> !env.less(b.max.value, x.text)))
    && (x.Str? ==>
          && (b.maxLength.Some? ==> !env.less(b.maxLength.value, env.count(|x.s|)))
          && (b.pattern.Some? ==> env.matches(b.pattern.value, x.s)))
  }

  predicate SizeOk(env: Env, b: Bounds, n: nat) {
    && (b.minItems.Some? ==> !env.less(env.count(n), b.minItems.value))
    && (b.maxItems.Some? ==> !env.less(b.maxItems.value, env.count(n)))
  }

  predicate PartOk(env: Env, b: Bounds, c: Json) {
    && (c.Arr? ==> SizeOk(env, b, |c.items|))
    && (c.Obj? ==> SizeOk(env, b, |c.members|))
    && (c.Obj? && b.semantic == Some("azure_tag_map") ==>
          forall i, j :: 0 <= i < j < |c.members| ==> env.fold(c.members[i].key) != env.fold(c.members[j].key))
  }

  /** A value is in bounds: every scalar in it keeps the bounds, and every list and map has a size that does. */
  ghost predicate InBounds(env: Env, b: Bounds, v: Json) {
    (forall x :: LeafOf(x, v) ==> LeafOk(env, b, x)) && (forall c :: PartOf(c, v) ==> PartOk(env, b, c))
  }

  lemma ScalarOutsideIff(env: Env, b: Bounds, x: Json)
    ensures ScalarOutside(env, b, x) <==> !LeafOk(env, b, x)
  {
  }

  lemma PartOutsideIff(env: Env, b: Bounds, c: Json)
    ensures c.Arr? ==> (CountOutside(env, b, |c.items|) <==> !PartOk(env, b, c))
    ensures c.Obj? ==>
              (CountOutside(env, b, |c.members|) || (b.semantic == Some(AZURE_TAG_MAP) && FoldsCollide(env, c.members))
               <==> !PartOk(env, b, c))
  {
  }

  /** What the check looks for is exactly what is not in bounds, at any depth. */
  lemma {:induction false} OutOfBoundsIff(env: Env, b: Bounds, v: Json)
    ensures OutOfBounds(env, b, v) <==> !InBounds(env, b, v)
    decreases v
  {
    hide ScalarOutside, LeafOk, PartOk, CountOutside, FoldsCollide;
    match v {
      case Arr(items) =>
        forall i | 0 <= i < |items| ensures OutOfBounds(env, b, items[i]) <==> !InBounds(env, b, items[i]) {
          OutOfBoundsIff(env, b, items[i]);
        }
        PartOutsideIff(env, b, v);
        ArrInBounds(env, b, v);
      case Obj(ms) =>
        forall i | 0 <= i < |ms|
          ensures OutOfBounds(env, b, ms[i].value) <==> !InBounds(env, b, ms[i].value)
          ensures ScalarOutside(env, b, Str(ms[i].key)) <==> !LeafOk(env, b, Str(ms[i].key))
        {
          OutOfBoundsIff(env, b, ms[i].value);
          ScalarOutsideIff(env, b, Str(ms[i].key));
        }
        PartOutsideIff(env, b, v);
        ObjInBounds(env, b, v);
      case _ =>
        ScalarOutsideIff(env, b, v);
        assert LeafOf(v, v);
    }
  }

  lemma ArrInBounds(env: Env, b: Bounds, v: Json)
    requires v.Arr?
    ensures InBounds(env, b, v)
            <==> PartOk(env, b, v) && forall i :: 0 <= i < |v.items| ==> InBounds(env, b, v.items[i])
  {
    hide LeafOk, PartOk;
    if InBounds(env, b, v) {
      assert PartOf(v, v);
      forall i | 0 <= i < |v.items| ensures InBounds(env, b, v.items[i]) {
        forall x | LeafOf(x, v.items[i]) ensures LeafOk(env, b, x) { assert LeafOf(x, v); }
        forall c | PartOf(c, v.items[i]) ensures PartOk(env, b, c) { assert PartOf(c, v); }
      }
    }
    if PartOk(env, b, v) && forall i :: 0 <= i < |v.items| ==> InBounds(env, b, v.items[i]) {
      forall x | LeafOf(x, v) ensures LeafOk(env, b, x) {
        var i :| 0 <= i < |v.items| && LeafOf(x, v.items[i]);
      }
      forall c | PartOf(c, v) ensures PartOk(env, b, c) {
        if c != v { var i :| 0 <= i < |v.items| && PartOf(c, v.items[i]); }
      }
    }
  }

  lemma ObjInBounds(env: Env, b: Bounds, v: Json)
    requires v.Obj?
    ensures InBounds(env, b, v)
            <==> PartOk(env, b, v)
                 && forall i :: 0 <= i < |v.members| ==>
                      LeafOk(env, b, Str(v.members[i].key)) && InBounds(env, b, v.members[i].value)
  {
    hide LeafOk, PartOk;
    var ms := v.members;
    if InBounds(env, b, v) {
      assert PartOf(v, v);
      forall i | 0 <= i < |ms| ensures LeafOk(env, b, Str(ms[i].key)) && InBounds(env, b, ms[i].value) {
        assert LeafOf(Str(ms[i].key), v);
        forall x | LeafOf(x, ms[i].value) ensures LeafOk(env, b, x) { assert LeafOf(x, v); }
        forall c | PartOf(c, ms[i].value) ensures PartOk(env, b, c) { assert PartOf(c, v); }
      }
    }
    if PartOk(env, b, v)
       && forall i :: 0 <= i < |ms| ==> LeafOk(env, b, Str(ms[i].key)) && InBounds(env, b, ms[i].value)
    {
      forall x | LeafOf(x, v) ensures LeafOk(env, b, x) {
        var i :| 0 <= i < |ms| && (x == Str(ms[i].key) || LeafOf(x, ms[i].value));
      }
      forall c | PartOf(c, v) ensures PartOk(env, b, c) {
        if c != v { var i :| 0 <= i < |ms| && PartOf(c, ms[i].value); }
      }
    }
  }

  /** A condition is met: its controller has a value, and is what `equals` says, or else not what `notEquals` says. */
  predicate Applies(env: Env, p: Param, r: seq<Member>) {
    match p.dependsOn
    case None => true
    case Some(Condition(name, equals, notEquals)) =>
      var c := Field(r, name);
      && c != Undefined && c != Null && c != Str("")
      && match equals
         case Some(e) => env.text(c) == env.text(e)
         case None => notEquals.Some? && env.text(c) != env.text(notEquals.value)
  }

  /** A value that counts as given: neither undefined nor null nor an empty list. */
  predicate Given(v: Json) { v != Undefined && v != Null && !(v.Arr? && |v.items| == 0) }

  /** What a definition asks of the record it applies to, the fields of repeated blocks aside. */
  ghost predicate PlaceOk(env: Env, p: Param, r: seq<Member>) {
    Applies(env, p, r) ==>
      var v := Field(r, p.name);
      if !Given(v) then !p.required
      else if p.nesting.Repeated? then
        && v.Arr? && (p.bounds.Some? ==> SizeOk(env, p.bounds.value, |v.items|))
        && forall i :: 0 <= i < |v.items| ==> v.items[i].Obj?
      else p.bounds.Some? ==> InBounds(env, p.bounds.value, v)
  }

  /** `p` is there for the record `r`: the submitted one, or an instance of a block that applies, at any depth. */
  ghost predicate Place(env: Env, params: seq<Param>, rec: seq<Member>, p: Param, r: seq<Member>)
    decreases params
  {
    || (p in params && r == rec)
    || exists q, i ::
         && q in params && q.nesting.Repeated? && Applies(env, q, rec)
         && Field(rec, q.name).Arr? && 0 <= i < |Field(rec, q.name).items| && Field(rec, q.name).items[i].Obj?
         && Place(env, q.nesting.fields, Field(rec, q.name).items[i].members, p, r)
  }

  /** A record keeps the rules: every definition is content with every record it applies to. */
  ghost predicate RecordOk(env: Env, params: seq<Param>, rec: seq<Member>) {
    forall p, r :: Place(env, params, rec, p, r) ==> PlaceOk(env, p, r)
  }

  lemma AppliesIff(env: Env, p: Param, rec: seq<Member>)
    ensures IsActive(env, p, rec) <==> Applies(env, p, rec)
    ensures Absent(Field(rec, p.name)) <==> !Given(Field(rec, p.name))
  {
  }

  /** The instances of a repeated block that applies keep the rules of its fields. */
  ghost predicate InstancesOk(env: Env, p: Param, rec: seq<Member>) {
    p.nesting.Repeated? && Applies(env, p, rec) && Field(rec, p.name).Arr? ==>
      forall i :: 0 <= i < |Field(rec, p.name).items| && Field(rec, p.name).items[i].Obj? ==>
        RecordOk(env, p.nesting.fields, Field(rec, p.name).items[i].members)
  }

  lemma RecordOkOfEach(env: Env, params: seq<Param>, rec: seq<Member>)
    ensures RecordOk(env, params, rec) <==> forall p :: p in params ==> PlaceOk(env, p, rec) && InstancesOk(env, p, rec)
  {
    hide PlaceOk, Applies;
    if RecordOk(env, params, rec) {
      forall q | q in params ensures PlaceOk(env, q, rec) && InstancesOk(env, q, rec) {
        assert Place(env, params, rec, q, rec);
        if q.nesting.Repeated? && Applies(env, q, rec) && Field(rec, q.name).Arr? {
          forall i | 0 <= i < |Field(rec, q.name).items| && Field(rec, q.name).items[i].Obj?
            ensures RecordOk(env, q.nesting.fields, Field(rec, q.name).items[i].members)
          {
            forall p, r | Place(env, q.nesting.fields, Field(rec, q.name).items[i].members, p, r)
              ensures PlaceOk(env, p, r)
            {
              assert Place(env, params, rec, p, r);
            }
          }
        }
      }
    }
    if forall p :: p in params ==> PlaceOk(env, p, rec) && InstancesOk(env, p, rec) {
      forall p, r | Place(env, params, rec, p, r) ensures PlaceOk(env, p, r) {
        if !(p in params && r == rec) {
          var q, i :| && q in params && q.nesting.Repeated? && Applies(env, q, rec)
            && Field(rec, q.name).Arr? && 0 <= i < |Field(rec, q.name).items| && Field(rec, q.name).items[i].Obj?
            && Place(env, q.nesting.fields, Field(rec, q.name).items[i].members, p, r);
          assert InstancesOk(env, q, rec);
        }
      }
    }
  }

  lemma {:induction false} FailsIff(env: Env, p: Param, rec: seq<Member>)
    ensures Fails(env, p, rec) <==> !(PlaceOk(env, p, rec) && InstancesOk(env, p, rec))
    decreases p, 1
  {
    AppliesIff(env, p, rec);
    var v := Field(rec, p.name);
    hide IsActive, Applies, Absent, Given, OutOfBounds, InBounds, CountOutside, SizeOk, RecordOk, InstancesFail;
    NothingGiven(v);
    if p.nesting.Repeated? {
      InstancesFailIff(env, p, v);
    } else if p.bounds.Some? {
      OutOfBoundsIff(env, p.bounds.value, v);
    }
  }

  /** A repeated block: a list of the right length, of records that keep the rules of its fields. */
  ghost predicate BlockOk(env: Env, p: Param, v: Json)
    requires p.nesting.Repeated?
  {
    && v.Arr? && (p.bounds.Some? ==> SizeOk(env, p.bounds.value, |v.items|))
    && forall i :: 0 <= i < |v.items| ==> v.items[i].Obj? && RecordOk(env, p.nesting.fields, v.items[i].members)
  }

  lemma {:induction false} InstancesFailIff(env: Env, p: Param, v: Json)
    requires p.nesting.Repeated?
    ensures InstancesFail(env, p, v) <==> !BlockOk(env, p, v)
    decreases p, 0
  {
    hide CountOutside, SizeOk, RecordOk, Fails;
    if v.Arr? {
      if p.bounds.Some? { CountOutsideIff(env, p.bounds.value, |v.items|); }
      forall i | 0 <= i < |v.items|
        ensures InstanceFails(env, p, p.nesting.fields, v.items[i])
                <==> !(v.items[i].Obj? && RecordOk(env, p.nesting.fields, v.items[i].members))
      {
        if v.items[i].Obj? { InstanceFailsIff(env, p, v.items[i]); }
      }
    }
  }

  lemma NothingGiven(v: Json)
    ensures v.Arr? ==> (Given(v) <==> v.items != [])
  {
  }

  lemma CountOutsideIff(env: Env, b: Bounds, n: nat)
    ensures CountOutside(env, b, n) <==> !SizeOk(env, b, n)
  {
  }

  lemma {:induction false} InstanceFailsIff(env: Env, p: Param, instance: Json)
    requires p.nesting.Repeated? && instance.Obj?
    ensures InstanceFails(env, p, p.nesting.fields, instance) <==> !RecordOk(env, p.nesting.fields, instance.members)
    decreases p, 0, 0
  {
    hide Fails, PlaceOk, InstancesOk, RecordOk;
    var fields := p.nesting.fields;
    forall f | f in fields
      ensures Fails(env, f, instance.members)
              <==> !(PlaceOk(env, f, instance.members) && InstancesOk(env, f, instance.members))
    {
      FailsIff(env, f, instance.members);
    }
    RecordOkOfEach(env, fields, instance.members);
  }

  /** Main result on the rules: a record is accepted exactly if it keeps every rule at every place. */
  lemma AcceptsIff(env: Env, params: seq<Param>, rec: seq<Member>)
    ensures Accepts(env, params, rec) <==> RecordOk(env, params, rec)
  {
    hide Fails, PlaceOk, InstancesOk, RecordOk;
    forall p | p in params
      ensures Fails(env, p, rec) <==> !(PlaceOk(env, p, rec) && InstancesOk(env, p, rec))
    {
      FailsIff(env, p, rec);
    }
    RecordOkOfEach(env, params, rec);
  }

  lemma FailsAlone(env: Env, p: Param, rec: seq<Member>)
    ensures Fails(env, p, rec) <==> !RecordOk(env, [p], rec)
  {
    hide Fails, RecordOk;
    AcceptsIff(env, [p], rec);
    assert p in [p];
  }

  // ---- tighter rules -------------------------------------------------------------------------------

  /** The order of numbers: what is not below `y`, where `y` is not below `z`, is not below `z`. */
  ghost predicate Ordering(env: Env) {
    forall x, y, z :: !env.less(x, y) && !env.less(y, z) ==> !env.less(x, z)
  }

  /** Wherever one rule has a floor, the other has one that is not below it. */
  predicate Floor(env: Env, a: Option<string>, b: Option<string>) {
    b.Some? ==> a.Some? && !env.less(a.value, b.value)
  }

  predicate Ceiling(env: Env, a: Option<string>, b: Option<string>) {
    b.Some? ==> a.Some? && !env.less(b.value, a.value)
  }

  predicate TighterBounds(env: Env, a: Bounds, b: Bounds) {
    && (b.allowlist.Some? ==> a.allowlist.Some? && forall x :: x in a.allowlist.value ==> x in b.allowlist.value)
    && Floor(env, a.min, b.min) && Ceiling(env, a.max, b.max)
    && Floor(env, a.minItems, b.minItems) && Ceiling(env, a.maxItems, b.maxItems)
    && Ceiling(env, a.maxLength, b.maxLength)
    && (b.pattern.Some? ==> a.pattern == b.pattern)
    && (b.semantic == Some(AZURE_TAG_MAP) ==> a.semantic == b.semantic)
  }

  predicate TighterParam(env: Env, a: Param, b: Param)
    decreases b
  {
    && a.name == b.name && a.dependsOn == b.dependsOn && (b.required ==> a.required)
    && (b.bounds.Some? ==> a.bounds.Some? && TighterBounds(env, a.bounds.value, b.bounds.value))
    && (a.nesting.Repeated? <==> b.nesting.Repeated?)
    && (b.nesting.Repeated? ==>
          forall g :: g in b.nesting.fields ==> exists f :: f in a.nesting.fields && TighterParam(env, f, g))
  }

  /** Every definition of `bs` has one at least as tight in `as_`. */
  predicate Tighter(env: Env, as_: seq<Param>, bs: seq<Param>) {
    forall b :: b in bs ==> exists a :: a in as_ && TighterParam(env, a, b)
  }

  lemma LooserLeaf(env: Env, a: Bounds, b: Bounds, x: Json)
    requires Ordering(env) && TighterBounds(env, a, b) && LeafOk(env, a, x)
    ensures LeafOk(env, b, x)
  {
  }

  lemma LooserSize(env: Env, a: Bounds, b: Bounds, n: nat)
    requires Ordering(env) && TighterBounds(env, a, b) && SizeOk(env, a, n)
    ensures SizeOk(env, b, n)
  {
  }

  lemma LooserInBounds(env: Env, a: Bounds, b: Bounds, v: Json)
    requires Ordering(env) && TighterBounds(env, a, b) && InBounds(env, a, v)
    ensures InBounds(env, b, v)
  {
    hide Ordering, LeafOk, SizeOk, LeafOf, PartOf;
    forall x | LeafOf(x, v) ensures LeafOk(env, b, x) { LooserLeaf(env, a, b, x); }
    forall c | PartOf(c, v) ensures PartOk(env, b, c) {
      assert PartOk(env, a, c);
      if c.Arr? { LooserSize(env, a, b, |c.items|); }
      if c.Obj? { LooserSize(env, a, b, |c.members|); }
    }
  }

  lemma {:induction false} LooserParam(env: Env, a: Param, b: Param, rec: seq<Member>)
    requires Ordering(env) && TighterParam(env, a, b) && RecordOk(env, [a], rec)
    ensures RecordOk(env, [b], rec)
    decreases b
  {
    RecordOkOfEach(env, [a], rec);
    RecordOkOfEach(env, [b], rec);
    hide Ordering, InBounds, TighterBounds, SizeOk, RecordOk;
    assert a in [a] && PlaceOk(env, a, rec) && InstancesOk(env, a, rec);
    var v := Field(rec, b.name);
    assert PlaceOk(env, b, rec) by {
      if b.bounds.Some? && Applies(env, b, rec) && Given(v) {
        if b.nesting.Repeated? {
          LooserSize(env, a.bounds.value, b.bounds.value, |v.items|);
        } else {
          LooserInBounds(env, a.bounds.value, b.bounds.value, v);
        }
      }
    }
    if b.nesting.Repeated? && Applies(env, b, rec) && v.Arr? {
      forall i | 0 <= i < |v.items| && v.items[i].Obj? ensures RecordOk(env, b.nesting.fields, v.items[i].members) {
        LooserRecord(env, a.nesting.fields, b.nesting.fields, b, v.items[i].members);
      }
    }
  }

  lemma {:induction false} LooserRecord(env: Env, as_: seq<Param>, bs: seq<Param>, whole: Param, rec: seq<Member>)
    requires Ordering(env) && Tighter(env, as_, bs) && RecordOk(env, as_, rec)
    requires forall b :: b in bs ==> b < whole
    ensures RecordOk(env, bs, rec)
    decreases whole, 0
  {
    hide Ordering, TighterParam, PlaceOk, InstancesOk, RecordOk;
    RecordOkOfEach(env, as_, rec);
    RecordOkOfEach(env, bs, rec);
    forall b | b in bs ensures PlaceOk(env, b, rec) && InstancesOk(env, b, rec) {
      var a :| a in as_ && TighterParam(env, a, b);
      RecordOkOfEach(env, [a], rec);
      RecordOkOfEach(env, [b], rec);
      LooserParam(env, a, b, rec);
      assert b in [b];
    }
  }

  /** Main result on tightening: definitions that are tighter never accept a record that looser ones refuse. */
  lemma TighterRefusesMore(env: Env, as_: seq<Param>, bs: seq<Param>, rec: seq<Member>)
    requires Ordering(env) && Tighter(env, as_, bs) && Accepts(env, as_, rec)
    ensures Accepts(env, bs, rec)
  {
    hide Ordering, TighterParam, Fails, RecordOk;
    forall b | b in bs ensures !Fails(env, b, rec) {
      var a :| a in as_ && TighterParam(env, a, b);
      FailsAlone(env, a, rec);
      FailsAlone(env, b, rec);
      LooserParam(env, a, b, rec);
    }
  }

  // ---- the checks ----------------------------------------------------------------------------------

  method ParamOutOfBounds(env: Env, b: Bounds, val: Json) returns (bad: bool)
    ensures bad <==> OutOfBounds(env, b, val)
    ensures bad <==> !InBounds(env, b, val)
    decreases val
  {
    hide InBounds;
    OutOfBoundsIff(env, b, val);
    match val {
      case Arr(items) =>
        if CountOutside(env, b, |items|) { return true; }
        for i := 0 to |items|
          invariant forall k :: 0 <= k < i ==> !OutOfBounds(env, b, items[k])
        {
          var outside := ParamOutOfBounds(env, b, items[i]);
          if outside { return true; }
        }
        return false;
      case Obj(ms) =>
        if CountOutside(env, b, |ms|) { return true; }
        if b.semantic == Some(AZURE_TAG_MAP) {
          var collide := CollidingFolds(env, ms);
          if collide { return true; }
        }
        for i := 0 to |ms|
          invariant forall k :: 0 <= k < i ==>
                    !ScalarOutside(env, b, Str(ms[k].key)) && !OutOfBounds(env, b, ms[k].value)
        {
          if ScalarOutside(env, b, Str(ms[i].key)) { return true; }
          var outside := ParamOutOfBounds(env, b, ms[i].value);
          if outside { return true; }
        }
        return false;
      case _ =>
        return ScalarOutside(env, b, val);
    }
  }

  method CollidingFolds(env: Env, ms: seq<Member>) returns (collide: bool)
    ensures collide <==> FoldsCollide(env, ms)
  {
    var folds: set<string> := {};
    for i := 0 to |ms|
      invariant folds == set k | 0 <= k < i :: env.fold(ms[k].key)
      invariant forall j, k :: 0 <= j < k < i ==> env.fold(ms[j].key) != env.fold(ms[k].key)
    {
      var fold := env.fold(ms[i].key);
      if fold in folds { return true; }
      folds := folds + {fold};
    }
    return false;
  }

  method RepeatedOutOfBounds(env: Env, p: Param, val: Json) returns (bad: bool)
    requires p.nesting.Repeated?
    ensures bad <==> InstancesFail(env, p, val)
    ensures bad <==> !BlockOk(env, p, val)
    decreases p, 0
  {
    hide BlockOk;
    InstancesFailIff(env, p, val);
    if !val.Arr? { return true; }
    if p.bounds.Some? && CountOutside(env, p.bounds.value, |val.items|) { return true; }
    var fields := p.nesting.fields;
    for i := 0 to |val.items|
      invariant forall k :: 0 <= k < i ==> !InstanceFails(env, p, fields, val.items[k])
    {
      var instance := val.items[i];
      if !instance.Obj? { return true; }
      var rec := instance.members;
      for j := 0 to |fields|
        invariant forall k :: 0 <= k < j ==> !Fails(env, fields[k], rec)
      {
        var f := fields[j];
        if !IsActive(env, f, rec) { continue; }
        var fv := Field(rec, f.name);
        if Absent(fv) {
          if f.required {
            OneFieldFails(env, p, val, i, j);
            return true;
          }
          continue;
        }
        var outside := ValueOutOfBounds(env, f, fv);
        if outside {
          OneFieldFails(env, p, val, i, j);
          return true;
        }
      }
    }
    return false;
  }

  method ValueOutOfBounds(env: Env, p: Param, val: Json) returns (bad: bool)
    ensures bad <==> ValueFails(env, p, val)
    decreases p, 1
  {
    if p.nesting.Repeated? {
      bad := RepeatedOutOfBounds(env, p, val);
    } else if p.bounds.Some? {
      bad := ParamOutOfBounds(env, p.bounds.value, val);
    } else {
      bad := false;
    }
  }

  lemma FailsStep(env: Env, p: Param, rec: seq<Member>)
    ensures Fails(env, p, rec)
            <==> var v := Field(rec, p.name);
                 IsActive(env, p, rec) && if Absent(v) then p.required else ValueFails(env, p, v)
  {
  }

  lemma FirstToFail(env: Env, params: seq<Param>, rec: seq<Member>, i: nat)
    requires i < |params| && Fails(env, params[i], rec) && forall k :: 0 <= k < i ==> !Fails(env, params[k], rec)
    ensures !RecordOk(env, [params[i]], rec) && forall k :: 0 <= k < i ==> RecordOk(env, [params[k]], rec)
    ensures !Accepts(env, params, rec)
  {
    hide Fails, RecordOk;
    forall k | 0 <= k <= i ensures Fails(env, params[k], rec) <==> !RecordOk(env, [params[k]], rec) {
      FailsAlone(env, params[k], rec);
    }
    assert params[i] in params;
  }

  datatype ParamCheck = Ok | ValidationFailed | ParamOutOfBoundsCode

  /**
   * Whether a record is accepted does not depend on the order of the parameters; the refusal
   * code is that of the first that fails.
   */
  method ValidateParams(env: Env, params: seq<Param>, rec: seq<Member>) returns (r: ParamCheck)
    ensures r.Ok? <==> Accepts(env, params, rec)
    ensures r.Ok? <==> RecordOk(env, params, rec)
    ensures !r.Ok? ==>
              exists i :: 0 <= i < |params| && !RecordOk(env, [params[i]], rec)
                && (forall k :: 0 <= k < i ==> RecordOk(env, [params[k]], rec))
                && r == (if Given(Field(rec, params[i].name)) then ParamOutOfBoundsCode else ValidationFailed)
  {
    hide Fails, RecordOk, IsActive, Absent, Given;
    AcceptsIff(env, params, rec);
    for i := 0 to |params|
      invariant forall k :: 0 <= k < i ==> !Fails(env, params[k], rec)
    {
      var p := params[i];
      FailsStep(env, p, rec);
      AppliesIff(env, p, rec);
      if !IsActive(env, p, rec) { continue; }
      var val := Field(rec, p.name);
      if Absent(val) {
        if p.required {
          FirstToFail(env, params, rec, i);
          return ValidationFailed;
        }
        continue;
      }
      var bad := ValueOutOfBounds(env, p, val);
      if bad {
        FirstToFail(env, params, rec, i);
        return ParamOutOfBoundsCode;
      }
    }
    return Ok;
  }
}
