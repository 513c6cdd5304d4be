/**
 * The comparison of a served operation definition with the bundled one, and what it buys:
 * when no skew is found, both definitions accept the same submissions.
 */
module CatalogSkew {
  import opened Strings
  import opened Json
  import opened Manifests
  import opened Sorting

  const PRESENTATION_OP_FIELDS: set<string> := {"title", "summary", "consoleLabel", "description", "pinned", "keywords"}
  const PRESENTATION_PARAM_FIELDS: set<string> := {"label", "help", "sensitive", "group", "tier", "uiWidget"}

  // ---- structural equality ---------------------------------------------------------------------

  const PROTO := "__proto__"

  /** Names every JavaScript object inherits a method under. */
  const METHODS: set<string> :=
    {"constructor", "hasOwnProperty", "isPrototypeOf", "propertyIsEnumerable", "toLocaleString", "toString", "valueOf",
     "__defineGetter__", "__defineSetter__", "__lookupGetter__", "__lookupSetter__"}

  /** A value that went through JSON.parse: no undefined anywhere, keys distinct. */
  predicate Parsed(v: Json) {
    match v
    case Undefined => false
    case Arr(items) => forall i :: 0 <= i < |items| ==> Parsed(items[i])
    case Obj(ms) => DistinctKeys(ms) && forall i :: 0 <= i < |ms| ==> Parsed(ms[i].value)
    case _ => true
  }

  /** Equal to what an object without an own `__proto__` answers when asked for it. */
  predicate EqualsObjectPrototype(v: Json) {
    v.Obj? && forall m :: m in v.members ==> m.key == PROTO && m.value == Null
  }

  /** Compared with a key the other side does not have. */
  predicate EqualsMissing(m: Member) {
    if m.key == PROTO then EqualsObjectPrototype(m.value) else m.key !in METHODS && m.value == Undefined
  }

  /**
   * deepEqual: the keys of both sides are read on both sides, and reading a key that an
   * object does not have finds what it inherits.
   */
  predicate DeepEqual(a: Json, b: Json) {
    match (a, b)
    case (Arr(xs), Arr(ys)) =>
      |xs| == |ys| && forall i :: 0 <= i < |xs| ==> DeepEqual(xs[i], ys[i])
    case (Obj(ms), Obj(ns)) =>
      && (forall i, j :: 0 <= i < |ms| && 0 <= j < |ns| && ms[i].key == ns[j].key ==>
            DeepEqual(ms[i].value, ns[j].value))
      && (forall m :: m in ms && m.key !in Keys(ns) ==> EqualsMissing(m))
      && (forall n :: n in ns && n.key !in Keys(ms) ==> EqualsMissing(n))
    case _ => a == b
  }

  /** Wherever two objects meet, `__proto__` is a key of both or of neither. */
  predicate ProtoKeysMatch(a: Json, b: Json) {
    match (a, b)
    case (Arr(xs), Arr(ys)) =>
      |xs| == |ys| ==> forall i :: 0 <= i < |xs| ==> ProtoKeysMatch(xs[i], ys[i])
    case (Obj(ms), Obj(ns)) =>
      && (PROTO in Keys(ms) <==> PROTO in Keys(ns))
      && forall i, j :: 0 <= i < |ms| && 0 <= j < |ns| && ms[i].key == ns[j].key ==>
           ProtoKeysMatch(ms[i].value, ns[j].value)
    case _ => true
  }

  /**
   * On JSON, deepEqual is structural equality up to member order exactly where `__proto__`
   * keys match: an own `__proto__` on one side only can go unnoticed.
   */
  lemma {:induction false} DeepEqualExact(a: Json, b: Json)
    requires Parsed(a) && Parsed(b)
    ensures DeepEqual(a, b) && ProtoKeysMatch(a, b) <==> Same(a, b)
  {
    match (a, b) {
      case (Arr(xs), Arr(ys)) =>
        if |xs| == |ys| {
          forall i | 0 <= i < |xs|
            ensures DeepEqual(xs[i], ys[i]) && ProtoKeysMatch(xs[i], ys[i]) <==> Same(xs[i], ys[i])
          {
            DeepEqualExact(xs[i], ys[i]);
          }
        }
      case (Obj(ms), Obj(ns)) =>
        forall i, j | 0 <= i < |ms| && 0 <= j < |ns|
          ensures DeepEqual(ms[i].value, ns[j].value) && ProtoKeysMatch(ms[i].value, ns[j].value)
                  <==> Same(ms[i].value, ns[j].value)
        {
          DeepEqualExact(ms[i].value, ns[j].value);
        }
        UnmatchedKeys(ms, ns);
        UnmatchedKeys(ns, ms);
      case _ =>
    }
  }

  /** Parsed members that equal a missing key are all called `__proto__`. */
  lemma UnmatchedKeys(ms: seq<Member>, ns: seq<Member>)
    requires Parsed(Obj(ms))
    ensures (forall m :: m in ms && m.key !in Keys(ns) ==> EqualsMissing(m)) ==> Keys(ms) <= Keys(ns) + {PROTO}
    ensures Keys(ms) <= Keys(ns) ==> forall m :: m in ms && m.key !in Keys(ns) ==> EqualsMissing(m)
  {
    assert forall m :: m in ms ==> m.key in Keys(ms) && m.value != Undefined;
  }

  const PLAIN: Json := Obj([])
  const NULL_PROTO: Json := Obj([Member(PROTO, Null)])

  lemma OnlyNullProto(ms: seq<Member>)
    requires ms != [] && DistinctKeys(ms) && forall m :: m in ms ==> m.key == PROTO && m.value == Null
    ensures ms == [Member(PROTO, Null)]
  {
    var last := ms[|ms| - 1];
    assert ms[0] in ms && last in ms && ms[0].key == last.key;
  }

  /** What goes unnoticed: an own `__proto__` that is empty, or that holds nothing but a null `__proto__`. */
  lemma UnnoticedProto(v: Json)
    requires Parsed(v)
    ensures DeepEqual(PLAIN, Obj([Member("__proto__", v)]))
            <==> v == Obj([]) || v == Obj([Member("__proto__", Null)])
    ensures !Same(PLAIN, Obj([Member(PROTO, v)]))
  {
    var ms := [Member(PROTO, v)];
    assert Keys(ms) == {PROTO} && Keys([]) == {};
    assert ms[0] in ms;
    if v.Obj? && EqualsObjectPrototype(v) && v.members != [] { OnlyNullProto(v.members); }
  }

  /** So deepEqual is no equivalence: one object equals two that are not equal. */
  lemma DeepEqualIsNotTransitive()
    ensures var own, nested := Obj([Member(PROTO, PLAIN)]), Obj([Member(PROTO, NULL_PROTO)]);
            DeepEqual(PLAIN, own) && DeepEqual(PLAIN, nested) && !DeepEqual(own, nested)
  {
    assert !DeepEqual(PLAIN, NULL_PROTO) by {
      assert NULL_PROTO.members[0] in NULL_PROTO.members && !EqualsMissing(NULL_PROTO.members[0]);
    }
    hide EqualsMissing;
    UnnoticedProto(PLAIN);
    UnnoticedProto(NULL_PROTO);
    var ms, ns := [Member(PROTO, PLAIN)], [Member(PROTO, NULL_PROTO)];
    assert ms[0].key == ns[0].key && !DeepEqual(ms[0].value, ns[0].value);
  }

  // ---- the comparison --------------------------------------------------------------------------

  /** `===`-style agreement of what two objects answer for a key. */
  predicate SlotsEqual(ms: seq<Member>, ns: seq<Member>, k: string) {
    if k in Keys(ms) && k in Keys(ns) then DeepEqual(Field(ms, k), Field(ns, k))
    else if k in Keys(ms) then EqualsMissing(Member(k, Field(ms, k)))
    else k in Keys(ns) ==> EqualsMissing(Member(k, Field(ns, k)))
  }

  /**
   * Of parsed objects: a key of both has deeply equal values, and a key of just one is `__proto__`
   * with the empty object, or one that holds just a null `__proto__`.
   */
  lemma SlotsEqualIff(ms: seq<Member>, ns: seq<Member>, k: string)
    requires Parsed(Obj(ms)) && Parsed(Obj(ns))
    ensures SlotsEqual(ms, ns, k)
            <==> if k in Keys(ms) && k in Keys(ns) then DeepEqual(Field(ms, k), Field(ns, k))
                 else k in Keys(ms) + Keys(ns) ==>
                   k == "__proto__"
                   && (if k in Keys(ms) then Field(ms, k) else Field(ns, k))
                      in {Obj([]), Obj([Member("__proto__", Null)])}
  {
    hide DeepEqual, EqualsObjectPrototype;
    if k in Keys(ms) { FieldIsParsed(ms, k); }
    if k in Keys(ns) { FieldIsParsed(ns, k); }
  }

  lemma {:induction false} FieldIsParsed(ms: seq<Member>, k: string)
    requires Parsed(Obj(ms)) && k in Keys(ms)
    ensures Parsed(Field(ms, k)) && Field(ms, k) != Undefined
    ensures EqualsObjectPrototype(Field(ms, k)) <==> Field(ms, k) in {Obj([]), Obj([Member("__proto__", Null)])}
  {
    var i :| 0 <= i < |ms| && ms[i].key == k;
    FieldOfMember(ms, i);
    PrototypeIs(ms[i].value);
  }

  lemma {:induction false} FieldOfMember(ms: seq<Member>, i: nat)
    requires DistinctKeys(ms) && i < |ms|
    ensures Field(ms, ms[i].key) == ms[i].value
  {
    if i > 0 { FieldOfMember(ms[1..], i - 1); }
  }

  lemma PrototypeIs(v: Json)
    requires Parsed(v)
    ensures EqualsObjectPrototype(v) <==> v in {Obj([]), Obj([Member("__proto__", Null)])}
  {
    if v.Obj? && EqualsObjectPrototype(v) && v.members != [] { OnlyNullProto(v.members); }
  }

  /** A key on which two definitions really disagree, presentation aside. */
  predicate Diverges(bundled: seq<Member>, served: seq<Member>, presentation: set<string>, k: string) {
    k in Keys(bundled) + Keys(served) && k !in presentation && k != "params" && !SlotsEqual(bundled, served, k)
  }

  method CompareFields(bundled: seq<Member>, served: seq<Member>, presentation: set<string>, prefix: string)
    returns (out: seq<string>)
    ensures forall path :: path in out <==> exists k :: Diverges(bundled, served, presentation, k) && path == prefix + k
  {
    hide SlotsEqual;
    out := [];
    var left := Keys(bundled) + Keys(served);
    ghost var done: set<string> := {};
    while left != {}
      invariant done + left == Keys(bundled) + Keys(served)
      invariant forall path ::
        path in out <==> exists k :: k in done && Diverges(bundled, served, presentation, k) && path == prefix + k
      decreases left
    {
      var k :| k in left;
      left, done := left - {k}, done + {k};
      if k in presentation { continue; }
      if k == "params" { continue; }
      if !SlotsEqual(bundled, served, k) { out := out + [prefix + k]; }
    }
  }

  predicate Named(p: Json) { p.Obj? && Field(p.members, "name").Str? }

  function NameOf(p: Json): string
    requires Named(p)
  {
    Field(p.members, "name").s
  }

  predicate NamedDistinctly(list: seq<Json>) {
    && (forall i :: 0 <= i < |list| ==> Named(list[i]))
    && (forall i, j :: 0 <= i < j < |list| ==> NameOf(list[i]) != NameOf(list[j]))
  }

  /** The parameters of a list by name: of those of one name, the last one. */
  function ByNameMap(list: seq<Json>): map<string, seq<Member>> {
    if list == [] then map[]
    else
      var m, p := ByNameMap(list[..|list| - 1]), list[|list| - 1];
      if Named(p) then m[NameOf(p) := p.members] else m
  }

  predicate Called(p: Json, name: string) { Named(p) && NameOf(p) == name }

  /** A name that is found belongs to a parameter of the list. */
  lemma {:induction false} FoundIsThere(list: seq<Json>, name: string) returns (i: nat)
    requires name in ByNameMap(list)
    ensures i < |list| && list[i] == Obj(ByNameMap(list)[name]) && Called(list[i], name)
  {
    var p := list[|list| - 1];
    i := |list| - 1;
    if !(Named(p) && NameOf(p) == name) { i := FoundIsThere(list[..|list| - 1], name); }
  }

  lemma {:induction false} ThereIsFound(list: seq<Json>, name: string, i: nat)
    requires i < |list| && Called(list[i], name)
    ensures name in ByNameMap(list)
  {
    if i < |list| - 1 { ThereIsFound(list[..|list| - 1], name, i); }
  }

  lemma NameIsFound(list: seq<Json>, name: string)
    ensures name in ByNameMap(list) <==> exists i :: 0 <= i < |list| && Called(list[i], name)
    ensures name in ByNameMap(list) ==> Obj(ByNameMap(list)[name]) in list && Called(Obj(ByNameMap(list)[name]), name)
  {
    hide ByNameMap, Called;
    if name in ByNameMap(list) { var i := FoundIsThere(list, name); }
    if i :| 0 <= i < |list| && Called(list[i], name) { ThereIsFound(list, name, i); }
  }

  /** The name map is lossless exactly when every parameter has a name of its own. */
  lemma {:induction false} NameMapLossless(list: seq<Json>)
    ensures |ByNameMap(list)| <= |list|
    ensures |ByNameMap(list)| == |list| <==> NamedDistinctly(list)
  {
    if list != [] {
      var front, p := list[..|list| - 1], list[|list| - 1];
      if Named(p) { NameIsFound(front, NameOf(p)); }
      NameMapLossless(front);
      LastNamed(list);
      var m := ByNameMap(front);
      if Named(p) {
        var name := NameOf(p);
        assert m[name := p.members].Keys == m.Keys + {name};
        assert |m.Keys + {name}| == |m| + if name in m then 0 else 1;
      }
    }
  }

  lemma LastNamed(list: seq<Json>)
    requires list != []
    ensures NamedDistinctly(list) <==>
            var front, p := list[..|list| - 1], list[|list| - 1];
            NamedDistinctly(front) && Named(p) && forall i :: 0 <= i < |front| ==> !Called(front[i], NameOf(p))
  {
    hide Named, NameOf;
    var front, p := list[..|list| - 1], list[|list| - 1];
    assert forall i :: 0 <= i < |front| ==> front[i] == list[i];
    if NamedDistinctly(list) {
      assert Named(p) && NameOf(p) == NameOf(list[|list| - 1]);
    }
    if NamedDistinctly(front) && Named(p) && forall i :: 0 <= i < |front| ==> !Called(front[i], NameOf(p)) {
      forall i, j | 0 <= i < j < |list| ensures NameOf(list[i]) != NameOf(list[j]) {
        if j < |front| { assert NameOf(front[i]) != NameOf(front[j]); } else { assert !Called(front[i], NameOf(p)); }
      }
    }
  }

  function ParamNamed(list: seq<Json>, name: string): Option<seq<Member>> {
    if name in ByNameMap(list) then Some(ByNameMap(list)[name]) else None
  }

  method ByName(list: seq<Json>) returns (m: map<string, seq<Member>>)
    ensures m == ByNameMap(list)
  {
    m := map[];
    for i := 0 to |list|
      invariant m == ByNameMap(list[..i])
    {
      var p := list[i];
      assert list[..i + 1][..i] == list[..i];
      if Named(p) { m := m[NameOf(p) := p.members]; }
    }
    assert list[..|list|] == list;
  }

  function ListOf(v: Json): seq<Json> { if v.Arr? then v.items else [] }

  function ParamsPath(name: string): string { "params." + name }

  const MALFORMED_OPERATION := "<malformed served operation>"
  const MALFORMED_PARAMS := "params.<malformed>"

  /** A path that names a real disagreement between two lists of parameters. */
  ghost predicate ParamSkewAt(bs: seq<Json>, ss: seq<Json>, path: string) {
    || (path == "params.<malformed>" && !(NamedDistinctly(bs) && NamedDistinctly(ss)))
    || exists name :: NameSkewAt(ParamNamed(bs, name), ParamNamed(ss, name), name, path)
  }

  ghost predicate NameSkewAt(bp: Option<seq<Member>>, sp: Option<seq<Member>>, name: string, path: string) {
    if bp.Some? && sp.Some?
    then exists k :: Diverges(bp.value, sp.value, PRESENTATION_PARAM_FIELDS, k) && path == ("params." + name + ".") + k
    else (bp.Some? || sp.Some?) && path == "params." + name
  }

  ghost predicate SkewAt(bundled: seq<Member>, served: Json, path: string) {
    if !served.Obj? then path == "<malformed served operation>"
    else
      || (exists k :: Diverges(bundled, served.members, PRESENTATION_OP_FIELDS, k) && path == "" + k)
      || ParamSkewAt(ListOf(Field(bundled, "params")), ListOf(Field(served.members, "params")), path)
  }

  /** The sorted paths on which two definitions disagree: all of them, and nothing else. */
  method OperationSkew(bundled: seq<Member>, served: Json) returns (fields: seq<string>)
    ensures Sorted(Less, fields)
    ensures forall path :: path in fields <==> SkewAt(bundled, served, path)
  {
    if !served.Obj? { return [MALFORMED_OPERATION]; }
    hide Diverges, Sorted, Sort;
    var s := served.members;
    fields := CompareFields(bundled, s, PRESENTATION_OP_FIELDS, "");
    var paramFields := ParamSkew(ListOf(Field(bundled, "params")), ListOf(Field(s, "params")));
    ghost var unsorted := fields + paramFields;
    fields := Sort(Less, fields + paramFields);
    LessIsWeakOrder();
    Sorting.SortSorts(Less, unsorted);
    forall path ensures path in fields <==> path in unsorted {
      assert path in multiset(fields) <==> path in multiset(unsorted);
    }
  }

  method NameSkew(bp: Option<seq<Member>>, sp: Option<seq<Member>>, name: string) returns (fields: seq<string>)
    requires bp.Some? || sp.Some?
    ensures forall path :: path in fields <==> NameSkewAt(bp, sp, name, path)
  {
    hide Diverges;
    if bp.None? || sp.None? { return [ParamsPath(name)]; }
    fields := CompareFields(bp.value, sp.value, PRESENTATION_PARAM_FIELDS, ParamsPath(name) + ".");
  }

  /** Disagreements under the given names. */
  ghost predicate SkewAmong(bs: seq<Json>, ss: seq<Json>, names: set<string>, path: string) {
    exists name :: name in names && NameSkewAt(ParamNamed(bs, name), ParamNamed(ss, name), name, path)
  }

  lemma AmongGrows(bs: seq<Json>, ss: seq<Json>, names: set<string>, name: string)
    ensures forall path :: SkewAmong(bs, ss, names + {name}, path)
                      <==> SkewAmong(bs, ss, names, path)
                           || NameSkewAt(ParamNamed(bs, name), ParamNamed(ss, name), name, path)
  {
    hide NameSkewAt, ParamNamed;
  }

  lemma AmongAll(bs: seq<Json>, ss: seq<Json>, path: string)
    ensures SkewAmong(bs, ss, ByNameMap(bs).Keys + ByNameMap(ss).Keys, path)
            <==> exists name :: NameSkewAt(ParamNamed(bs, name), ParamNamed(ss, name), name, path)
  {
    hide ByNameMap, Diverges;
  }

  method ParamSkew(bs: seq<Json>, ss: seq<Json>) returns (fields: seq<string>)
    ensures forall path :: path in fields <==> ParamSkewAt(bs, ss, path)
  {
    hide NamedDistinctly, ByNameMap, NameSkewAt;
    fields := [];
    var bMap := ByName(bs);
    var sMap := ByName(ss);
    NameMapLossless(bs);
    NameMapLossless(ss);
    if |bMap| != |bs| || |sMap| != |ss| { fields := fields + [MALFORMED_PARAMS]; }
    ghost var first := fields;
    var left := bMap.Keys + sMap.Keys;
    ghost var done: set<string> := {};
    assert forall path :: !SkewAmong(bs, ss, done, path);
    hide SkewAmong;
    while left != {}
      invariant done + left == bMap.Keys + sMap.Keys
      invariant forall path :: path in fields <==> path in first || SkewAmong(bs, ss, done, path)
      decreases left
    {
      var name :| name in left;
      AmongGrows(bs, ss, done, name);
      left, done := left - {name}, done + {name};
      var out := NameSkew(ParamNamed(bs, name), ParamNamed(ss, name), name);
      fields := fields + out;
    }
    forall path ensures path in fields <==> ParamSkewAt(bs, ss, path) { AmongAll(bs, ss, path); }
  }
}
