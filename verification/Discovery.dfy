/** Building the discovery manifest: every captured record is kept or accounted for, and labelled apart. */
module Discovery {
  import opened Strings
  import opened Labels

  /** A record of a capture: the skip rule it matches, the id it yields, and its display name. */
  datatype Record = Record(skip: Option<string>, id: string, name: string)

  /** A resource type; `records` is None when its capture file is absent. */
  datatype TypeSpec = TypeSpec(kind: string, capture: string, service: string, phase: int, stateful: bool,
                               records: Option<seq<Record>>)

  datatype Row = Row(kind: string, id: string, name: string, service: string, phase: int, stateful: bool,
                     disposition: string)

  datatype Why = SkipRule(reason: string) | DuplicateOf(kind: string, name: string)

  datatype Ignored = Ignored(kind: string, id: string, position: Option<nat>, why: Why)

  // ---- one record after another --------------------------------------------------------------------

  /** A record in the order in which the build meets it. */
  datatype Item = Item(spec: TypeSpec, position: nat, record: Record)

  function ItemsOf(spec: TypeSpec): seq<Item> {
    if spec.records.None? then []
    else seq(|spec.records.value|, i requires 0 <= i < |spec.records.value| => Item(spec, i, spec.records.value[i]))
  }

  function AllItems(specs: seq<TypeSpec>): seq<Item> {
    if specs == [] then [] else AllItems(specs[..|specs| - 1]) + ItemsOf(specs[|specs| - 1])
  }

  predicate Nameless(i: Item) { i.record.skip.None? && i.record.id == "" }

  predicate SameKey(a: Item, b: Item) { a.spec.kind == b.spec.kind && a.record.id == b.record.id }

  /** The first record of its type and id that no rule skips. */
  predicate Kept(items: seq<Item>, k: nat)
    requires k < |items|
  {
    && items[k].record.skip.None?
    && forall j :: 0 <= j < k ==> !(items[j].record.skip.None? && SameKey(items[j], items[k]))
  }

  function RowOf(overrides: map<string, string>, i: Item): Row {
    Row(i.spec.kind, i.record.id, i.record.name, i.spec.service, i.spec.phase, i.spec.stateful,
        if i.record.id in overrides then overrides[i.record.id] else "import")
  }

  function Rows(overrides: map<string, string>, items: seq<Item>): seq<Row> {
    if items == [] then []
    else
      var n := |items| - 1;
      Rows(overrides, items[..n]) + (if Kept(items, n) then [RowOf(overrides, items[n])] else [])
  }

  /** The name of the row that already stands for a type and id. */
  function NameOf(rows: seq<Row>, kind: string, id: string): string {
    if rows == [] then ""
    else if rows[0].kind == kind && rows[0].id == id then rows[0].name
    else NameOf(rows[1..], kind, id)
  }

  function Entry(rows: seq<Row>, i: Item): Ignored {
    if i.record.skip.Some?
    then Ignored(i.spec.kind, i.record.id, if i.record.id == "" then Some(i.position) else None,
                 SkipRule(i.record.skip.value))
    else Ignored(i.spec.kind, i.record.id, None, DuplicateOf(i.spec.kind, NameOf(rows, i.spec.kind, i.record.id)))
  }

  function IgnoredOf(overrides: map<string, string>, items: seq<Item>): seq<Ignored> {
    if items == [] then []
    else
      var n := |items| - 1;
      IgnoredOf(overrides, items[..n]) + (if Kept(items, n) then [] else [Entry(Rows(overrides, items[..n]), items[n])])
  }

  /** Where a record ends up: in one of the two lists, at one index of it. */
  datatype Place = AsRow(index: nat) | AsIgnored(index: nat)

  function PlaceOf(overrides: map<string, string>, items: seq<Item>, k: nat): Place
    requires k < |items|
  {
    if Kept(items, k) then AsRow(|Rows(overrides, items[..k])|) else AsIgnored(|IgnoredOf(overrides, items[..k])|)
  }

  /** The entry at the record's place is the record's own. */
  predicate IsPlaced(overrides: map<string, string>, items: seq<Item>, k: nat)
    requires k < |items|
  {
    match PlaceOf(overrides, items, k)
    case AsRow(i) => i < |Rows(overrides, items)| && Rows(overrides, items)[i] == RowOf(overrides, items[k])
    case AsIgnored(i) =>
      && i < |IgnoredOf(overrides, items)|
      && IgnoredOf(overrides, items)[i] == Entry(Rows(overrides, items[..k]), items[k])
  }

  /** An earlier record has an earlier place in the list it shares with a later one. */
  predicate InOrder(p: Place, q: Place) { p.AsRow? == q.AsRow? ==> p.index < q.index }

  lemma {:induction false} ListsGrow(overrides: map<string, string>, items: seq<Item>, k: nat)
    requires k <= |items|
    ensures Rows(overrides, items[..k]) <= Rows(overrides, items)
    ensures IgnoredOf(overrides, items[..k]) <= IgnoredOf(overrides, items)
  {
    if k < |items| {
      ListsGrow(overrides, items[..|items| - 1], k);
      assert items[..|items| - 1][..k] == items[..k];
    } else {
      assert items[..k] == items;
    }
  }

  lemma NextPlace(overrides: map<string, string>, items: seq<Item>, k: nat)
    requires k < |items|
    ensures Kept(items, k) ==>
              Rows(overrides, items[..k + 1]) == Rows(overrides, items[..k]) + [RowOf(overrides, items[k])]
              && IgnoredOf(overrides, items[..k + 1]) == IgnoredOf(overrides, items[..k])
    ensures !Kept(items, k) ==>
              Rows(overrides, items[..k + 1]) == Rows(overrides, items[..k])
              && IgnoredOf(overrides, items[..k + 1])
                 == IgnoredOf(overrides, items[..k]) + [Entry(Rows(overrides, items[..k]), items[k])]
  {
    assert items[..k + 1][..k] == items[..k];
    assert Kept(items[..k + 1], k) <==> Kept(items, k);
  }

  lemma {:induction false} PlacesAreOrdered(overrides: map<string, string>, items: seq<Item>, j: nat, k: nat)
    requires j < k < |items|
    ensures InOrder(PlaceOf(overrides, items, j), PlaceOf(overrides, items, k))
  {
    hide Rows, IgnoredOf, Kept, Entry, RowOf;
    NextPlace(overrides, items, j);
    ListsGrow(overrides, items[..k], j + 1);
    assert items[..k][..j + 1] == items[..j + 1];
  }

  /**
   * Every record is in exactly one of the two lists: it has one place, its entry is there, no
   * two records share a place, both lists keep the order, and there is nothing else in them.
   */
  lemma {:induction false} NothingDropped(overrides: map<string, string>, items: seq<Item>)
    ensures forall k: nat :: k < |items| ==> IsPlaced(overrides, items, k)
    ensures forall j: nat, k: nat :: j < k < |items| ==>
              InOrder(PlaceOf(overrides, items, j), PlaceOf(overrides, items, k))
    ensures |Rows(overrides, items)| + |IgnoredOf(overrides, items)| == |items|
  {
    hide Kept, Entry, RowOf;
    forall k: nat | k < |items| ensures IsPlaced(overrides, items, k) {
      NextPlace(overrides, items, k);
      ListsGrow(overrides, items, k + 1);
    }
    forall j: nat, k: nat | j < k < |items|
      ensures InOrder(PlaceOf(overrides, items, j), PlaceOf(overrides, items, k))
    {
      PlacesAreOrdered(overrides, items, j, k);
    }
    TwoListsFill(overrides, items);
  }

  lemma {:induction false} TwoListsFill(overrides: map<string, string>, items: seq<Item>)
    ensures |Rows(overrides, items)| + |IgnoredOf(overrides, items)| == |items|
  {
    if items != [] { TwoListsFill(overrides, items[..|items| - 1]); }
  }

  predicate DistinctRows(rows: seq<Row>) {
    forall i, j :: 0 <= i < j < |rows| ==> rows[i].kind != rows[j].kind || rows[i].id != rows[j].id
  }

  predicate Names(i: Item, kind: string, id: string) { i.record.skip.None? && i.spec.kind == kind && i.record.id == id }

  predicate Stands(r: Row, kind: string, id: string) { r.kind == kind && r.id == id }

  lemma {:induction false} NamedIsRow(overrides: map<string, string>, items: seq<Item>, k: nat) returns (r: Row)
    requires k < |items| && items[k].record.skip.None?
    ensures r in Rows(overrides, items) && Stands(r, items[k].spec.kind, items[k].record.id)
  {
    var n := |items| - 1;
    if k < n {
      r := NamedIsRow(overrides, items[..n], k);
    } else if Kept(items, n) {
      r := RowOf(overrides, items[n]);
    } else {
      var j :| 0 <= j < n && items[j].record.skip.None? && SameKey(items[j], items[n]);
      r := NamedIsRow(overrides, items[..n], j);
    }
  }

  lemma {:induction false} RowIsNamed(overrides: map<string, string>, items: seq<Item>, r: Row) returns (k: nat)
    requires r in Rows(overrides, items)
    ensures k < |items| && Names(items[k], r.kind, r.id)
  {
    var n := |items| - 1;
    k := n;
    if r in Rows(overrides, items[..n]) { k := RowIsNamed(overrides, items[..n], r); }
  }

  /** A type and id are in the manifest exactly when some unskipped record has them. */
  lemma RowsAre(overrides: map<string, string>, items: seq<Item>, kind: string, id: string)
    ensures (exists r :: r in Rows(overrides, items) && Stands(r, kind, id))
            <==> exists k :: 0 <= k < |items| && Names(items[k], kind, id)
  {
    hide Rows;
    if k :| 0 <= k < |items| && Names(items[k], kind, id) {
      var r := NamedIsRow(overrides, items, k);
    }
    if r :| r in Rows(overrides, items) && Stands(r, kind, id) {
      var k := RowIsNamed(overrides, items, r);
    }
  }

  lemma {:induction false} RowsDistinct(overrides: map<string, string>, items: seq<Item>)
    ensures DistinctRows(Rows(overrides, items))
  {
    if items != [] {
      var n := |items| - 1;
      var front := items[..n];
      RowsDistinct(overrides, front);
      if Kept(items, n) {
        var last := items[n];
        RowsAre(overrides, front, last.spec.kind, last.record.id);
        forall k | 0 <= k < |front|
          ensures !Names(front[k], last.spec.kind, last.record.id)
        {
          assert items[k] == front[k] && (items[k].record.skip.Some? || !SameKey(items[k], last));
        }
        var rows := Rows(overrides, front);
        forall i | 0 <= i < |rows| ensures rows[i].kind != last.spec.kind || rows[i].id != last.record.id {
          assert rows[i] in rows && !Stands(rows[i], last.spec.kind, last.record.id);
        }
      }
    }
  }

  datatype Build = Malformed | Built(resources: seq<Row>, ignored: seq<Ignored>)

  /** What the loop has noted about the rows so far: the name each type and id stands under. */
  ghost predicate SeenIs(seen: map<(string, string), string>, rows: seq<Row>) {
    forall kind, id ::
      && ((kind, id) in seen <==> exists r :: r in rows && Stands(r, kind, id))
      && ((kind, id) in seen ==> seen[(kind, id)] == NameOf(rows, kind, id))
  }

  lemma {:induction false} NameOfAppend(rows: seq<Row>, r: Row, kind: string, id: string)
    requires DistinctRows(rows + [r])
    ensures (exists x :: x in rows && Stands(x, kind, id)) ==> NameOf(rows + [r], kind, id) == NameOf(rows, kind, id)
    ensures r.kind == kind && r.id == id ==> NameOf(rows + [r], kind, id) == r.name
  {
    var all := rows + [r];
    if rows == [] {
    } else {
      assert all[1..] == rows[1..] + [r];
      assert DistinctRows(rows[1..] + [r]) by {
        forall i, j | 0 <= i < j < |all| - 1
          ensures all[1..][i].kind != all[1..][j].kind || all[1..][i].id != all[1..][j].id
        {
          assert all[i + 1].kind != all[j + 1].kind || all[i + 1].id != all[j + 1].id;
        }
      }
      NameOfAppend(rows[1..], r, kind, id);
      assert all[0] == rows[0] && all[|rows|] == r;
      assert rows == [rows[0]] + rows[1..];
    }
  }

  lemma SeenGrows(seen: map<(string, string), string>, rows: seq<Row>, r: Row)
    requires SeenIs(seen, rows) && DistinctRows(rows + [r])
    ensures SeenIs(seen[(r.kind, r.id) := r.name], rows + [r])
  {
    hide DistinctRows;
    forall kind, id
      ensures (kind, id) in seen[(r.kind, r.id) := r.name] <==> exists x :: x in rows + [r] && Stands(x, kind, id)
      ensures (kind, id) in seen[(r.kind, r.id) := r.name] ==>
                seen[(r.kind, r.id) := r.name][(kind, id)] == NameOf(rows + [r], kind, id)
    {
      NameOfAppend(rows, r, kind, id);
      if (kind, id) in seen {
        var x :| x in rows && Stands(x, kind, id);
        assert x in rows + [r];
      }
      assert r in rows + [r];
    }
  }

  lemma KeptIffUnseen(overrides: map<string, string>, items: seq<Item>, i: Item, seen: map<(string, string), string>)
    requires SeenIs(seen, Rows(overrides, items)) && i.record.skip.None?
    ensures Kept(items + [i], |items|) <==> (i.spec.kind, i.record.id) !in seen
  {
    RowsAre(overrides, items, i.spec.kind, i.record.id);
    var all := items + [i];
    assert all[|items|] == i && forall k :: 0 <= k < |items| ==> all[k] == items[k];
    if !Kept(all, |items|) {
      var j :| 0 <= j < |items| && all[j].record.skip.None? && SameKey(all[j], all[|items|]);
      assert Names(items[j], i.spec.kind, i.record.id);
    }
    if (i.spec.kind, i.record.id) in seen {
      var k :| 0 <= k < |items| && Names(items[k], i.spec.kind, i.record.id);
      assert all[k].record.skip.None? && SameKey(all[k], all[|items|]);
    }
  }

  lemma OneMore(overrides: map<string, string>, items: seq<Item>, i: Item)
    ensures Rows(overrides, items + [i])
            == Rows(overrides, items) + (if Kept(items + [i], |items|) then [RowOf(overrides, i)] else [])
    ensures IgnoredOf(overrides, items + [i])
            == IgnoredOf(overrides, items)
               + (if Kept(items + [i], |items|) then [] else [Entry(Rows(overrides, items), i)])
  {
    assert (items + [i])[..|items|] == items;
  }

  /** The record loop: a record without an id refuses the whole build, every other one is kept or ignored. */
  method BuildRows(specs: seq<TypeSpec>, overrides: map<string, string>) returns (b: Build)
    ensures b.Malformed? <==> exists i :: i in AllItems(specs) && Nameless(i)
    ensures b.Built? ==>
              b.resources == Rows(overrides, AllItems(specs)) && b.ignored == IgnoredOf(overrides, AllItems(specs))
  {
    hide Rows, IgnoredOf, Kept, SeenIs, Entry, NameOf;
    var resources: seq<Row>, ignored: seq<Ignored> := [], [];
    var seen: map<(string, string), string> := map[];
    ghost var done: seq<Item> := [];
    NothingYet(overrides);
    for t := 0 to |specs|
      invariant done == AllItems(specs[..t])
      invariant resources == Rows(overrides, done) && ignored == IgnoredOf(overrides, done) && SeenIs(seen, resources)
      invariant forall i :: i in done ==> !Nameless(i)
    {
      var spec := specs[t];
      assert specs[..t + 1][..t] == specs[..t];
      if spec.records.None? { continue; }
      var records := spec.records.value;
      ghost var before := done;
      for idx := 0 to |records|
        invariant done == before + ItemsOf(spec)[..idx]
        invariant resources == Rows(overrides, done) && ignored == IgnoredOf(overrides, done) && SeenIs(seen, resources)
        invariant forall i :: i in done ==> !Nameless(i)
      {
        var record := records[idx];
        ghost var item := Item(spec, idx, record);
        assert ItemsOf(spec)[..idx + 1] == ItemsOf(spec)[..idx] + [item];
        assert before + ItemsOf(spec)[..idx + 1] == done + [item];
        OneMore(overrides, done, item);
        SkippedRecord(resources, done, item);
        if record.skip.Some? {
          var position := if record.id == "" then Some(idx) else None;
          ignored := ignored + [Ignored(spec.kind, record.id, position, SkipRule(record.skip.value))];
        } else if record.id == "" {
          NamelessStays(specs, t, idx);
          return Malformed;
        } else {
          KeptIffUnseen(overrides, done, item, seen);
          if (spec.kind, record.id) in seen {
            DuplicateEntry(seen, resources, item);
            var first := DuplicateOf(spec.kind, seen[(spec.kind, record.id)]);
            ignored := ignored + [Ignored(spec.kind, record.id, None, first)];
          } else {
            var disposition := if record.id in overrides then overrides[record.id] else "import";
            var row := Row(spec.kind, record.id, record.name, spec.service, spec.phase, spec.stateful, disposition);
            RowsDistinct(overrides, done + [item]);
            SeenGrows(seen, resources, row);
            resources := resources + [row];
            seen := seen[(spec.kind, record.id) := record.name];
          }
        }
        done := done + [item];
      }
      assert ItemsOf(spec)[..|records|] == ItemsOf(spec);
    }
    assert specs[..|specs|] == specs;
    return Built(resources, ignored);
  }

  lemma NothingYet(overrides: map<string, string>)
    ensures Rows(overrides, []) == [] && IgnoredOf(overrides, []) == [] && SeenIs(map[], [])
  {
  }

  lemma SkippedRecord(rows: seq<Row>, items: seq<Item>, i: Item)
    ensures i.record.skip.Some? ==> !Kept(items + [i], |items|)
    ensures i.record.skip.Some? ==>
              Entry(rows, i)
              == Ignored(i.spec.kind, i.record.id, if i.record.id == "" then Some(i.position) else None,
                       SkipRule(i.record.skip.value))
  {
  }

  lemma DuplicateEntry(seen: map<(string, string), string>, rows: seq<Row>, i: Item)
    requires SeenIs(seen, rows) && i.record.skip.None? && (i.spec.kind, i.record.id) in seen
    ensures Entry(rows, i)
            == Ignored(i.spec.kind, i.record.id, None, DuplicateOf(i.spec.kind, seen[(i.spec.kind, i.record.id)]))
  {
  }

  lemma {:induction false} NamelessStays(specs: seq<TypeSpec>, t: nat, idx: nat)
    requires t < |specs| && specs[t].records.Some? && idx < |specs[t].records.value|
    ensures Item(specs[t], idx, specs[t].records.value[idx]) in AllItems(specs)
  {
    var n := |specs| - 1;
    if t < n {
      NamelessStays(specs[..n], t, idx);
    } else {
      assert ItemsOf(specs[t])[idx] == Item(specs[t], idx, specs[t].records.value[idx]);
    }
  }
}
