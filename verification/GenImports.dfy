/** From the discovery manifest to import blocks: the labels the one gives are labels the other takes. */
module GenImports {
  import opened Strings
  import opened Sorting
  import opened Labels
  import opened Discovery

  datatype Labelled = Labelled(row: Row, name: string)

  // ---- the label loop of the build -----------------------------------------------------------------

  /** Rows by type, then display name without case, then id. */
  function RowLess(lower: string -> string): (Row, Row) -> bool {
    (a: Row, b: Row) =>
      Less(a.kind, b.kind)
      || (a.kind == b.kind
          && (Less(lower(a.name), lower(b.name)) || (lower(a.name) == lower(b.name) && Less(a.id, b.id))))
  }

  predicate Taken(out: seq<Labelled>, kind: string, name: string) {
    exists j :: 0 <= j < |out| && out[j].row.kind == kind && out[j].name == name
  }

  /** The first number under which a base is free among the rows labelled before. */
  predicate FirstFree(before: seq<Labelled>, kind: string, base: string, n: nat) {
    && n >= 1 && !Taken(before, kind, Numbered(base, n))
    && forall m :: 1 <= m < n ==> Taken(before, kind, Numbered(base, m))
  }

  ghost predicate LabelledAt(lower: string -> string, rows: seq<Row>, out: seq<Labelled>, i: nat)
    requires i < |rows| && i < |out|
  {
    && out[i].row == rows[i]
    && exists n: nat :: FirstFree(out[..i], rows[i].kind, ToLabel(lower, rows[i].name), n)
                        && out[i].name == Numbered(ToLabel(lower, rows[i].name), n)
  }

  ghost predicate IsLabelling(lower: string -> string, rows: seq<Row>, out: seq<Labelled>) {
    |out| == |rows| && forall i :: 0 <= i < |rows| ==> LabelledAt(lower, rows, out, i)
  }

  /** Row `a` gets its label no later than `b`: by type, lower-cased name, and id. */
  predicate NoLater(lower: string -> string, a: Row, b: Row) {
    || Less(a.kind, b.kind)
    || (a.kind == b.kind
        && (|| Less(lower(a.name), lower(b.name))
            || (lower(a.name) == lower(b.name) && (a.id == b.id || Less(a.id, b.id)))))
  }

  lemma SortedNoLater(lower: string -> string, rows: seq<Row>)
    ensures var r := Sort(RowLess(lower), rows); forall i, j :: 0 <= i < j < |r| ==> NoLater(lower, r[i], r[j])
  {
    hide Sort, WeakOrder, NoLater;
    RowLessIsWeakOrder(lower);
    SortSorts(RowLess(lower), rows);
    var r := Sort(RowLess(lower), rows);
    forall i, j | 0 <= i < j < |r| ensures NoLater(lower, r[i], r[j]) { NotLessIsNoLater(lower, r[i], r[j]); }
  }

  lemma NotLessIsNoLater(lower: string -> string, a: Row, b: Row)
    requires !RowLess(lower)(b, a)
    ensures NoLater(lower, a, b)
  {
    hide Less;
    LessTotal(a.kind, b.kind);
    LessTotal(lower(a.name), lower(b.name));
    LessTotal(a.id, b.id);
  }

  method LabelRows(lower: string -> string, resources: seq<Row>) returns (out: seq<Labelled>)
    ensures IsLabelling(lower, Sort(RowLess(lower), resources), out)
    ensures forall i, j :: 0 <= i < j < |out| ==> NoLater(lower, out[i].row, out[j].row)
  {
    hide LabelOk, ToLabel, Numbered, Sort, RowLess, NoLater, FirstFree;
    SortedNoLater(lower, resources);
    var rows := Sort(RowLess(lower), resources);
    out := [];
    var used: set<(string, string)> := {};
    for i := 0 to |rows|
      invariant |out| == i && forall k :: 0 <= k < i ==> LabelledAt(lower, rows, out, k)
      invariant forall kind, name :: (kind, name) in used <==> Taken(out, kind, name)
    {
      var row := rows[i];
      var base := ToLabel(lower, row.name);
      var name, n := FreeLabel(row.kind, base, used);
      ghost var before := out;
      FreeIsFirst(used, before, row.kind, base, n);
      used := used + {(row.kind, name)};
      out := out + [Labelled(row, name)];
      assert out[..i] == before;
      forall k | 0 <= k < i ensures LabelledAt(lower, rows, out, k) {
        assert LabelledAt(lower, rows, before, k);
        assert out[..k] == before[..k];
      }
      assert LabelledAt(lower, rows, out, i);
      TakenGrows(before, Labelled(row, name));
    }
    forall i | 0 <= i < |out| ensures out[i].row == rows[i] { assert LabelledAt(lower, rows, out, i); }
  }

  lemma FreeIsFirst(used: set<(string, string)>, before: seq<Labelled>, kind: string, base: string, n: nat)
    requires forall k, name :: (k, name) in used <==> Taken(before, k, name)
    requires n >= 1 && (kind, Numbered(base, n)) !in used
    requires forall m :: 1 <= m < n ==> (kind, Numbered(base, m)) in used
    ensures FirstFree(before, kind, base, n)
  {
    hide Taken, Numbered;
  }

  lemma TakenGrows(out: seq<Labelled>, l: Labelled)
    ensures forall kind, name :: Taken(out + [l], kind, name) <==>
              Taken(out, kind, name) || (l.row.kind == kind && l.name == name)
  {
    var all := out + [l];
    assert all[|out|] == l && forall k :: 0 <= k < |out| ==> all[k] == out[k];
    forall kind, name
      ensures Taken(all, kind, name) <==> Taken(out, kind, name) || (l.row.kind == kind && l.name == name)
    {
      if Taken(out, kind, name) {
        var j :| 0 <= j < |out| && out[j].row.kind == kind && out[j].name == name;
        assert all[j].row.kind == kind;
      }
    }
  }

  /** Labels are well formed, and no two rows of a type share one. */
  lemma LabelsAreUnique(lower: string -> string, rows: seq<Row>, out: seq<Labelled>)
    requires IsLabelling(lower, rows, out)
    ensures forall i :: 0 <= i < |out| ==> LabelOk(out[i].name) && out[i].name != ""
    ensures forall i, j :: 0 <= i < j < |out| && out[i].row.kind == out[j].row.kind ==> out[i].name != out[j].name
  {
    hide LabelOk, ToLabel, Numbered;
    forall i | 0 <= i < |out| ensures LabelOk(out[i].name) && out[i].name != "" {
      assert LabelledAt(lower, rows, out, i);
      var n: nat :| FirstFree(out[..i], rows[i].kind, ToLabel(lower, rows[i].name), n)
                    && out[i].name == Numbered(ToLabel(lower, rows[i].name), n);
      NumberedIsLabel(ToLabel(lower, rows[i].name), n);
    }
    forall i, j | 0 <= i < j < |out| && out[i].row.kind == out[j].row.kind ensures out[i].name != out[j].name {
      assert LabelledAt(lower, rows, out, j);
      assert out[..j][i] == out[i];
      assert !Taken(out[..j], out[j].row.kind, out[j].name);
    }
  }

  lemma FirstFreeIsOne(before: seq<Labelled>, kind: string, base: string, m: nat, n: nat)
    requires FirstFree(before, kind, base, m) && FirstFree(before, kind, base, n)
    ensures m == n
  {
    hide Taken, Numbered;
  }

  /** The sorted rows determine every label. */
  lemma {:induction false} LabelsAreDetermined(lower: string -> string, rows: seq<Row>, out: seq<Labelled>,
                                               out': seq<Labelled>, k: nat)
    requires IsLabelling(lower, rows, out) && IsLabelling(lower, rows, out') && k <= |rows|
    ensures out[..k] == out'[..k]
  {
    hide ToLabel, Numbered, FirstFree;
    if k > 0 {
      var i := k - 1;
      LabelsAreDetermined(lower, rows, out, out', i);
      assert LabelledAt(lower, rows, out, i) && LabelledAt(lower, rows, out', i);
      var base := ToLabel(lower, rows[i].name);
      var m: nat :| FirstFree(out[..i], rows[i].kind, base, m) && out[i].name == Numbered(base, m);
      var n: nat :| FirstFree(out'[..i], rows[i].kind, base, n) && out'[i].name == Numbered(base, n);
      FirstFreeIsOne(out[..i], rows[i].kind, base, m, n);
      assert out[..k] == out[..i] + [out[i]] && out'[..k] == out'[..i] + [out'[i]];
    }
  }

  lemma RowLessIsWeakOrder(lower: string -> string)
    ensures WeakOrder(RowLess(lower))
  {
    hide Less;
    LessIsWeakOrder();
    forall x ensures !Less(x, x) { LessIrreflexive(x); }
    forall a: Row, b: Row | RowLess(lower)(a, b) ensures !RowLess(lower)(b, a) {
      assert !(Less(a.kind, b.kind) && Less(b.kind, a.kind)) && !(Less(a.id, b.id) && Less(b.id, a.id));
      assert !(Less(lower(a.name), lower(b.name)) && Less(lower(b.name), lower(a.name)));
    }
    forall a: Row, b: Row, c: Row | RowLess(lower)(a, c) ensures RowLess(lower)(a, b) || RowLess(lower)(b, c) {
      LessTotal(a.kind, b.kind);
      LessTotal(b.kind, c.kind);
      LessTotal(lower(a.name), lower(b.name));
      LessTotal(lower(b.name), lower(c.name));
    }
  }

  lemma RowLessSeparates(lower: string -> string, rows: seq<Row>)
    requires DistinctRows(rows)
    ensures Separates(RowLess(lower), rows)
  {
    forall i, j | 0 <= i < |rows| && 0 <= j < |rows| && rows[i] != rows[j]
      ensures RowLess(lower)(rows[i], rows[j]) || RowLess(lower)(rows[j], rows[i])
    {
      var a, b := rows[i], rows[j];
      assert a.kind != b.kind || a.id != b.id;
      LessTotal(a.kind, b.kind);
      LessTotal(lower(a.name), lower(b.name));
      LessTotal(a.id, b.id);
    }
  }

  /** The labels do not depend on the order in which the captures listed the resources. */
  lemma LabelsIgnoreOrder(lower: string -> string, resources: seq<Row>, resources': seq<Row>, out: seq<Labelled>,
                          out': seq<Labelled>)
    requires DistinctRows(resources) && DistinctRows(resources') && multiset(resources) == multiset(resources')
    requires IsLabelling(lower, Sort(RowLess(lower), resources), out)
    requires IsLabelling(lower, Sort(RowLess(lower), resources'), out')
    ensures out == out'
  {
    hide RowLess, IsLabelling, Sort, Sorted, Separates, WeakOrder;
    var less := RowLess(lower);
    var rows, rows' := Sort(less, resources), Sort(less, resources');
    RowLessIsWeakOrder(lower);
    SortSorts(less, resources);
    SortSorts(less, resources');
    SortedDistinct(less, resources);
    RowLessSeparates(lower, rows);
    OneSortedOrder(less, rows, rows');
    SameLabels(lower, rows, out, out');
  }

  lemma SameLabels(lower: string -> string, rows: seq<Row>, out: seq<Labelled>, out': seq<Labelled>)
    requires IsLabelling(lower, rows, out) && IsLabelling(lower, rows, out')
    ensures out == out'
  {
    hide LabelledAt;
    LabelsAreDetermined(lower, rows, out, out', |rows|);
    assert out[..|rows|] == out && out'[..|rows|] == out';
  }

  lemma SortedDistinct(less: (Row, Row) -> bool, rows: seq<Row>)
    requires DistinctRows(rows)
    ensures DistinctRows(Sort(less, rows))
  {
    var sorted := Sort(less, rows);
    forall i, j | 0 <= i < j < |sorted| ensures sorted[i].kind != sorted[j].kind || sorted[i].id != sorted[j].id {
      var a := InMultiset(sorted[i], sorted, rows);
      var b := InMultiset(sorted[j], sorted, rows);
      if a == b {
        Once(rows, a);
        Twice(sorted, i, j);
      }
    }
  }

  lemma Twice<T>(xs: seq<T>, i: nat, j: nat)
    requires i < j < |xs| && xs[i] == xs[j]
    ensures multiset(xs)[xs[i]] >= 2
  {
    assert xs == xs[..j] + [xs[j]] + xs[j + 1..];
    assert xs[i] in xs[..j] by { assert xs[..j][i] == xs[i]; }
  }

  lemma Once(ys: seq<Row>, a: nat)
    requires DistinctRows(ys) && a < |ys|
    ensures multiset(ys)[ys[a]] == 1
  {
    assert ys == ys[..a] + [ys[a]] + ys[a + 1..];
    assert ys[a] !in ys[..a] && ys[a] !in ys[a + 1..];
  }

  // ---- the import blocks -----------------------------------------------------------------------------

  datatype Imports =
    | MalformedRow
    | BadLabel
    | DuplicateAddress
    | Written(blocks: seq<Labelled>, excluded: map<string, nat>)

  predicate RowComplete(l: Labelled) { l.row.kind != "" && l.row.id != "" && l.name != "" }

  /** The pattern's end anchor also matches before a final newline. */
  predicate LabelMatches(s: string) { LabelOk(s) || (s != [] && s[|s| - 1] == '\n' && LabelOk(s[..|s| - 1])) }

  /** One of the three fields every row must have is empty. */
  predicate Incomplete(l: Labelled) { |l.row.kind| == 0 || |l.row.id| == 0 || |l.name| == 0 }

  /** A label of the pattern, or one with a newline behind it. */
  ghost predicate MayLabel(s: string) { exists t :: LabelOk(t) && (s == t || s == t + "\n") }

  lemma LabelMatchesIff(s: string)
    ensures LabelMatches(s) <==> MayLabel(s)
  {
    if s != [] && s[|s| - 1] == '\n' {
      assert s == s[..|s| - 1] + "\n";
      if LabelOk(s[..|s| - 1]) { assert MayLabel(s); }
    }
    if MayLabel(s) {
      var t :| LabelOk(t) && (s == t || s == t + "\n");
      if s != t { assert s[..|s| - 1] == t; }
    }
  }

  predicate Chosen(phase: int, l: Labelled) { l.row.disposition == "import" && (phase == 0 || l.row.phase == phase) }

  function Selected(rows: seq<Labelled>, phase: int): (s: seq<Labelled>)
    ensures forall l :: l in s <==> l in rows && Chosen(phase, l)
  {
    if rows == [] then []
    else
      var last := rows[|rows| - 1];
      assert rows == rows[..|rows| - 1] + [last];
      Selected(rows[..|rows| - 1], phase) + (if Chosen(phase, last) then [last] else [])
  }

  function CountOf(rows: seq<Labelled>, disposition: string): nat {
    if rows == [] then 0
    else CountOf(rows[..|rows| - 1], disposition) + if rows[|rows| - 1].row.disposition == disposition then 1 else 0
  }

  function AddressOf(l: Labelled): string { l.row.kind + "." + l.name }

  predicate DistinctAddresses(ls: seq<Labelled>) {
    forall i, j :: 0 <= i < j < |ls| ==> AddressOf(ls[i]) != AddressOf(ls[j])
  }

  function AddressLess(): (Labelled, Labelled) -> bool {
    (a: Labelled, b: Labelled) => Less(a.row.kind, b.row.kind) || (a.row.kind == b.row.kind && Less(a.name, b.name))
  }

  /** Blocks by type, and within a type by label. */
  predicate ByAddress(ls: seq<Labelled>) {
    forall i, j :: 0 <= i < j < |ls| ==>
      || Less(ls[i].row.kind, ls[j].row.kind)
      || (ls[i].row.kind == ls[j].row.kind && (ls[i].name == ls[j].name || Less(ls[i].name, ls[j].name)))
  }

  lemma AddressOrder(a: Labelled, b: Labelled, c: Labelled)
    ensures AddressLess()(a, b) ==> !AddressLess()(b, a)
    ensures AddressLess()(a, c) ==> AddressLess()(a, b) || AddressLess()(b, c)
    ensures !AddressLess()(b, a) ==>
              || Less(a.row.kind, b.row.kind)
              || (a.row.kind == b.row.kind && (a.name == b.name || Less(a.name, b.name)))
  {
    LessWeak(a.row.kind, b.row.kind, c.row.kind);
    LessWeak(a.name, b.name, c.name);
  }

  lemma LessWeak(a: string, b: string, c: string)
    ensures Less(a, b) ==> !Less(b, a)
    ensures a == b || Less(a, b) || Less(b, a)
    ensures Less(a, c) ==> Less(a, b) || Less(b, c)
    ensures !Less(a, a)
  {
    LessIrreflexive(a);
    LessTotal(a, b);
    LessTotal(b, c);
    if Less(a, b) { LessAsymmetric(a, b); }
    if Less(b, a) && Less(a, c) { LessTransitive(b, a, c); }
  }

  lemma SortedByAddress(ls: seq<Labelled>)
    ensures ByAddress(Sort(AddressLess(), ls))
  {
    hide Sort;
    assert WeakOrder(AddressLess()) by {
      hide AddressLess;
      forall a, b ensures AddressLess()(a, b) ==> !AddressLess()(b, a) { AddressOrder(a, b, b); }
      forall a, b, c ensures AddressLess()(a, c) ==> AddressLess()(a, b) || AddressLess()(b, c) {
        AddressOrder(a, b, c);
      }
    }
    SortSorts(AddressLess(), ls);
    var r := Sort(AddressLess(), ls);
    hide AddressLess;
    forall i, j | 0 <= i < j < |r|
      ensures || Less(r[i].row.kind, r[j].row.kind)
              || (r[i].row.kind == r[j].row.kind && (r[i].name == r[j].name || Less(r[i].name, r[j].name)))
    {
      AddressOrder(r[i], r[j], r[j]);
    }
  }

  lemma AddressedOnce(ls: seq<Labelled>, a: nat)
    requires DistinctAddresses(ls) && a < |ls|
    ensures multiset(ls)[ls[a]] == 1
  {
    hide AddressOf;
    assert ls == ls[..a] + [ls[a]] + ls[a + 1..];
    assert ls[a] !in ls[..a] && ls[a] !in ls[a + 1..];
  }

  /** Sorting does not make addresses differ. */
  lemma SortKeepsDistinct(ls: seq<Labelled>)
    requires DistinctAddresses(ls)
    ensures DistinctAddresses(Sort(AddressLess(), ls))
  {
    hide AddressLess, AddressOf;
    var sorted := Sort(AddressLess(), ls);
    forall i, j | 0 <= i < j < |sorted| ensures AddressOf(sorted[i]) != AddressOf(sorted[j]) {
      var a := InMultiset(sorted[i], sorted, ls);
      var b := InMultiset(sorted[j], sorted, ls);
      if a == b {
        AddressedOnce(ls, a);
        Twice(sorted, i, j);
      }
    }
  }

  /** When the import blocks can be written. */
  predicate Acceptable(rows: seq<Labelled>, phase: int) {
    && (forall i :: 0 <= i < |rows| ==> RowComplete(rows[i]))
    && (forall l :: l in Selected(rows, phase) ==> LabelMatches(l.name))
    && DistinctAddresses(Sort(AddressLess(), Selected(rows, phase)))
  }

  predicate Passes(phase: int, l: Labelled) { RowComplete(l) && (Chosen(phase, l) ==> LabelMatches(l.name)) }

  /** The first row that is incomplete, or chosen under a label that does not match. */
  predicate StopsAt(rows: seq<Labelled>, phase: int, i: nat) {
    i < |rows| && !Passes(phase, rows[i]) && forall k :: 0 <= k < i ==> Passes(phase, rows[k])
  }

  lemma AllPass(rows: seq<Labelled>, phase: int)
    ensures (forall k :: 0 <= k < |rows| ==> Passes(phase, rows[k]))
            <==> (forall k :: 0 <= k < |rows| ==> RowComplete(rows[k]))
                 && forall l :: l in Selected(rows, phase) ==> LabelMatches(l.name)
  {
    hide RowComplete, LabelMatches, Chosen;
    var all := forall k :: 0 <= k < |rows| ==> Passes(phase, rows[k]);
    if !all {
      var k :| 0 <= k < |rows| && !Passes(phase, rows[k]);
      assert rows[k] in rows;
    }
  }

  method WriteImports(rows: seq<Labelled>, phase: int) returns (r: Imports)
    ensures r.Written? <==> Acceptable(rows, phase)
    ensures r.MalformedRow? ==> exists i: nat :: StopsAt(rows, phase, i) && Incomplete(rows[i])
    ensures r.BadLabel? ==>
              exists i: nat ::
                StopsAt(rows, phase, i) && !Incomplete(rows[i]) && Chosen(phase, rows[i]) && !MayLabel(rows[i].name)
    ensures r.DuplicateAddress? ==>
              exists i, j ::
                && 0 <= i < j < |Selected(rows, phase)|
                && Selected(rows, phase)[i].row.kind + "." + Selected(rows, phase)[i].name
                   == Selected(rows, phase)[j].row.kind + "." + Selected(rows, phase)[j].name
    ensures r.Written? ==> r.blocks == Sort(AddressLess(), Selected(rows, phase))
    ensures r.Written? ==> multiset(r.blocks) == multiset(Selected(rows, phase)) && ByAddress(r.blocks)
    ensures r.Written? ==> forall d :: d != "import" ==>
              (if d in r.excluded then r.excluded[d] else 0) == CountOf(rows, d)
  {
    hide RowComplete, LabelMatches, AddressOf, Sort, AddressLess, StopsAt, DistinctAddresses, ByAddress, Incomplete,
         MayLabel;
    AllPass(rows, phase);
    var excluded: map<string, nat> := map[];
    var selected: seq<Labelled> := [];
    for i := 0 to |rows|
      invariant selected == Selected(rows[..i], phase)
      invariant forall k :: 0 <= k < i ==> Passes(phase, rows[k])
      invariant forall d :: d != "import" ==> (if d in excluded then excluded[d] else 0) == CountOf(rows[..i], d)
    {
      var row := rows[i];
      assert rows[..i + 1][..i] == rows[..i];
      CompleteIff(row);
      if !RowComplete(row) {
        StopsHere(rows, phase, i);
        return MalformedRow;
      }
      var disposition := row.row.disposition;
      if disposition != "import" {
        excluded := excluded[disposition := (if disposition in excluded then excluded[disposition] else 0) + 1];
        continue;
      }
      if phase != 0 && row.row.phase != phase { continue; }
      if !LabelMatches(row.name) {
        LabelMatchesIff(row.name);
        StopsHere(rows, phase, i);
        return BadLabel;
      }
      selected := selected + [row];
    }
    assert rows[..|rows|] == rows;
    var blocks := Sort(AddressLess(), selected);
    var unique := NoDuplicates(blocks);
    if !unique {
      if DistinctAddresses(selected) { SortKeepsDistinct(selected); }
      AddressesMeet(selected);
      return DuplicateAddress;
    }
    SortedByAddress(selected);
    return Written(blocks, excluded);
  }

  lemma CompleteIff(l: Labelled)
    ensures RowComplete(l) <==> !Incomplete(l)
  {
  }

  lemma AddressesMeet(ls: seq<Labelled>)
    requires !DistinctAddresses(ls)
    ensures exists i, j :: 0 <= i < j < |ls| && ls[i].row.kind + "." + ls[i].name == ls[j].row.kind + "." + ls[j].name
  {
  }

  lemma StopsHere(rows: seq<Labelled>, phase: int, i: nat)
    requires i < |rows| && !Passes(phase, rows[i]) && forall k :: 0 <= k < i ==> Passes(phase, rows[k])
    ensures StopsAt(rows, phase, i)
  {
  }

  method NoDuplicates(blocks: seq<Labelled>) returns (unique: bool)
    ensures unique <==> DistinctAddresses(blocks)
  {
    hide AddressOf;
    var seen: set<string> := {};
    for i := 0 to |blocks|
      invariant seen == set k | 0 <= k < i :: AddressOf(blocks[k])
      invariant forall j, k :: 0 <= j < k < i ==> AddressOf(blocks[j]) != AddressOf(blocks[k])
    {
      var address := AddressOf(blocks[i]);
      if address in seen { return false; }
      seen := seen + {address};
    }
    return true;
  }

  /** A well-formed label has no dot, so an address says where its type ends. */
  lemma AddressSplits(a: Labelled, b: Labelled)
    requires LabelOk(a.name) && LabelOk(b.name) && AddressOf(a) == AddressOf(b)
    ensures a.row.kind == b.row.kind && a.name == b.name
  {
    if |a.row.kind| < |b.row.kind| { EarlierDot(a, b); }
    if |b.row.kind| < |a.row.kind| { EarlierDot(b, a); }
    var s, n := AddressOf(a), |a.row.kind|;
    assert s[..n] == a.row.kind && s[..n] == b.row.kind && s[n + 1..] == a.name && s[n + 1..] == b.name;
  }

  lemma EarlierDot(a: Labelled, b: Labelled)
    requires AddressOf(a) == AddressOf(b) && |a.row.kind| < |b.row.kind|
    ensures '.' in a.name
  {
    var s, n := AddressOf(a), |b.row.kind|;
    assert s[n] == '.' && s[n] == a.name[n - |a.row.kind| - 1];
  }

  lemma {:induction false} SelectedAt(rows: seq<Labelled>, phase: int, i: nat, j: nat) returns (a: nat, b: nat)
    requires i < j < |Selected(rows, phase)|
    ensures a < b < |rows| && rows[a] == Selected(rows, phase)[i] && rows[b] == Selected(rows, phase)[j]
  {
    var n := |rows| - 1;
    var front := Selected(rows[..n], phase);
    if j < |front| {
      a, b := SelectedAt(rows[..n], phase, i, j);
    } else {
      assert front[i] in front;
      a :| 0 <= a < n && rows[..n][a] == front[i];
      b := n;
    }
  }

  predicate DistinctLabels(ls: seq<Labelled>) {
    forall i, j :: 0 <= i < j < |ls| ==> ls[i].row.kind != ls[j].row.kind || ls[i].name != ls[j].name
  }

  lemma SelectedDistinct(rows: seq<Labelled>, phase: int)
    requires DistinctLabels(rows)
    ensures DistinctLabels(Selected(rows, phase))
  {
    var s := Selected(rows, phase);
    forall i, j | 0 <= i < j < |s| ensures s[i].row.kind != s[j].row.kind || s[i].name != s[j].name {
      var a, b := SelectedAt(rows, phase, i, j);
    }
  }

  lemma SortedLabelsDistinct(ls: seq<Labelled>)
    requires DistinctLabels(ls)
    ensures DistinctLabels(Sort(AddressLess(), ls))
  {
    hide AddressLess;
    var sorted := Sort(AddressLess(), ls);
    forall i, j | 0 <= i < j < |sorted|
      ensures sorted[i].row.kind != sorted[j].row.kind || sorted[i].name != sorted[j].name
    {
      var a := InMultiset(sorted[i], sorted, ls);
      var b := InMultiset(sorted[j], sorted, ls);
      if a == b {
        LabelledOnce(ls, a);
        Twice(sorted, i, j);
      }
    }
  }

  lemma LabelledOnce(ls: seq<Labelled>, a: nat)
    requires DistinctLabels(ls) && a < |ls|
    ensures multiset(ls)[ls[a]] == 1
  {
    assert ls == ls[..a] + [ls[a]] + ls[a + 1..];
    assert ls[a] !in ls[..a] && ls[a] !in ls[a + 1..];
  }

  lemma RowsHaveIds(overrides: map<string, string>, items: seq<Item>, r: Row)
    requires r in Rows(overrides, items) && forall i :: i in items ==> !Nameless(i)
    ensures r.id != ""
  {
    var k := RowIsNamed(overrides, items, r);
    assert items[k] in items;
  }

  /**
   * Main result: whatever the captures hold, the manifest that is built from them is
   * accepted for every choice of phase, unless a resource type has the empty name.
   */
  lemma ManifestIsAccepted(lower: string -> string, specs: seq<TypeSpec>, overrides: map<string, string>,
                           out: seq<Labelled>, phase: int)
    requires forall i :: i in AllItems(specs) ==> !Nameless(i)
    requires IsLabelling(lower, Sort(RowLess(lower), Rows(overrides, AllItems(specs))), out)
    ensures Acceptable(out, phase) <==> forall i :: 0 <= i < |out| ==> out[i].row.kind != ""
  {
    hide LabelOk, IsLabelling, Rows, Sort, RowLess, AddressOf, AddressLess;
    var rows := Rows(overrides, AllItems(specs));
    var sorted := Sort(RowLess(lower), rows);
    LabelsAreUnique(lower, sorted, out);
    assert DistinctLabels(out);
    SelectedDistinct(out, phase);
    var blocks := Sort(AddressLess(), Selected(out, phase));
    SortedLabelsDistinct(Selected(out, phase));
    forall l | l in out ensures l.row.id != "" && l.name != "" && LabelOk(l.name) {
      var i :| 0 <= i < |out| && out[i] == l;
      LabelledRow(lower, sorted, out, i);
      assert sorted[i] in multiset(sorted) && sorted[i] in rows;
      RowsHaveIds(overrides, AllItems(specs), l.row);
    }
    forall i, j | 0 <= i < j < |blocks| ensures AddressOf(blocks[i]) != AddressOf(blocks[j]) {
      assert blocks[i] in multiset(blocks) && blocks[j] in multiset(blocks);
      assert blocks[i] in Selected(out, phase) && blocks[j] in Selected(out, phase);
      if AddressOf(blocks[i]) == AddressOf(blocks[j]) { AddressSplits(blocks[i], blocks[j]); }
    }
  }

  lemma LabelledRow(lower: string -> string, rows: seq<Row>, out: seq<Labelled>, i: nat)
    requires IsLabelling(lower, rows, out) && i < |out|
    ensures |rows| == |out| && out[i].row == rows[i]
  {
    assert LabelledAt(lower, rows, out, i);
  }

}
