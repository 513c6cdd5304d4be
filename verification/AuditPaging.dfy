/** Paging the chain, newest first: every page is a slice of the chain, and the slices fit. */
module AuditPaging {
  import opened Strings
  import opened AuditChain
  import opened Store
  import opened AuditReader
  import Ulid

  function MonthOf(w: World, e: ChainEntry): int { w.month(w.dateMs(e.content.at)) }

  /** The append clock never stepped back over a month boundary. */
  ghost predicate MonthsOrdered(w: World, log: seq<ChainEntry>) {
    forall i, j :: 0 <= i <= j < |log| ==> MonthOf(w, log[i]) <= MonthOf(w, log[j])
  }

  /** The newest entry is at most one month ahead of the reader, the oldest below the walk's ceiling. */
  ghost predicate WithinWalk(w: World, log: seq<ChainEntry>, now: int) {
    forall i :: 0 <= i < |log| ==> now + 2 - 1200 < MonthOf(w, log[i]) <= now + 1
  }

  /** How many entries of the chain lie in months up to `month`. */
  function UpTo(w: World, log: seq<ChainEntry>, month: int): (n: nat)
    ensures n <= |log|
  {
    if log == [] then 0
    else if MonthOf(w, log[|log| - 1]) <= month then |log|
    else UpTo(w, log[..|log| - 1], month)
  }

  lemma {:induction false} UpToCuts(w: World, log: seq<ChainEntry>, month: int)
    requires MonthsOrdered(w, log)
    ensures forall i :: 0 <= i < |log| ==> (i < UpTo(w, log, month) <==> MonthOf(w, log[i]) <= month)
  {
    if log != [] && MonthOf(w, log[|log| - 1]) > month {
      var front := log[..|log| - 1];
      UpToCuts(w, front, month);
      forall i | 0 <= i < |log| ensures i < UpTo(w, log, month) <==> MonthOf(w, log[i]) <= month {
        if i < |front| { assert front[i] == log[i]; }
      }
    }
  }

  lemma UpToMonotone(w: World, log: seq<ChainEntry>, lo: int, hi: int)
    requires MonthsOrdered(w, log) && lo <= hi
    ensures UpTo(w, log, lo) <= UpTo(w, log, hi)
  {
    UpToCuts(w, log, lo);
    UpToCuts(w, log, hi);
  }

  function IdsOf(es: seq<ChainEntry>): (ids: seq<string>)
    ensures |ids| == |es| && forall i :: 0 <= i < |es| ==> ids[i] == es[i].content.id
  {
    seq(|es|, i requires 0 <= i < |es| => es[i].content.id)
  }

  /** The entries of one month, as a stretch of the chain. */
  function MonthSlice(w: World, log: seq<ChainEntry>, month: int): seq<ChainEntry> {
    var lo, hi := UpTo(w, log, month - 1), UpTo(w, log, month);
    if lo <= hi then log[lo..hi] else []
  }

  lemma MonthSliceIs(w: World, log: seq<ChainEntry>, month: int)
    requires MonthsOrdered(w, log)
    ensures UpTo(w, log, month - 1) <= UpTo(w, log, month)
    ensures forall e :: e in MonthSlice(w, log, month) <==> e in log && MonthOf(w, e) == month
  {
    hide MonthOf, MonthsOrdered, UpTo;
    UpToMonotone(w, log, month - 1, month);
    UpToCuts(w, log, month - 1);
    UpToCuts(w, log, month);
    var lo, slice := UpTo(w, log, month - 1), MonthSlice(w, log, month);
    forall e | e in log && MonthOf(w, e) == month ensures e in slice {
      var i :| 0 <= i < |log| && log[i] == e;
      assert slice[i - lo] == e;
    }
    forall e | e in slice ensures e in log && MonthOf(w, e) == month {
      var i :| 0 <= i < |slice| && slice[i] == e;
      assert log[lo + i] == e;
    }
  }

  lemma SliceIdsAscend(w: World, log: seq<ChainEntry>, month: int)
    requires IdsIncrease(log)
    ensures Ascending(IdsOf(MonthSlice(w, log, month)))
  {
    hide Less;
    var lo, slice := UpTo(w, log, month - 1), MonthSlice(w, log, month);
    forall i, j | 0 <= i < j < |slice| ensures Less(slice[i].content.id, slice[j].content.id) {
      assert slice[i] == log[lo + i] && slice[j] == log[lo + j];
    }
  }

  lemma StoredUnderKey(w: World, db: Db, project: string, log: seq<ChainEntry>, e: ChainEntry)
    requires Holds(w, db, project, log)
    ensures e in log ==> KeyFor(w, project, e.content) in db.audit && db.audit[KeyFor(w, project, e.content)] == e
  {
    if e in log { var i :| 0 <= i < |log| && log[i] == e; }
  }

  /** A month partition is a stretch of the chain. */
  lemma PartitionIsSlice(w: World, db: Db, project: string, log: seq<ChainEntry>, month: int)
    requires Holds(w, db, project, log) && MonthsOrdered(w, log)
    ensures Partition(db, project, month) == MonthSlice(w, log, month)
    ensures SortedIds(MonthIds(db, project, month)) == IdsOf(MonthSlice(w, log, month))
  {
    hide Linked, Less, HeldEntries, MonthSlice, SortedIds, MonthsOrdered;
    MonthSliceIs(w, log, month);
    SliceIdsAscend(w, log, month);
    var slice := MonthSlice(w, log, month);
    var ids := IdsOf(slice);
    forall i | 0 <= i < |slice|
      ensures AuditKey(project, month, ids[i]) in db.audit && db.audit[AuditKey(project, month, ids[i])] == slice[i]
    {
      assert slice[i] in slice;
      StoredUnderKey(w, db, project, log, slice[i]);
    }
    forall x | x in MonthIds(db, project, month) ensures x in ids {
      var e := db.audit[AuditKey(project, month, x)];
      assert e in slice;
      var i :| 0 <= i < |slice| && slice[i] == e;
      assert ids[i] == x;
    }
    SortedIdsAscend(MonthIds(db, project, month));
    OneOrder(ids, SortedIds(MonthIds(db, project, month)));
  }

  lemma {:induction false} SpanIsSlice(w: World, db: Db, project: string, log: seq<ChainEntry>, lo: int, hi: int)
    requires Holds(w, db, project, log) && MonthsOrdered(w, log) && lo <= hi
    ensures UpTo(w, log, lo) <= UpTo(w, log, hi)
    ensures Span(db, project, lo, hi) == log[UpTo(w, log, lo)..UpTo(w, log, hi)]
    decreases hi - lo
  {
    hide Holds, MonthsOrdered, UpTo;
    UpToMonotone(w, log, lo, hi);
    if lo < hi {
      SpanIsSlice(w, db, project, log, lo, hi - 1);
      PartitionIsSlice(w, db, project, log, hi);
      MonthSliceIs(w, log, hi);
    }
  }

  lemma NothingBelow(w: World, log: seq<ChainEntry>, month: int)
    requires MonthsOrdered(w, log) && forall i :: 0 <= i < |log| ==> month < MonthOf(w, log[i])
    ensures UpTo(w, log, month) == 0
  {
    UpToCuts(w, log, month);
  }

  /**
   * Main result on reading: what the month walk can reach is the chain, in chain order,
   * also when the newest entries lie one month ahead of the reader's clock.
   */
  lemma ReachableIsChain(w: World, db: Db, project: string, log: seq<ChainEntry>, now: int)
    requires Holds(w, db, project, log) && MonthsOrdered(w, log) && WithinWalk(w, log, now)
    ensures Reachable(db, project, now) == log
  {
    SpanIsSlice(w, db, project, log, now + 1 - MAX_MONTHS_WALKED, now + 1);
    NothingBelow(w, log, now + 1 - MAX_MONTHS_WALKED);
  }

  // ---- cursors -----------------------------------------------------------------------------------

  function MonthOfAuditId(w: World, id: string): Option<int> {
    if Ulid.WellFormed(id) then Some(w.month(Ulid.TimeOf(id))) else None
  }

  /** How many reads the guess from the id itself takes. */
  function GuessReads(w: World, cursor: string): nat { if MonthOfAuditId(w, cursor).Some? then 1 else 0 }

  /** Probe `i` of the walk found nothing in its month. */
  predicate Missed(views: seq<Db>, project: string, now: int, cursor: string, off: nat, i: nat) {
    i + off < |views| && AuditKey(project, now + 1 - i, cursor) !in views[i + off].audit
  }

  predicate AllMissed(views: seq<Db>, project: string, now: int, cursor: string, off: nat, n: nat) {
    forall i: nat :: i < n ==> Missed(views, project, now, cursor, off, i)
  }

  /**
   * What locating a cursor amounts to: one point read where the id says it is, then one per
   * month of the walk, until a read finds it.
   */
  ghost predicate Locates(w: World, views: seq<Db>, project: string, now: int, cursor: string, r: Option<int>) {
    var guess, off := MonthOfAuditId(w, cursor), GuessReads(w, cursor);
    match r
    case Some(month) =>
      && views != [] && AuditKey(project, month, cursor) in views[|views| - 1].audit
      && (if guess.Some? && |views| == 1 then month == guess.value
          else off < |views| <= MAX_MONTHS_WALKED + off && month == now + 2 + off - |views|)
    case None =>
      && |views| == MAX_MONTHS_WALKED + off
      && (guess.Some? ==> AuditKey(project, guess.value, cursor) !in views[0].audit)
      && AllMissed(views, project, now, cursor, off, MAX_MONTHS_WALKED)
  }

  lemma NoneMissed(views: seq<Db>, project: string, now: int, cursor: string, off: nat)
    ensures AllMissed(views, project, now, cursor, off, 0)
  {
  }

  lemma OneMoreMissed(views: seq<Db>, db: Db, project: string, now: int, cursor: string, off: nat, n: nat)
    requires AllMissed(views, project, now, cursor, off, n) && |views| == n + off
    requires AuditKey(project, now + 1 - n, cursor) !in db.audit
    ensures AllMissed(views + [db], project, now, cursor, off, n + 1)
  {
    forall i: nat | i < n + 1 ensures Missed(views + [db], project, now, cursor, off, i) {
      if i < n { assert Missed(views, project, now, cursor, off, i); }
    }
  }

  method LocateCursor(w: World, store: ReadStore, project: string, now: int, cursor: string) returns (r: Option<int>)
    modifies store
    ensures old(store.seen) <= store.seen
    ensures Locates(w, Views(old(store.seen), store.seen), project, now, cursor, r)
  {
    hide AllMissed;
    ghost var past, views, off := store.seen, [], GuessReads(w, cursor);
    var time := Ulid.UlidTimeMs(cursor);
    var guess := if time.Some? then Some(w.month(time.value)) else None;
    if guess.Some? {
      store.Turn();
      views := [store.db];
      assert Views(past, store.seen) == views;
      if AuditKey(project, guess.value, cursor) in store.db.audit { return guess; }
    }
    NoneMissed(views, project, now, cursor, off);
    var walk := new MonthsBackward(now);
    for steps := 0 to MAX_MONTHS_WALKED
      invariant walk.Valid() && walk.Index() == now + 1 - steps
      invariant store.seen == past + views && |views| == steps + off
      invariant guess.Some? ==> AuditKey(project, guess.value, cursor) !in views[0].audit
      invariant AllMissed(views, project, now, cursor, off, steps)
    {
      var month := walk.Next();
      store.Turn();
      ghost var before := views;
      views := views + [store.db];
      assert Views(past, store.seen) == views;
      if AuditKey(project, month, cursor) in store.db.audit { return Some(month); }
      OneMoreMissed(before, store.db, project, now, cursor, off, steps);
    }
    assert Views(past, store.seen) == views;
    return None;
  }

  /** The position of an id in the chain. */
  ghost predicate At(log: seq<ChainEntry>, id: string, i: nat) { i < |log| && log[i].content.id == id }

  lemma AtOnce(log: seq<ChainEntry>, id: string, i: nat, j: nat)
    requires IdsIncrease(log) && At(log, id, i) && At(log, id, j)
    ensures i == j
  {
    if i < j { LessAsymmetric(log[i].content.id, log[j].content.id); }
    if j < i { LessAsymmetric(log[j].content.id, log[i].content.id); }
  }

  // ---- one page ------------------------------------------------------------------------------------

  /** The `n` newest of the first `c` entries, newest first. */
  function Newest(log: seq<ChainEntry>, c: nat, n: nat): (r: seq<ChainEntry>)
    requires n <= c <= |log|
    ensures |r| == n && forall i :: 0 <= i < n ==> r[i] == log[c - 1 - i]
  {
    seq(n, i requires 0 <= i < n => log[c - 1 - i])
  }

  /** Strictly before the cursor in the direction of the walk, or no cursor at all. */
  predicate Below(id: string, after: Option<string>) { after.None? || Less(id, after.value) }

  function Min(a: int, b: int): int { if a < b then a else b }

  /** How many of some ascending sort keys lie below a bound. */
  function CutOf(ids: seq<string>, after: Option<string>): (cut: nat)
    ensures cut <= |ids|
  {
    if ids == [] then 0
    else if Below(ids[|ids| - 1], after) then |ids|
    else CutOf(ids[..|ids| - 1], after)
  }

  lemma {:induction false} CutIs(ids: seq<string>, after: Option<string>, i: nat)
    requires Ascending(ids) && i < |ids|
    ensures i < CutOf(ids, after) <==> Below(ids[i], after)
  {
    hide Less;
    var n := |ids| - 1;
    if Below(ids[n], after) {
      if i < n && after.Some? { LessTransitive(ids[i], ids[n], after.value); }
    } else if i < n {
      CutIs(ids[..n], after, i);
    }
  }

  lemma CutsAt(ids: seq<string>, after: Option<string>)
    requires Ascending(ids)
    ensures forall i :: 0 <= i < |ids| ==> (i < CutOf(ids, after) <==> Below(ids[i], after))
  {
    hide Below, CutOf, Ascending;
    forall i | 0 <= i < |ids| ensures i < CutOf(ids, after) <==> Below(ids[i], after) { CutIs(ids, after, i); }
  }

  lemma CutFits(db: Db, project: string, month: int, after: Option<string>)
    ensures CutOf(SortedIds(MonthIds(db, project, month)), after) <= |Partition(db, project, month)|
  {
  }

  /** At most `limit` rows of a partition, strictly below `after`, newest first. */
  ghost function NewestOf(db: Db, project: string, month: int, limit: nat, after: Option<string>): seq<ChainEntry> {
    CutFits(db, project, month, after);
    var cut := CutOf(SortedIds(MonthIds(db, project, month)), after);
    Newest(Partition(db, project, month), cut, Min(limit, cut))
  }

  /** The rows of one partition that such a query returns, walked from the newest down. */
  method NewestRows(db: Db, project: string, month: int, limit: nat, after: Option<string>)
    returns (rows: seq<ChainEntry>)
    ensures rows == NewestOf(db, project, month, limit, after)
  {
    hide Below, SortedIds, CutOf;
    var ids := QueryIds(db, project, month);
    ghost var part := Partition(db, project, month);
    assert forall x :: x in ids ==> AuditKey(project, month, x) in db.audit;
    assert |part| == |ids| && forall i :: 0 <= i < |ids| ==> part[i] == db.audit[AuditKey(project, month, ids[i])];
    hide Partition, MonthIds;
    CutsAt(ids, after);
    ghost var cut := CutOf(ids, after);
    rows := [];
    var k := |ids|;
    while k > 0 && |rows| < limit
      invariant 0 <= k <= |ids| && |rows| <= limit
      invariant |rows| == if k < cut then cut - k else 0
      invariant forall i :: 0 <= i < |rows| ==> rows[i] == part[cut - 1 - i]
      decreases k
    {
      k := k - 1;
      if !Below(ids[k], after) { continue; }
      rows := rows + [db.audit[AuditKey(project, month, ids[k])]];
    }
  }

  /** The query behind a page. */
  method QueryNewest(store: ReadStore, project: string, month: int, limit: nat, after: Option<string>)
    returns (rows: seq<ChainEntry>)
    modifies store
    ensures store.seen == old(store.seen) + [store.db]
    ensures rows == NewestOf(store.db, project, month, limit, after)
  {
    store.Turn();
    rows := NewestRows(store.db, project, month, limit, after);
  }

  /** Where a page starts: below the cursor, or above the whole chain; an unknown cursor starts nowhere. */
  ghost predicate StartsAt(log: seq<ChainEntry>, cursor: Option<string>, c: nat) {
    if cursor.None? then c == |log| else At(log, cursor.value, c)
  }

  /** The page a reader gets: `Newest` of what lies below the cursor. */
  ghost predicate IsPage(log: seq<ChainEntry>, cursor: Option<string>, limit: nat, items: seq<ChainEntry>,
                         hasMore: bool) {
    exists c: nat :: StartsAt(log, cursor, c) && items == Newest(log, c, Min(limit, c)) && (hasMore <==> c > limit)
  }

  lemma SliceBelow(w: World, db: Db, project: string, log: seq<ChainEntry>, c: nat, after: Option<string>, i: nat)
    requires Holds(w, db, project, log) && i < |log|
    requires if after.None? then c == |log| else At(log, after.value, c)
    ensures Below(log[i].content.id, after) <==> i < c
  {
    if after.Some? {
      LessIrreflexive(after.value);
      if i > c { LessAsymmetric(log[c].content.id, log[i].content.id); }
    }
  }

  lemma CutIsCursor(w: World, db: Db, project: string, log: seq<ChainEntry>, c: nat, after: Option<string>,
                    lo: nat, hi: nat, cut: nat)
    requires Holds(w, db, project, log) && lo <= hi <= |log|
    requires if after.None? then c == |log| else At(log, after.value, c)
    requires cut <= hi - lo
    requires forall i :: 0 <= i < hi - lo ==> (i < cut <==> Below(log[lo..hi][i].content.id, after))
    ensures cut == Min(c, hi) - Min(c, lo)
  {
    hide Holds, Below;
    if cut > 0 {
      assert log[lo..hi][cut - 1] == log[lo + (cut - 1)];
      SliceBelow(w, db, project, log, c, after, lo + (cut - 1));
    }
    if cut < hi - lo {
      assert log[lo..hi][cut] == log[lo + cut];
      SliceBelow(w, db, project, log, c, after, lo + cut);
    }
  }

  /** What a page query returns, as a stretch of the chain its store holds. */
  lemma NewestOfIs(w: World, db: Db, project: string, log: seq<ChainEntry>, c: nat, month: int, limit: nat,
                   after: Option<string>)
    requires Holds(w, db, project, log) && MonthsOrdered(w, log) && StartsAt(log, after, c)
    ensures var hi, lo := Min(c, UpTo(w, log, month)), Min(c, UpTo(w, log, month - 1));
            0 <= lo <= hi <= |log| && NewestOf(db, project, month, limit, after) == Newest(log, hi, Min(limit, hi - lo))
  {
    hide Holds, MonthsOrdered, Below, UpTo, CutOf, SortedIds, MonthIds;
    var ids := SortedIds(MonthIds(db, project, month));
    var cut := CutOf(ids, after);
    SortedIdsAscend(MonthIds(db, project, month));
    CutsAt(ids, after);
    PartitionIsSlice(w, db, project, log, month);
    MonthSliceIs(w, log, month);
    var lo, hi := UpTo(w, log, month - 1), UpTo(w, log, month);
    assert MonthSlice(w, log, month) == log[lo..hi];
    CutIsCursor(w, db, project, log, c, after, lo, hi, cut);
    SliceNewest(log, c, lo, hi, cut, limit);
  }

  lemma SliceNewest(log: seq<ChainEntry>, c: nat, lo: nat, hi: nat, cut: nat, limit: nat)
    requires c <= |log| && lo <= hi <= |log| && cut == Min(c, hi) - Min(c, lo)
    ensures Newest(log[lo..hi], cut, Min(limit, cut)) == Newest(log, Min(c, hi), Min(limit, Min(c, hi) - Min(c, lo)))
  {
  }

  // ---- one page of a chain that grows meanwhile -------------------------------------------------------

  /** What one call's reads see of a project: chains that grow towards `all`, which is in month order. */
  ghost predicate GrowsTo(w: World, project: string, views: seq<Db>, logs: seq<seq<ChainEntry>>, all: seq<ChainEntry>) {
    && |views| == |logs| && MonthsOrdered(w, all) && IdsIncrease(all)
    && (forall i :: 0 <= i < |views| ==> Holds(w, views[i], project, logs[i]) && logs[i] <= all)
    && (forall i, j :: 0 <= i <= j < |logs| ==> |logs[i]| <= |logs[j]|)
  }

  lemma GrownAt(w: World, project: string, views: seq<Db>, logs: seq<seq<ChainEntry>>, all: seq<ChainEntry>, n: nat)
    requires GrowsTo(w, project, views, logs, all) && n < |views|
    ensures |logs| == |views| && Holds(w, views[n], project, logs[n]) && logs[n] <= all && MonthsOrdered(w, all)
    ensures |logs[0]| <= |logs[n]| && (n > 0 ==> |logs[n - 1]| <= |logs[n]|)
  {
  }

  lemma GrownLength(w: World, project: string, views: seq<Db>, logs: seq<seq<ChainEntry>>, all: seq<ChainEntry>)
    requires GrowsTo(w, project, views, logs, all)
    ensures |logs| == |views|
  {
  }

  lemma InMonthOrder(w: World, project: string, views: seq<Db>, logs: seq<seq<ChainEntry>>, all: seq<ChainEntry>)
    requires GrowsTo(w, project, views, logs, all)
    ensures MonthsOrdered(w, all)
  {
  }

  lemma UpToPrefix(w: World, log: seq<ChainEntry>, all: seq<ChainEntry>, month: int)
    requires log <= all && MonthsOrdered(w, all)
    ensures MonthsOrdered(w, log) && UpTo(w, log, month) == Min(|log|, UpTo(w, all, month))
  {
    hide MonthOf;
    UpToCuts(w, all, month);
    UpToCuts(w, log, month);
    var n, m := UpTo(w, log, month), UpTo(w, all, month);
    if n < |log| { assert log[n] == all[n]; }
    if 0 < n { assert log[n - 1] == all[n - 1]; }
  }

  /** How many more entries a page wants. */
  function Room(want: nat, items: seq<ChainEntry>): nat { if |items| < want then want - |items| else 0 }

  /** What a page walk from month `from` brings back whose queries saw `views`. */
  ghost function Paged(views: seq<Db>, project: string, from: int, want: nat, after: Option<string>): seq<ChainEntry> {
    if views == [] then []
    else
      var n := |views| - 1;
      var front := Paged(views[..n], project, from, want, after);
      front + NewestOf(views[n], project, from + 1 - n, Room(want, front), after)
  }

  lemma PagedStep(views: seq<Db>, project: string, from: int, want: nat, after: Option<string>, n: nat)
    requires n < |views|
    ensures var front := Paged(views[..n], project, from, want, after);
            Paged(views[..n + 1], project, from, want, after)
            == front + NewestOf(views[n], project, from + 1 - n, Room(want, front), after)
  {
    hide NewestOf;
    assert views[..n + 1][..n] == views[..n];
  }

  lemma PagedOneMore(views: seq<Db>, db: Db, project: string, from: int, want: nat, after: Option<string>)
    ensures var front := Paged(views, project, from, want, after);
            Paged(views + [db], project, from, want, after)
            == front + NewestOf(db, project, from + 1 - |views|, Room(want, front), after)
  {
    hide NewestOf;
    assert (views + [db])[..|views|] == views;
  }

  /** How far a page has got: `items` are the newest of the first `c` entries, down to month `lo`. */
  ghost predicate PageSoFar(w: World, log: seq<ChainEntry>, c: nat, want: nat, lo: int, items: seq<ChainEntry>) {
    c <= |log| && items == Newest(log, c, Min(want, c - Min(c, UpTo(w, log, lo))))
  }

  lemma NewestJoins(log: seq<ChainEntry>, c: nat, want: nat, lo: nat, hi: nat, items: seq<ChainEntry>,
                    rows: seq<ChainEntry>)
    requires lo <= hi <= c <= |log| && items == Newest(log, c, Min(want, c - hi))
    requires rows == Newest(log, hi, Min(Room(want, items), hi - lo))
    ensures items + rows == Newest(log, c, Min(want, c - lo))
  {
    var items', n := items + rows, Min(want, c - lo);
    assert |items'| == n;
    forall i | 0 <= i < n ensures items'[i] == log[c - 1 - i] {
      if i >= |items| { assert items'[i] == rows[i - |items|]; }
    }
  }

  lemma NewestStands(log: seq<ChainEntry>, all: seq<ChainEntry>, c: nat, n: nat)
    requires log <= all && n <= c <= |log|
    ensures Newest(log, c, n) == Newest(all, c, n)
  {
  }

  /** The rows of one month below `c`, taken from a chain on its way to `all`. */
  lemma RowsOnTheWay(w: World, db: Db, project: string, log: seq<ChainEntry>, all: seq<ChainEntry>, c: nat,
                     month: int, limit: nat, after: Option<string>)
    requires Holds(w, db, project, log) && log <= all && MonthsOrdered(w, all) && StartsAt(log, after, c)
    ensures var hi, lo := Min(c, UpTo(w, all, month)), Min(c, UpTo(w, all, month - 1));
            0 <= lo <= hi <= |log| && NewestOf(db, project, month, limit, after) == Newest(all, hi, Min(limit, hi - lo))
  {
    hide Holds, MonthsOrdered, UpTo, NewestOf;
    UpToPrefix(w, log, all, month);
    UpToPrefix(w, log, all, month - 1);
    UpToMonotone(w, all, month - 1, month);
    NewestOfIs(w, db, project, log, c, month, limit, after);
    var hi, lo := Min(c, UpTo(w, all, month)), Min(c, UpTo(w, all, month - 1));
    NewestStands(log, all, hi, Min(limit, hi - lo));
  }

  lemma NothingPaged(views: seq<Db>, project: string, from: int, want: nat, after: Option<string>)
    ensures Paged(views[..0], project, from, want, after) == []
  {
  }

  lemma PageStarts(w: World, all: seq<ChainEntry>, c: nat, want: nat, month: int)
    requires MonthsOrdered(w, all) && c < |all| && MonthOf(w, all[c]) <= month
    ensures PageSoFar(w, all, c, want, month, [])
  {
    hide MonthOf;
    UpToCuts(w, all, month);
  }

  /** One more month of a page below a cursor. */
  lemma BelowStep(w: World, db: Db, project: string, log: seq<ChainEntry>, all: seq<ChainEntry>, c: nat,
                  month: int, want: nat, cursor: string, front: seq<ChainEntry>)
    requires Holds(w, db, project, log) && log <= all && MonthsOrdered(w, all) && At(log, cursor, c)
    requires PageSoFar(w, all, c, want, month, front)
    ensures PageSoFar(w, all, c, want, month - 1,
                      front + NewestOf(db, project, month, Room(want, front), Some(cursor)))
  {
    hide Holds, UpTo, NewestOf, MonthsOrdered;
    var limit := Room(want, front);
    RowsOnTheWay(w, db, project, log, all, c, month, limit, Some(cursor));
    NewestJoins(all, c, want, Min(c, UpTo(w, all, month - 1)), Min(c, UpTo(w, all, month)), front,
                NewestOf(db, project, month, limit, Some(cursor)));
  }

  ghost predicate BelowRead(w: World, project: string, views: seq<Db>, all: seq<ChainEntry>, c: nat, from: int,
                            want: nat, cursor: string, n: nat)
    requires n <= |views|
  {
    PageSoFar(w, all, c, want, from + 1 - n, Paged(views[..n], project, from, want, Some(cursor)))
  }

  lemma BelowReadStep(w: World, project: string, views: seq<Db>, logs: seq<seq<ChainEntry>>, all: seq<ChainEntry>,
                      c: nat, from: int, want: nat, cursor: string, k: nat)
    requires GrowsTo(w, project, views, logs, all) && At(all, cursor, c) && k < |views| && c < |logs[0]|
    requires BelowRead(w, project, views, all, c, from, want, cursor, k)
    ensures BelowRead(w, project, views, all, c, from, want, cursor, k + 1)
  {
    hide GrowsTo, Holds, MonthsOrdered, IdsIncrease, UpTo, NewestOf, Paged, MonthOf, PageSoFar;
    GrownAt(w, project, views, logs, all, k);
    assert logs[k][c] == all[c];
    PagedStep(views, project, from, want, Some(cursor), k);
    BelowStep(w, views[k], project, logs[k], all, c, from + 1 - k, want, cursor,
              Paged(views[..k], project, from, want, Some(cursor)));
  }

  /** What lies below a cursor that has been found does not change any more. */
  lemma {:induction false} PagedBelow(w: World, project: string, views: seq<Db>, logs: seq<seq<ChainEntry>>,
                                      all: seq<ChainEntry>, c: nat, from: int, want: nat, cursor: string, n: nat)
    requires GrowsTo(w, project, views, logs, all) && At(all, cursor, c) && MonthOf(w, all[c]) == from
    requires n <= |views| && (views != [] ==> c < |logs[0]|)
    ensures BelowRead(w, project, views, all, c, from, want, cursor, n)
    decreases n
  {
    hide GrowsTo, MonthsOrdered;
    GrownLength(w, project, views, logs, all);
    if n == 0 {
      InMonthOrder(w, project, views, logs, all);
      NothingPaged(views, project, from, want, Some(cursor));
      PageStarts(w, all, c, want, from + 1);
    } else {
      hide BelowRead;
      PagedBelow(w, project, views, logs, all, c, from, want, cursor, n - 1);
      BelowReadStep(w, project, views, logs, all, c, from, want, cursor, n - 1);
    }
  }

  /** How far a first page has got: the newest of the `h` entries there were when its first entry was read. */
  ghost predicate FirstSoFar(w: World, all: seq<ChainEntry>, h: nat, want: nat, lo: int, items: seq<ChainEntry>) {
    PageSoFar(w, all, h, want, lo, items) && (items == [] <==> h <= UpTo(w, all, lo))
  }

  lemma FirstStarts(w: World, all: seq<ChainEntry>, h: nat, want: nat, month: int)
    requires h <= UpTo(w, all, month)
    ensures FirstSoFar(w, all, h, want, month, [])
  {
    hide UpTo;
  }

  /** One more month of a first page, on a chain that may have grown since the month before. */
  lemma FirstStep(w: World, db: Db, project: string, log: seq<ChainEntry>, all: seq<ChainEntry>, h: nat,
                  month: int, want: nat, front: seq<ChainEntry>)
    returns (h': nat)
    requires Holds(w, db, project, log) && log <= all && MonthsOrdered(w, all) && h <= |log| && want > 0
    requires FirstSoFar(w, all, h, want, month, front)
    ensures h <= h' <= |log| && (if front == [] then h' <= UpTo(w, all, month) else h' == h)
    ensures FirstSoFar(w, all, h', want, month - 1, front + NewestOf(db, project, month, Room(want, front), None))
  {
    hide Holds, UpTo, NewestOf, MonthsOrdered;
    var limit := Room(want, front);
    var rows := NewestOf(db, project, month, limit, None);
    RowsOnTheWay(w, db, project, log, all, |log|, month, limit, None);
    UpToMonotone(w, all, month - 1, month);
    var hi, lo := Min(|log|, UpTo(w, all, month)), Min(|log|, UpTo(w, all, month - 1));
    h' := if front == [] then hi else h;
    NewestJoins(all, h', want, lo, hi, front, rows);
  }

  /** After `n` queries a first page holds the newest of the `h` entries of some chain met on the way. */
  ghost predicate FirstRead(w: World, project: string, views: seq<Db>, logs: seq<seq<ChainEntry>>,
                            all: seq<ChainEntry>, least: nat, from: int, want: nat, n: nat, h: nat)
    requires n <= |views| == |logs|
  {
    && least <= h <= (if n == 0 then least else |logs[n - 1]|) && h <= |all|
    && FirstSoFar(w, all, h, want, from + 1 - n, Paged(views[..n], project, from, want, None))
  }

  lemma FirstReadStep(w: World, project: string, views: seq<Db>, logs: seq<seq<ChainEntry>>,
                      all: seq<ChainEntry>, least: nat, from: int, want: nat, k: nat, g: nat)
    returns (h: nat)
    requires GrowsTo(w, project, views, logs, all) && want > 0 && k < |views| && least <= |logs[0]|
    requires FirstRead(w, project, views, logs, all, least, from, want, k, g)
    ensures FirstRead(w, project, views, logs, all, least, from, want, k + 1, h)
    ensures if Paged(views[..k], project, from, want, None) == [] then h <= UpTo(w, all, from + 1 - k) else h == g
  {
    hide GrowsTo, Holds, MonthsOrdered, IdsIncrease, UpTo, NewestOf, Paged, MonthOf, FirstSoFar;
    GrownAt(w, project, views, logs, all, k);
    PagedStep(views, project, from, want, None, k);
    h := FirstStep(w, views[k], project, logs[k], all, g, from + 1 - k, want,
                   Paged(views[..k], project, from, want, None));
  }

  lemma FirstReadStarts(w: World, project: string, views: seq<Db>, logs: seq<seq<ChainEntry>>,
                        all: seq<ChainEntry>, least: nat, from: int, want: nat)
    requires |views| == |logs| && least <= UpTo(w, all, from + 1)
    ensures FirstRead(w, project, views, logs, all, least, from, want, 0, least)
  {
    hide UpTo, Paged, FirstSoFar;
    NothingPaged(views, project, from, want, None);
    FirstStarts(w, all, least, want, from + 1);
  }

  /** A page without a cursor: the newest entries of the chain as it stood at some moment of the read. */
  lemma {:induction false} PagedFirst(w: World, project: string, views: seq<Db>, logs: seq<seq<ChainEntry>>,
                                      all: seq<ChainEntry>, least: nat, from: int, want: nat, n: nat)
    returns (h: nat)
    requires GrowsTo(w, project, views, logs, all) && want > 0 && n <= |views|
    requires least <= UpTo(w, all, from + 1) && (views != [] ==> least <= |logs[0]|)
    ensures FirstRead(w, project, views, logs, all, least, from, want, n, h)
    decreases n
  {
    hide GrowsTo, FirstRead, UpTo;
    GrownLength(w, project, views, logs, all);
    if n == 0 {
      h := least;
      FirstReadStarts(w, project, views, logs, all, least, from, want);
    } else {
      var g := PagedFirst(w, project, views, logs, all, least, from, want, n - 1);
      h := FirstReadStep(w, project, views, logs, all, least, from, want, n - 1, g);
    }
  }

  // ---- reading a page ------------------------------------------------------------------------------------

  /** A page's walk has enough; without a cursor the head's count is enough too. */
  ghost predicate PageFull(views: seq<Db>, project: string, from: int, want: nat, after: Option<string>, total: nat) {
    var got := |Paged(views, project, from, want, after)|;
    got >= want || (after.None? && got >= total)
  }

  /** When a page's walk stops: as soon as it has enough, and not before, or at the walk's ceiling. */
  ghost predicate PageStops(views: seq<Db>, project: string, from: int, want: nat, after: Option<string>, total: nat) {
    && |views| <= MAX_MONTHS_WALKED
    && (|views| == MAX_MONTHS_WALKED || PageFull(views, project, from, want, after, total))
    && NotFullBefore(views, project, from, want, after, total)
  }

  ghost predicate NotFullBefore(views: seq<Db>, project: string, from: int, want: nat, after: Option<string>,
                                total: nat) {
    forall n :: 0 <= n < |views| ==> !PageFull(views[..n], project, from, want, after, total)
  }

  lemma NothingFull(project: string, from: int, want: nat, after: Option<string>, total: nat)
    ensures NotFullBefore([], project, from, want, after, total)
  {
  }

  lemma NotFullYet(views: seq<Db>, db: Db, project: string, from: int, want: nat, after: Option<string>, total: nat)
    requires NotFullBefore(views, project, from, want, after, total)
    requires !PageFull(views, project, from, want, after, total)
    ensures NotFullBefore(views + [db], project, from, want, after, total)
  {
    hide PageFull;
    var more := views + [db];
    forall n | 0 <= n < |more| ensures !PageFull(more[..n], project, from, want, after, total) {
      assert more[..n] == if n < |views| then views[..n] else views;
    }
  }

  /** The page that such a walk gives: one entry more than the limit says that there is more. */
  ghost predicate PageOf(views: seq<Db>, project: string, from: int, limit: nat, after: Option<string>, total: nat,
                         items: seq<ChainEntry>, hasMore: bool) {
    var got := Paged(views, project, from, limit + 1, after);
    && PageStops(views, project, from, limit + 1, after, total)
    && (hasMore <==> |got| > limit) && items == if hasMore then got[..limit] else got
  }

  /** What reading a page amounts to, by what each of its reads saw: the head, the cursor's month, the walk. */
  ghost predicate PageReads(w: World, views: seq<Db>, project: string, now: int, limit: nat, cursor: Option<string>,
                            items: seq<ChainEntry>, hasMore: bool) {
    views != [] &&
    var total := CountOf(HeadOf(views[0], project));
    if total == 0 then items == [] && !hasMore && |views| == 1
    else if cursor.None? then PageOf(views[1..], project, now, limit, None, total, items, hasMore)
    else exists p: nat, r :: 1 <= p <= |views| && Locates(w, views[1..p], project, now, cursor.value, r)
           && if r.None? then p == |views| && items == [] && !hasMore
              else PageOf(views[p..], project, r.value, limit, cursor, total, items, hasMore)
  }

  method ReadAuditPage(w: World, store: ReadStore, project: string, now: int, limit: nat, cursor: Option<string>)
    returns (items: seq<ChainEntry>, hasMore: bool)
    modifies store
    ensures old(store.seen) < store.seen
    ensures PageReads(w, Views(old(store.seen), store.seen), project, now, limit, cursor, items, hasMore)
  {
    hide Locates, PageOf;
    ghost var past := store.seen;
    var head := store.GetHead(project);
    assert Views(past, store.seen) == [store.db];
    var total := if head.Some? then head.value.count else 0;
    if total == 0 { return [], false; }
    ghost var seen1 := store.seen;
    var from := now;
    if cursor.Some? {
      var month := LocateCursor(w, store, project, now, cursor.value);
      assert Views(past, store.seen)[1..|store.seen| - |past|] == Views(seen1, store.seen);
      if month.None? { return [], false; }
      from := month.value;
    }
    ghost var seen2 := store.seen;
    items, hasMore := WalkPage(store, project, from, limit, cursor, total);
    assert Views(past, store.seen)[1..|seen2| - |past|] == Views(seen1, seen2);
    assert Views(past, store.seen)[|seen2| - |past|..] == Views(seen2, store.seen);
  }

  /** The walk of one page, from month `from` on. */
  method WalkPage(store: ReadStore, project: string, from: int, limit: nat, after: Option<string>, total: nat)
    returns (items: seq<ChainEntry>, hasMore: bool)
    modifies store
    ensures old(store.seen) <= store.seen
    ensures PageOf(Views(old(store.seen), store.seen), project, from, limit, after, total, items, hasMore)
  {
    hide NewestOf, NotFullBefore, Paged;
    ghost var past, views := store.seen, [];
    var want := limit + 1;
    assert views[..0] == views;
    NothingPaged(views, project, from, want, after);
    NothingFull(project, from, want, after, total);
    items := [];
    var walk := new MonthsBackward(from);
    var seen, steps := 0, 0;
    while steps < MAX_MONTHS_WALKED && |items| < want && !(after.None? && seen >= total)
      invariant walk.Valid() && walk.Index() == from + 1 - steps && steps == |views| <= MAX_MONTHS_WALKED
      invariant store.seen == past + views && items == Paged(views, project, from, want, after)
      invariant seen == |items|
      invariant NotFullBefore(views, project, from, want, after, total)
      decreases MAX_MONTHS_WALKED - steps
    {
      var month := walk.Next();
      var chunk := QueryNewest(store, project, month, want - |items|, after);
      NotFullYet(views, store.db, project, from, want, after, total);
      PagedOneMore(views, store.db, project, from, want, after);
      seen := seen + |chunk|;
      items := items + chunk;
      views := views + [store.db];
      steps := steps + 1;
    }
    assert Views(past, store.seen) == views;
    hasMore := |items| > limit;
    if hasMore { items := items[..limit]; }
  }

  lemma HeadCountIsLength(w: World, db: Db, project: string, log: seq<ChainEntry>)
    requires Holds(w, db, project, log)
    ensures (if HeadOf(db, project).Some? then HeadOf(db, project).value.count else 0) == |log|
  {
    hide Linked;
  }

  lemma CursorPosition(w: World, db: Db, project: string, log: seq<ChainEntry>, month: int, cursor: string)
    returns (c: nat)
    requires Holds(w, db, project, log) && AuditKey(project, month, cursor) in db.audit
    ensures At(log, cursor, c) && MonthOf(w, log[c]) == month
  {
    hide Linked;
    var e := db.audit[AuditKey(project, month, cursor)];
    c :| 0 <= c < |log| && log[c] == e;
  }

  // ---- what a page is ------------------------------------------------------------------------------------

  /** A cursor that no probe found was not in the chain when the reading began. */
  lemma UnknownCursor(w: World, project: string, views: seq<Db>, logs: seq<seq<ChainEntry>>, all: seq<ChainEntry>,
                      now: int, cursor: string, c: nat)
    requires GrowsTo(w, project, views, logs, all) && WithinWalk(w, all, now) && views != []
    requires Locates(w, views[1..], project, now, cursor, None)
    ensures !At(logs[0], cursor, c)
  {
    hide Linked, MonthsOrdered, IdsIncrease, MonthOfAuditId, MonthOf, KeyFor;
    if At(logs[0], cursor, c) {
      var month := MonthOf(w, all[c]);
      var i := now + 1 - month;
      var k := 1 + i + GuessReads(w, cursor);
      assert Missed(views[1..], project, now, cursor, GuessReads(w, cursor), i);
      assert views[1..][k - 1] == views[k];
      GrownAt(w, project, views, logs, all, k);
      FoundUnderKey(w, views[k], project, logs[k], all, cursor, c);
    }
  }

  lemma FoundUnderKey(w: World, db: Db, project: string, log: seq<ChainEntry>, all: seq<ChainEntry>, cursor: string,
                      c: nat)
    requires Holds(w, db, project, log) && log <= all && c < |log| && At(all, cursor, c)
    ensures AuditKey(project, MonthOf(w, all[c]), cursor) in db.audit
  {
    hide Linked;
    assert KeyFor(w, project, log[c].content) == AuditKey(project, MonthOf(w, log[c]), log[c].content.id);
  }

  lemma GrowsToTail(w: World, project: string, views: seq<Db>, logs: seq<seq<ChainEntry>>, all: seq<ChainEntry>, p: nat)
    requires GrowsTo(w, project, views, logs, all) && p <= |views|
    ensures |logs| == |views| && GrowsTo(w, project, views[p..], logs[p..], all)
    ensures p < |views| ==> |logs[0]| <= |logs[p]| && logs[p..][0] == logs[p]
  {
    hide Holds, MonthsOrdered, IdsIncrease;
  }

  lemma NothingBelowWalk(w: World, all: seq<ChainEntry>, now: int, from: int)
    requires MonthsOrdered(w, all) && WithinWalk(w, all, now) && from <= now + 1
    ensures UpTo(w, all, from + 1 - MAX_MONTHS_WALKED) == 0 && UpTo(w, all, now + 1) == |all|
  {
    hide MonthOf;
    NothingBelow(w, all, from + 1 - MAX_MONTHS_WALKED);
    assert all != [] ==> MonthOf(w, all[|all| - 1]) <= now + 1;
  }

  /** A page below a cursor is the page of the chain, whatever is appended while it is read. */
  lemma PageBelowCursor(w: World, project: string, views: seq<Db>, logs: seq<seq<ChainEntry>>, all: seq<ChainEntry>,
                        now: int, c: nat, from: int, limit: nat, cursor: string, total: nat,
                        items: seq<ChainEntry>, hasMore: bool)
    requires GrowsTo(w, project, views, logs, all) && WithinWalk(w, all, now)
    requires At(all, cursor, c) && MonthOf(w, all[c]) == from && (views != [] ==> c < |logs[0]|)
    requires PageOf(views, project, from, limit, Some(cursor), total, items, hasMore)
    ensures IsPage(all, Some(cursor), limit, items, hasMore)
  {
    hide GrowsTo, MonthsOrdered, IdsIncrease, UpTo, MonthOf, Paged;
    InMonthOrder(w, project, views, logs, all);
    PagedBelow(w, project, views, logs, all, c, from, limit + 1, cursor, |views|);
    assert views[..|views|] == views;
    NothingBelowWalk(w, all, now, from);
    var got := Paged(views, project, from, limit + 1, Some(cursor));
    assert got == Newest(all, c, Min(limit + 1, c));
    assert items == Newest(all, c, Min(limit, c));
  }

  /**
   * Month `month` is where the walk of a first page leaves off above the entries of the months up to it:
   * over the boundary lie as many entries as the head counted, and no more than fit the page.
   */
  ghost predicate EndsAbove(w: World, log: seq<ChainEntry>, least: nat, limit: nat, month: int) {
    && 0 < UpTo(w, log, month) && least <= |log| - UpTo(w, log, month) <= limit
    && |log| - UpTo(w, log, month + 1) < least
  }

  /** The chain has such a month boundary: its newest months hold what the head counted, and there is more. */
  ghost predicate EndsEarly(w: World, log: seq<ChainEntry>, least: nat, limit: nat) {
    exists month :: EndsAbove(w, log, least, limit, month)
  }

  /** A first page that ended early: the entries over the boundary, and not a word of those below it. */
  ghost predicate CutShort(w: World, log: seq<ChainEntry>, least: nat, limit: nat, items: seq<ChainEntry>,
                           hasMore: bool) {
    !hasMore
    && exists month ::
         EndsAbove(w, log, least, limit, month) && items == Newest(log, |log|, |log| - UpTo(w, log, month))
  }

  /** It is then not the first page of that chain, and the chain did grow during the read. */
  lemma CutShortIsNoPage(w: World, log: seq<ChainEntry>, least: nat, limit: nat, items: seq<ChainEntry>, hasMore: bool)
    requires CutShort(w, log, least, limit, items, hasMore)
    ensures !IsPage(log, None, limit, items, hasMore) && least <= |items| < |log| && least <= limit
  {
    hide UpTo;
  }

  /** What a first page is of the chain `log`, when the head counted `least` entries. */
  ghost predicate IsFirstPage(w: World, log: seq<ChainEntry>, least: nat, limit: nat, items: seq<ChainEntry>,
                              hasMore: bool) {
    && (IsPage(log, None, limit, items, hasMore) <==> !EndsEarly(w, log, least, limit))
    && (EndsEarly(w, log, least, limit) ==> CutShort(w, log, least, limit, items, hasMore))
  }

  /** No first page ends early that has a full page below its head, or whose chain did not outgrow its head. */
  lemma NeverEarly(w: World, log: seq<ChainEntry>, least: nat, limit: nat)
    requires least > limit || least >= |log|
    ensures !EndsEarly(w, log, least, limit)
  {
  }

  /** A walk that stopped at month `lo`, and not a month earlier, shows whether there is such a boundary. */
  lemma StopIsBoundary(w: World, all: seq<ChainEntry>, h: nat, least: nat, limit: nat, lo: int)
    requires MonthsOrdered(w, all) && 0 < least <= h <= |all| && h - UpTo(w, all, lo + 1) < least
    requires var d := h - UpTo(w, all, lo); d >= least || d > limit || UpTo(w, all, lo) == 0
    ensures EndsEarly(w, all[..h], least, limit) <==> h - UpTo(w, all, lo) <= limit && UpTo(w, all, lo) > 0
    ensures EndsEarly(w, all[..h], least, limit) ==> EndsAbove(w, all[..h], least, limit, lo)
  {
    hide MonthsOrdered, UpTo;
    var log := all[..h];
    UpToPrefix(w, log, all, lo);
    UpToPrefix(w, log, all, lo + 1);
    forall month | EndsAbove(w, log, least, limit, month) ensures EndsAbove(w, log, least, limit, lo) {
      if month > lo { UpToMonotone(w, log, lo + 1, month); } else { UpToMonotone(w, log, month, lo); }
    }
    assert EndsAbove(w, log, least, limit, lo) <==> h - UpTo(w, all, lo) <= limit && UpTo(w, all, lo) > 0;
  }

  lemma FirstPageIs(w: World, project: string, views: seq<Db>, logs: seq<seq<ChainEntry>>, all: seq<ChainEntry>,
                    now: int, least: nat, limit: nat, items: seq<ChainEntry>, hasMore: bool)
    returns (h: nat)
    requires GrowsTo(w, project, views, logs, all) && WithinWalk(w, all, now)
    requires 0 < least <= |all| && (views != [] ==> least <= |logs[0]|)
    requires PageOf(views, project, now, limit, None, least, items, hasMore)
    ensures views != [] && least <= h <= |logs[|views| - 1]| && h <= |all|
    ensures var lo := now + 1 - |views|;
            IsPage(all[..h], None, limit, items, hasMore)
            <==> h - Min(h, UpTo(w, all, lo)) > limit || UpTo(w, all, lo) == 0
    ensures IsFirstPage(w, all[..h], least, limit, items, hasMore)
  {
    hide GrowsTo, MonthsOrdered, UpTo, Paged, WalkEnds, PageStops, IsPage, EndsEarly, CutShort, WithinWalk;
    h := FirstWalk(w, project, views, logs, all, now, least, limit);
    InMonthOrder(w, project, views, logs, all);
    PageOfWalk(w, all, h, least, limit, now + 1 - |views|, Paged(views, project, now, limit + 1, None), items, hasMore);
  }

  /** Where the walk of a first page ended: at month `lo`, with enough or with everything, and not a month earlier. */
  ghost predicate WalkEnds(w: World, all: seq<ChainEntry>, h: nat, least: nat, limit: nat, lo: int,
                           got: seq<ChainEntry>) {
    && 0 < least <= h <= |all| && PageSoFar(w, all, h, limit + 1, lo, got) && got != []
    && h - UpTo(w, all, lo + 1) < least
    && var d := h - UpTo(w, all, lo); d >= least || d > limit || UpTo(w, all, lo) == 0
  }

  lemma FirstWalk(w: World, project: string, views: seq<Db>, logs: seq<seq<ChainEntry>>, all: seq<ChainEntry>,
                  now: int, least: nat, limit: nat)
    returns (h: nat)
    requires GrowsTo(w, project, views, logs, all) && WithinWalk(w, all, now)
    requires 0 < least <= |all| && (views != [] ==> least <= |logs[0]|)
    requires PageStops(views, project, now, limit + 1, None, least)
    ensures views != [] && least <= h <= |logs[|views| - 1]| && h <= |all|
    ensures WalkEnds(w, all, h, least, limit, now + 1 - |views|, Paged(views, project, now, limit + 1, None))
  {
    hide GrowsTo, MonthsOrdered, IdsIncrease, UpTo, MonthOf, Paged;
    GrownLength(w, project, views, logs, all);
    InMonthOrder(w, project, views, logs, all);
    NothingBelowWalk(w, all, now, now);
    NothingPaged(views, project, now, limit + 1, None);
    var k := |views| - 1;
    assert views[..0] == [] && views[..k + 1] == views && !PageFull(views[..k], project, now, limit + 1, None, least);
    var g := PagedFirst(w, project, views, logs, all, least, now, limit + 1, k);
    h := FirstReadStep(w, project, views, logs, all, least, now, limit + 1, k, g);
  }

  lemma PageOfWalk(w: World, all: seq<ChainEntry>, h: nat, least: nat, limit: nat, lo: int, got: seq<ChainEntry>,
                   items: seq<ChainEntry>, hasMore: bool)
    requires MonthsOrdered(w, all) && WalkEnds(w, all, h, least, limit, lo, got)
    requires (hasMore <==> |got| > limit) && items == if hasMore then got[..limit] else got
    ensures IsPage(all[..h], None, limit, items, hasMore)
            <==> h - Min(h, UpTo(w, all, lo)) > limit || UpTo(w, all, lo) == 0
    ensures IsFirstPage(w, all[..h], least, limit, items, hasMore)
  {
    hide MonthsOrdered, UpTo, IsPage, EndsAbove, PageSoFar;
    StopIsBoundary(w, all, h, least, limit, lo);
    UpToPrefix(w, all[..h], all, lo);
    FirstOrCut(w, all, h, least, limit, lo, got, items, hasMore);
  }

  /** What was walked down to month `lo`, as a page. */
  lemma FirstOrCut(w: World, all: seq<ChainEntry>, h: nat, least: nat, limit: nat, lo: int, got: seq<ChainEntry>,
                   items: seq<ChainEntry>, hasMore: bool)
    requires 0 < h <= |all| && PageSoFar(w, all, h, limit + 1, lo, got) && got != []
    requires (hasMore <==> |got| > limit) && items == if hasMore then got[..limit] else got
    ensures IsPage(all[..h], None, limit, items, hasMore) <==> h - UpTo(w, all, lo) > limit || UpTo(w, all, lo) == 0
    ensures UpTo(w, all, lo) > 0 && h - UpTo(w, all, lo) <= limit ==>
              !hasMore && UpTo(w, all, lo) <= h && items == Newest(all[..h], h, h - UpTo(w, all, lo))
  {
    hide UpTo;
    var log := all[..h];
    NewestStands(log, all, h, Min(limit, h));
    NewestStands(log, all, h, |items|);
    assert StartsAt(log, None, h);
    var d := h - Min(h, UpTo(w, all, lo));
    assert got == Newest(all, h, Min(limit + 1, d)) && d > 0;
    if d > limit || d == h {
      assert items == Newest(all, h, Min(limit, h));
    } else {
      assert items == got && |items| == d;
    }
  }

  /**
   * Main result on one page, whatever is appended while it is read. Below a cursor that is in the
   * chain it is the page of the chain; a cursor that is not gives an empty page. Without a cursor
   * it is the first page of the chain as it stood at some moment of the read, unless that chain
   * has a month boundary the walk ends above; then it is what lies above, and says there is no
   * more. It never is cut short where the head counts more than a page, or nothing was appended.
   */
  lemma PageIsExact(w: World, project: string, views: seq<Db>, logs: seq<seq<ChainEntry>>, all: seq<ChainEntry>,
                    now: int, limit: nat, cursor: Option<string>, items: seq<ChainEntry>, hasMore: bool)
    requires GrowsTo(w, project, views, logs, all) && WithinWalk(w, all, now)
    requires PageReads(w, views, project, now, limit, cursor, items, hasMore)
    ensures |logs| == |views| > 0
    ensures cursor.Some? ==>
              IsPage(all, cursor, limit, items, hasMore)
              || (items == [] && !hasMore && forall c: nat :: !At(logs[0], cursor.value, c))
    ensures cursor.None? ==>
              exists h: nat :: |logs[0]| <= h <= |logs[|logs| - 1]| <= |all|
                && IsFirstPage(w, all[..h], |logs[0]|, limit, items, hasMore)
    ensures cursor.None? && (|logs[0]| > limit || |logs[|logs| - 1]| == |logs[0]|) ==>
              exists h: nat :: |logs[0]| <= h <= |logs[|logs| - 1]| <= |all|
                && IsPage(all[..h], None, limit, items, hasMore)
  {
    hide MonthsOrdered, IdsIncrease, UpTo, MonthOf, Locates, PageOf, WithinWalk, IsPage, Linked;
    GrownAt(w, project, views, logs, all, 0);
    GrownAt(w, project, views, logs, all, |views| - 1);
    HeadCountIsLength(w, views[0], project, logs[0]);
    hide Holds;
    var total := |logs[0]|;
    if total == 0 {
      NothingToPage(w, all, limit);
    } else {
      PageOfGrown(w, project, views, logs, all, now, limit, cursor, items, hasMore);
    }
    if cursor.None? {
      var h: nat :| |logs[0]| <= h <= |logs[|logs| - 1]| <= |all|
        && IsFirstPage(w, all[..h], |logs[0]|, limit, items, hasMore);
      if |logs[0]| > limit || |logs[|logs| - 1]| == |logs[0]| { NeverEarly(w, all[..h], |logs[0]|, limit); }
    }
  }

  lemma NothingToPage(w: World, all: seq<ChainEntry>, limit: nat)
    ensures IsFirstPage(w, all[..0], 0, limit, [], false)
  {
    assert StartsAt(all[..0], None, 0) && [] == Newest(all[..0], 0, Min(limit, 0));
  }

  lemma PageOfGrown(w: World, project: string, views: seq<Db>, logs: seq<seq<ChainEntry>>, all: seq<ChainEntry>,
                    now: int, limit: nat, cursor: Option<string>, items: seq<ChainEntry>, hasMore: bool)
    requires GrowsTo(w, project, views, logs, all) && WithinWalk(w, all, now) && views != [] && logs[0] != []
    requires PageReads(w, views, project, now, limit, cursor, items, hasMore)
    requires CountOf(HeadOf(views[0], project)) == |logs[0]|
    ensures cursor.Some? ==>
              IsPage(all, cursor, limit, items, hasMore)
              || (items == [] && !hasMore && forall c: nat :: !At(logs[0], cursor.value, c))
    ensures cursor.None? ==>
              exists h: nat :: |logs[0]| <= h <= |logs[|logs| - 1]| <= |all|
                && IsFirstPage(w, all[..h], |logs[0]|, limit, items, hasMore)
  {
    hide MonthsOrdered, IdsIncrease, UpTo, MonthOf, PageOf, WithinWalk, IsPage, Holds, Locates;
    if cursor.None? {
      GrowsToTail(w, project, views, logs, all, 1);
      var h := FirstPageIs(w, project, views[1..], logs[1..], all, now, |logs[0]|, limit, items, hasMore);
    } else {
      var p: nat, r :| 1 <= p <= |views| && Locates(w, views[1..p], project, now, cursor.value, r)
        && if r.None? then p == |views| && items == [] && !hasMore
           else PageOf(views[p..], project, r.value, limit, cursor, |logs[0]|, items, hasMore);
      if r.None? {
        assert views[1..p] == views[1..];
        forall c: nat ensures !At(logs[0], cursor.value, c) {
          UnknownCursor(w, project, views, logs, all, now, cursor.value, c);
        }
      } else {
        LocatedPage(w, project, views, logs, all, now, limit, cursor.value, items, hasMore, p, r.value);
      }
    }
  }

  lemma LocatedPage(w: World, project: string, views: seq<Db>, logs: seq<seq<ChainEntry>>, all: seq<ChainEntry>,
                    now: int, limit: nat, cursor: string, items: seq<ChainEntry>, hasMore: bool, p: nat, month: int)
    requires GrowsTo(w, project, views, logs, all) && WithinWalk(w, all, now) && 1 <= p <= |views|
    requires Locates(w, views[1..p], project, now, cursor, Some(month))
    requires PageOf(views[p..], project, month, limit, Some(cursor), |logs[0]|, items, hasMore)
    ensures IsPage(all, Some(cursor), limit, items, hasMore)
  {
    hide MonthsOrdered, IdsIncrease, UpTo, MonthOf, PageOf, WithinWalk, IsPage, Holds, MonthOfAuditId;
    var k := p - 1;
    assert views[1..p][|views[1..p]| - 1] == views[k];
    GrownAt(w, project, views, logs, all, k);
    var c := CursorPosition(w, views[k], project, logs[k], month, cursor);
    assert logs[k][c] == all[c];
    GrowsToTail(w, project, views, logs, all, p);
    if p < |views| { GrownAt(w, project, views, logs, all, p); }
    PageBelowCursor(w, project, views[p..], logs[p..], all, now, c, month, limit, cursor, |logs[0]|, items, hasMore);
  }

  // ---- all pages -------------------------------------------------------------------------------------

  /**
   * A reader follows the pages: page `k` is read from the chain as it stands then, which may
   * have grown since, with the id of the last entry of the page before as its cursor.
   */
  ghost predicate Follows(logs: seq<seq<ChainEntry>>, limit: nat, pages: seq<seq<ChainEntry>>, more: seq<bool>) {
    && |logs| == |pages| == |more| && |pages| > 0
    && (forall j, k :: 0 <= j <= k < |logs| ==> logs[j] <= logs[k])
    && (forall k :: 0 <= k < |pages| - 1 ==> pages[k] != [])
    && (forall k :: 0 <= k < |pages| ==> IsPage(logs[k], CursorFor(pages, k), limit, pages[k], more[k]))
  }

  /**
   * The same for a reader whose first page is some newest entries of the chain, whatever it says
   * about there being more.
   */
  ghost predicate Continues(logs: seq<seq<ChainEntry>>, limit: nat, pages: seq<seq<ChainEntry>>, more: seq<bool>) {
    && |logs| == |pages| == |more| && |pages| > 0
    && (forall j, k :: 0 <= j <= k < |logs| ==> logs[j] <= logs[k])
    && (forall k :: 0 <= k < |pages| - 1 ==> pages[k] != [])
    && |pages[0]| <= |logs[0]| && pages[0] == Newest(logs[0], |logs[0]|, |pages[0]|)
    && (forall k :: 0 < k < |pages| ==> IsPage(logs[k], CursorFor(pages, k), limit, pages[k], more[k]))
  }

  /** The cursor for page `k`: the id of the last entry of the page before. */
  function CursorFor(pages: seq<seq<ChainEntry>>, k: nat): Option<string>
    requires k < |pages|
  {
    if k == 0 || pages[k - 1] == [] then None else Some(pages[k - 1][|pages[k - 1]| - 1].content.id)
  }

  function Concat(pages: seq<seq<ChainEntry>>): seq<ChainEntry> {
    if pages == [] then [] else Concat(pages[..|pages| - 1]) + pages[|pages| - 1]
  }

  /** One more page continues where the pages before it ended, on a chain that may have grown. */
  lemma NextPage(log: seq<ChainEntry>, now: seq<ChainEntry>, front: seq<ChainEntry>, limit: nat,
                 page: seq<ChainEntry>, hasMore: bool)
    requires IdsIncrease(now) && log <= now && limit >= 1
    requires 0 < |front| <= |log| && front == Newest(log, |log|, |front|)
    requires IsPage(now, Some(front[|front| - 1].content.id), limit, page, hasMore)
    ensures |front + page| <= |log| && front + page == Newest(log, |log|, |front + page|)
    ensures (hasMore <==> |front + page| < |log|) && (page == [] ==> |front + page| == |log|)
  {
    hide IdsIncrease;
    var cursor := front[|front| - 1].content.id;
    var c: nat :| StartsAt(now, Some(cursor), c) && page == Newest(now, c, Min(limit, c)) && (hasMore <==> c > limit);
    var p := |log| - |front|;
    assert front[|front| - 1] == log[p] == now[p];
    AtOnce(now, cursor, c, p);
    forall i | 0 <= i < |front + page| ensures (front + page)[i] == log[|log| - 1 - i] {
      if i >= |front| { assert (front + page)[i] == page[i - |front|] == now[c - 1 - (i - |front|)]; }
    }
  }

  lemma LastOfConcat(pages: seq<seq<ChainEntry>>)
    requires pages != [] && pages[|pages| - 1] != []
    ensures Concat(pages) != []
    ensures Concat(pages)[|Concat(pages)| - 1] == pages[|pages| - 1][|pages[|pages| - 1]| - 1]
  {
  }

  lemma ContinuesFront(logs: seq<seq<ChainEntry>>, limit: nat, pages: seq<seq<ChainEntry>>, more: seq<bool>)
    requires Continues(logs, limit, pages, more) && |pages| > 1
    ensures var n := |pages| - 1; Continues(logs[..n], limit, pages[..n], more[..n])
  {
    hide IsPage;
  }

  /**
   * The pages, one after another, are the newest entries of the chain as it stood when the first
   * was read, newest first, without gap or repeat, and every page after the first says rightly
   * whether they are the whole of it. Appends between pages change nothing.
   */
  lemma {:induction false} PagesContinue(logs: seq<seq<ChainEntry>>, limit: nat, pages: seq<seq<ChainEntry>>,
                                         more: seq<bool>)
    requires Continues(logs, limit, pages, more) && limit >= 1
    requires forall k :: 0 <= k < |logs| ==> IdsIncrease(logs[k])
    ensures |Concat(pages)| <= |logs[0]| && Concat(pages) == Newest(logs[0], |logs[0]|, |Concat(pages)|)
    ensures |pages| > 1 ==> (more[|more| - 1] <==> |Concat(pages)| < |logs[0]|)
    decreases |pages|
  {
    hide IdsIncrease, IsPage, Continues, CursorFor, Concat;
    var n := |pages| - 1;
    LastIsPage(logs, limit, pages, more);
    ConcatStep(pages);
    if n > 0 {
      ContinuesFront(logs, limit, pages, more);
      PagesContinue(logs[..n], limit, pages[..n], more[..n]);
      LastOfConcat(pages[..n]);
      NextPage(logs[0], logs[n], Concat(pages[..n]), limit, pages[n], more[n]);
    }
  }

  /**
   * Main result on paging: when the first page is the chain's, the pages are the newest entries of
   * that chain, and the last page says there is no more exactly when they are the whole of it.
   */
  lemma PagesAreTheChain(logs: seq<seq<ChainEntry>>, limit: nat, pages: seq<seq<ChainEntry>>, more: seq<bool>)
    requires Follows(logs, limit, pages, more) && limit >= 1
    requires forall k :: 0 <= k < |logs| ==> IdsIncrease(logs[k])
    ensures |Concat(pages)| <= |logs[0]| && Concat(pages) == Newest(logs[0], |logs[0]|, |Concat(pages)|)
    ensures more[|more| - 1] <==> |Concat(pages)| < |logs[0]|
  {
    hide IdsIncrease, IsPage, Concat;
    assert IsPage(logs[0], CursorFor(pages, 0), limit, pages[0], more[0]);
    FirstPage(logs[0], limit, pages[0], more[0]);
    ConcatStep(pages);
    PagesContinue(logs, limit, pages, more);
  }

  lemma ConcatStep(pages: seq<seq<ChainEntry>>)
    requires pages != []
    ensures Concat(pages) == Concat(pages[..|pages| - 1]) + pages[|pages| - 1]
            && (|pages| == 1 ==> Concat(pages) == pages[0])
  {
  }

  lemma FirstPage(log: seq<ChainEntry>, limit: nat, page: seq<ChainEntry>, hasMore: bool)
    requires IsPage(log, None, limit, page, hasMore)
    ensures |page| <= |log| && page == Newest(log, |log|, |page|) && (hasMore <==> |page| < |log|)
  {
  }

  lemma LastIsPage(logs: seq<seq<ChainEntry>>, limit: nat, pages: seq<seq<ChainEntry>>, more: seq<bool>)
    requires Continues(logs, limit, pages, more)
    ensures |logs| == |pages| == |more| && |pages| > 0
    ensures var n := |pages| - 1;
            && logs[0] <= logs[n]
            && (n == 0 ==> |pages[0]| <= |logs[0]| && pages[0] == Newest(logs[0], |logs[0]|, |pages[0]|))
            && (n > 0 ==>
                  var before := pages[n - 1];
                  before != []
                  && IsPage(logs[n], Some(before[|before| - 1].content.id), limit, pages[n], more[n]))
  {
    hide IsPage;
    var n := |pages| - 1;
    if n > 0 { assert IsPage(logs[n], CursorFor(pages, n), limit, pages[n], more[n]); }
  }
}
