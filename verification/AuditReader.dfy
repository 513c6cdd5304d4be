/**
 * Reading the chain back without scanning: month partitions walked backwards from one
 * month ahead of the reader, and pages that start from the id of the last entry seen.
 */
module AuditReader {
  import opened Strings
  import opened AuditChain
  import opened Store
  import Ulid

  const MAX_MONTHS_WALKED := 1200

  // ---- partitions ------------------------------------------------------------------------------

  predicate Ascending(ids: seq<string>) { forall i, j :: 0 <= i < j < |ids| ==> Less(ids[i], ids[j]) }

  function MonthIds(db: Db, project: string, month: int): set<string> {
    set k | k in db.audit && k.project == project && k.month == month :: k.id
  }

  function InsertId(id: string, ids: seq<string>): (r: seq<string>)
    ensures forall x :: x in r <==> x == id || x in ids
  {
    if ids == [] || Less(id, ids[0]) then [id] + ids
    else
      assert ids == [ids[0]] + ids[1..];
      [ids[0]] + InsertId(id, ids[1..])
  }

  lemma {:induction false} InsertKeepsAscending(id: string, ids: seq<string>)
    requires Ascending(ids) && id !in ids
    ensures Ascending(InsertId(id, ids))
  {
    if ids == [] {
    } else if Less(id, ids[0]) {
      forall j | 0 < j < |ids| ensures Less(id, ids[j]) { LessTransitive(id, ids[0], ids[j]); }
    } else {
      LessTotal(id, ids[0]);
      var rest := InsertId(id, ids[1..]);
      InsertKeepsAscending(id, ids[1..]);
      forall j | 0 <= j < |rest| ensures Less(ids[0], rest[j]) {
        assert rest[j] in rest;
        if rest[j] != id {
          var k :| 0 <= k < |ids[1..]| && ids[1..][k] == rest[j];
          assert ids[1..][k] == ids[k + 1];
        }
      }
    }
  }

  /** The sort keys of a partition, ascending. */
  ghost function SortedIds(ids: set<string>): (r: seq<string>)
    ensures forall x :: x in r <==> x in ids
  {
    if ids == {} then [] else var id :| id in ids; InsertId(id, SortedIds(ids - {id}))
  }

  lemma {:induction false} SortedIdsAscend(ids: set<string>)
    ensures Ascending(SortedIds(ids))
  {
    if ids != {} {
      var id :| id in ids && SortedIds(ids) == InsertId(id, SortedIds(ids - {id}));
      SortedIdsAscend(ids - {id});
      InsertKeepsAscending(id, SortedIds(ids - {id}));
    }
  }

  lemma FirstIsLeast(ids: seq<string>, id: string)
    requires Ascending(ids) && id in ids
    ensures id == ids[0] || (Less(ids[0], id) && id in ids[1..])
  {
    var i :| 0 <= i < |ids| && ids[i] == id;
    if i > 0 { assert id == ids[1..][i - 1]; }
  }

  /** A set of sort keys has one ascending order. */
  lemma {:induction false} OneOrder(a: seq<string>, b: seq<string>)
    requires Ascending(a) && Ascending(b) && forall x :: x in a <==> x in b
    ensures a == b
  {
    assert a != [] ==> a[0] in a && a[0] in b;
    assert b != [] ==> b[0] in b && b[0] in a;
    if a != [] && b != [] {
      FirstIsLeast(b, a[0]);
      FirstIsLeast(a, b[0]);
      if a[0] != b[0] { LessAsymmetric(a[0], b[0]); }
      forall x ensures x in a[1..] <==> x in b[1..] {
        if x in a[1..] { TailIsAbove(a, x); FirstIsLeast(b, x); }
        if x in b[1..] { TailIsAbove(b, x); FirstIsLeast(a, x); }
      }
      OneOrder(a[1..], b[1..]);
      assert a == [a[0]] + a[1..] && b == [b[0]] + b[1..];
    }
  }

  lemma TailIsAbove(ids: seq<string>, x: string)
    requires Ascending(ids) && ids != [] && x in ids[1..]
    ensures x in ids && x != ids[0]
  {
    var i :| 0 <= i < |ids[1..]| && ids[1..][i] == x;
    LessAsymmetric(ids[0], ids[i + 1]);
  }

  /** The entries of one month partition, in sort-key order. */
  ghost function Partition(db: Db, project: string, month: int): seq<ChainEntry> {
    EntriesAt(db, project, month, SortedIds(MonthIds(db, project, month)))
  }

  function EntriesAt(db: Db, project: string, month: int, ids: seq<string>): (r: seq<ChainEntry>)
    requires forall x :: x in ids ==> AuditKey(project, month, x) in db.audit
    ensures |r| == |ids| && forall i :: 0 <= i < |ids| ==> r[i] == db.audit[AuditKey(project, month, ids[i])]
  {
    seq(|ids|, i requires 0 <= i < |ids| => db.audit[AuditKey(project, month, ids[i])])
  }

  /** The sort keys of a partition, as the store's query sorts them. */
  method QueryIds(db: Db, project: string, month: int) returns (ids: seq<string>)
    ensures ids == SortedIds(MonthIds(db, project, month)) && Ascending(ids)
  {
    var left := MonthIds(db, project, month);
    ids := [];
    ghost var all := left;
    while left != {}
      invariant Ascending(ids) && forall x :: x in all <==> x in ids || x in left
      invariant forall x :: x in ids ==> x !in left
      decreases left
    {
      var id :| id in left;
      InsertKeepsAscending(id, ids);
      ids := InsertId(id, ids);
      left := left - {id};
    }
    SortedIdsAscend(all);
    OneOrder(ids, SortedIds(all));
  }

  // ---- a store that changes between reads ----------------------------------------------------------

  /**
   * The store as a reader meets it: before each of its reads the others may have changed it.
   * `script` says what the next reads find; when it is used up, nothing changes any more.
   */
  class ReadStore {
    var db: Db
    var script: seq<Db>
    ghost var seen: seq<Db>

    constructor (db: Db, script: seq<Db>)
      ensures this.db == db && this.script == script && seen == []
    {
      this.db, this.script, this.seen := db, script, [];
    }

    /** The next read: it finds `db`. */
    method Turn()
      modifies this
      ensures seen == old(seen) + [db]
      ensures db == if old(script) == [] then old(db) else old(script)[0]
      ensures script == if old(script) == [] then [] else old(script)[1..]
    {
      if script != [] { db, script := script[0], script[1..]; }
      seen := seen + [db];
    }

    method GetHead(project: string) returns (head: Option<ChainHead>)
      modifies this
      ensures head == HeadOf(db, project) && seen == old(seen) + [db]
      ensures db == if old(script) == [] then old(db) else old(script)[0]
      ensures script == if old(script) == [] then [] else old(script)[1..]
    {
      Turn();
      head := HeadOf(db, project);
    }

    method Query(project: string, month: int) returns (rows: seq<ChainEntry>)
      modifies this
      ensures rows == Partition(db, project, month) && seen == old(seen) + [db]
      ensures db == if old(script) == [] then old(db) else old(script)[0]
      ensures script == if old(script) == [] then [] else old(script)[1..]
    {
      Turn();
      var ids := QueryIds(db, project, month);
      rows := EntriesAt(db, project, month, ids);
    }
  }

  /** What a reader saw from `past` on, read by read. */
  function Views(past: seq<Db>, now: seq<Db>): seq<Db>
    requires past <= now
  {
    now[|past|..]
  }

  lemma ViewsBetween(past: seq<Db>, a: seq<Db>, b: seq<Db>, now: seq<Db>)
    requires past <= a <= b <= now
    ensures |Views(past, now)| == |now| - |past|
    ensures Views(past, now)[|a| - |past|..|b| - |past|] == Views(a, b)
    ensures Views(past, now)[|b| - |past|..] == Views(b, now)
  {
  }

  /** Every read saw the same store. */
  predicate Still(db: Db, views: seq<Db>) { forall i :: 0 <= i < |views| ==> views[i] == db }

  lemma StillTwice(db: Db, past: seq<Db>, middle: seq<Db>, now: seq<Db>)
    requires past <= middle <= now && Still(db, Views(past, middle)) && Still(db, Views(middle, now))
    ensures Still(db, Views(past, now))
  {
    forall i | 0 <= i < |Views(past, now)| ensures Views(past, now)[i] == db {
      if i >= |middle| - |past| { assert Views(middle, now)[i - (|middle| - |past|)] == db; }
      else { assert Views(past, middle)[i] == db; }
    }
  }

  // ---- the month walk ----------------------------------------------------------------------------

  /** The generator of month partitions: newest first, starting one month ahead of `from`. */
  class MonthsBackward {
    var year: int
    var month: int

    ghost predicate Valid()
      reads this
    {
      0 <= month <= 11
    }

    /** The partition the next step yields. */
    ghost function Index(): int
      reads this
    {
      year * 12 + month
    }

    constructor (from: int)
      ensures Valid() && Index() == from + 1
    {
      var y, m := from / 12, from % 12 + 1;
      if m > 11 { y, m := y + 1, 0; }
      year, month := y, m;
    }

    method Next() returns (index: int)
      requires Valid()
      modifies this
      ensures Valid() && index == old(Index()) && Index() == index - 1
    {
      index := year * 12 + month;
      if month == 0 {
        month, year := 11, year - 1;
      } else {
        month := month - 1;
      }
    }
  }

  /** The entries of the months above `lo` up to `hi`, oldest month first. */
  ghost function Span(db: Db, project: string, lo: int, hi: int): seq<ChainEntry>
    decreases hi - lo
  {
    if hi <= lo then [] else Span(db, project, lo, hi - 1) + Partition(db, project, hi)
  }

  lemma {:induction false} SpanSplits(db: Db, project: string, lo: int, mid: int, hi: int)
    requires lo <= mid <= hi
    ensures Span(db, project, lo, hi) == Span(db, project, lo, mid) + Span(db, project, mid, hi)
    decreases hi - mid
  {
    if mid < hi { SpanSplits(db, project, lo, mid, hi - 1); }
  }

  lemma SpanGrowsDown(db: Db, project: string, lo: int, hi: int)
    requires lo <= hi
    ensures Span(db, project, lo - 1, hi) == Partition(db, project, lo) + Span(db, project, lo, hi)
  {
    SpanSplits(db, project, lo - 1, lo, hi);
    assert Span(db, project, lo - 1, lo) == Partition(db, project, lo);
  }

  /** Everything a walk from month `now` can reach. */
  ghost function Reachable(db: Db, project: string, now: int): seq<ChainEntry> {
    Span(db, project, now + 1 - MAX_MONTHS_WALKED, now + 1)
  }

  /** Where a walk that wants `want` entries stops: as soon as it has them, or at the ceiling. */
  ghost predicate StopsAt(db: Db, project: string, now: int, want: int, lo: int) {
    && now + 1 - MAX_MONTHS_WALKED <= lo <= now + 1
    && (lo == now + 1 - MAX_MONTHS_WALKED || |Span(db, project, lo, now + 1)| >= want)
    && (lo < now + 1 ==> |Span(db, project, lo + 1, now + 1)| < want)
  }

  /** What a walk from month `now` brings back whose reads saw `views`: one month each, newest first. */
  ghost function Walked(views: seq<Db>, project: string, now: int): seq<ChainEntry> {
    if views == [] then []
    else
      var n := |views| - 1;
      Partition(views[n], project, now + 1 - n) + Walked(views[..n], project, now)
  }

  /** Such a walk reads whole months until it has `want` entries, or reaches the ceiling. */
  ghost predicate Stops(views: seq<Db>, project: string, now: int, want: int) {
    && |views| <= MAX_MONTHS_WALKED
    && (|views| == MAX_MONTHS_WALKED || |Walked(views, project, now)| >= want)
    && (views != [] ==> |Walked(views[..|views| - 1], project, now)| < want)
  }

  /** The two readers share this walk: whole partitions until `want` entries are collected. */
  method CollectBackward(store: ReadStore, project: string, now: int, want: int) returns (entries: seq<ChainEntry>)
    modifies store
    ensures old(store.seen) <= store.seen
    ensures var views := Views(old(store.seen), store.seen);
            Stops(views, project, now, want) && entries == Walked(views, project, now)
    ensures old(store.script) == [] ==>
              store.script == [] && store.db == old(store.db)
              && Still(old(store.db), Views(old(store.seen), store.seen))
  {
    hide Partition, Walked, Still;
    var walk := new MonthsBackward(now);
    ghost var past, views := store.seen, [];
    WalkBegins(store.db, project, now);
    entries := [];
    var steps := 0;
    while steps < MAX_MONTHS_WALKED && |entries| < want
      invariant walk.Valid() && walk.Index() == now + 1 - steps && steps == |views| <= MAX_MONTHS_WALKED
      invariant store.seen == past + views && entries == Walked(views, project, now)
      invariant views != [] ==> |Walked(views[..|views| - 1], project, now)| < want
      invariant old(store.script) == [] ==>
                  store.script == [] && store.db == old(store.db) && Still(old(store.db), views)
    {
      var month := walk.Next();
      var chunk := store.Query(project, month);
      entries := chunk + entries;
      WalkGoesOn(views, store.db, project, now);
      views := views + [store.db];
      steps := steps + 1;
    }
    assert Views(past, store.seen) == views;
  }

  lemma WalkBegins(db: Db, project: string, now: int)
    ensures Walked([], project, now) == [] && Still(db, [])
  {
  }

  lemma WalkGoesOn(views: seq<Db>, db: Db, project: string, now: int)
    ensures (views + [db])[..|views + [db]| - 1] == views
    ensures Walked(views + [db], project, now)
            == Partition(db, project, now + 1 - |views|) + Walked(views, project, now)
    ensures Still(db, views) ==> Still(db, views + [db])
  {
    hide Partition, Walked;
    assert (views + [db])[..|views|] == views;
    WalkedStep(views + [db], project, now, |views|);
  }

  lemma StillFront(db: Db, views: seq<Db>)
    requires Still(db, views) && views != []
    ensures views[|views| - 1] == db && Still(db, views[..|views| - 1])
  {
  }

  lemma WalkedStep(views: seq<Db>, project: string, now: int, n: nat)
    requires |views| == n + 1
    ensures Walked(views, project, now) == Partition(views[n], project, now + 1 - n) + Walked(views[..n], project, now)
  {
    hide Partition;
  }

  /** While nothing changes, a walk brings back the months it reads, in chronological order. */
  lemma {:induction false} StillWalk(db: Db, views: seq<Db>, project: string, now: int)
    requires Still(db, views)
    ensures Walked(views, project, now) == Span(db, project, now + 1 - |views|, now + 1)
    decreases |views|
  {
    hide Span, Partition, Still, Walked;
    if views == [] {
      WalkBegins(db, project, now);
      NoSpan(db, project, now + 1);
    } else {
      StillFront(db, views);
      StillWalk(db, views[..|views| - 1], project, now);
      StillWalkStep(db, views, project, now, |views| - 1);
    }
  }

  lemma NoSpan(db: Db, project: string, month: int)
    ensures Span(db, project, month, month) == []
  {
  }

  lemma StillWalkStep(db: Db, views: seq<Db>, project: string, now: int, n: nat)
    requires |views| == n + 1 && views[n] == db
    requires Walked(views[..n], project, now) == Span(db, project, now + 1 - n, now + 1)
    ensures Walked(views, project, now) == Span(db, project, now - n, now + 1)
  {
    hide Span, Partition, Walked;
    WalkedStep(views, project, now, n);
    SpanGrowsDown(db, project, now + 1 - n, now + 1);
  }

  lemma StillStops(db: Db, views: seq<Db>, project: string, now: int, want: int)
    requires Still(db, views) && Stops(views, project, now, want)
    ensures StopsAt(db, project, now, want, now + 1 - |views|)
    ensures Walked(views, project, now) == Span(db, project, now + 1 - |views|, now + 1)
  {
    hide Walked, Span;
    StillWalk(db, views, project, now);
    if views != [] { StillWalk(db, views[..|views| - 1], project, now); }
  }

  /** A walk that wants no more than what is reachable ends up holding the newest entries of it. */
  lemma WalkHoldsNewest(db: Db, project: string, now: int, want: int, lo: int)
    requires StopsAt(db, project, now, want, lo) && want <= |Reachable(db, project, now)|
    ensures var all, got := Reachable(db, project, now), Span(db, project, lo, now + 1);
            want <= |got| <= |all| && got == all[|all| - |got|..]
  {
    SpanSplits(db, project, now + 1 - MAX_MONTHS_WALKED, lo, now + 1);
  }

  function CountOf(head: Option<ChainHead>): nat { if head.Some? then head.value.count else 0 }

  /** What the two whole-chain reads amount to: the head from the first view, the walk from the others. */
  ghost predicate ReadsChronology(views: seq<Db>, project: string, now: int, entries: seq<ChainEntry>,
                                  head: Option<ChainHead>) {
    && views != [] && head == HeadOf(views[0], project)
    && if CountOf(head) == 0 then entries == [] && |views| == 1
       else Stops(views[1..], project, now, CountOf(head)) && entries == Walked(views[1..], project, now)
  }

  ghost predicate ReadsTail(views: seq<Db>, project: string, now: int, n: int, total: int, tail: seq<ChainEntry>) {
    if n <= 0 then tail == [] && views == []
    else
      var got := Walked(views, project, now);
      Stops(views, project, now, if n < total then n else total) && tail == if |got| > n then got[|got| - n..] else got
  }

  method ReadAuditChronological(store: ReadStore, project: string, now: int)
    returns (entries: seq<ChainEntry>, head: Option<ChainHead>)
    modifies store
    ensures old(store.seen) < store.seen
    ensures ReadsChronology(Views(old(store.seen), store.seen), project, now, entries, head)
    ensures old(store.script) == [] ==>
              store.script == [] && store.db == old(store.db)
              && Still(old(store.db), Views(old(store.seen), store.seen))
  {
    hide Walked, Stops;
    ghost var past := store.seen;
    head := store.GetHead(project);
    assert Views(past, store.seen) == [store.db];
    var total := if head.Some? then head.value.count else 0;
    if total == 0 { return [], head; }
    ghost var seen1 := store.seen;
    entries := CollectBackward(store, project, now, total);
    assert Views(past, store.seen) == [seen1[|past|]] + Views(seen1, store.seen);
    assert Views(past, store.seen)[1..] == Views(seen1, store.seen);
  }

  /** While nothing changes: everything reachable, when the head counts just that, else the newest of it. */
  lemma StillChronology(db: Db, views: seq<Db>, project: string, now: int, entries: seq<ChainEntry>,
                        head: Option<ChainHead>)
    requires Still(db, views) && ReadsChronology(views, project, now, entries, head)
    ensures head == HeadOf(db, project)
    ensures head.None? || head.value.count == 0 ==> entries == []
    ensures head.Some? && 0 < head.value.count <= |Reachable(db, project, now)| ==>
              head.value.count <= |entries| <= |Reachable(db, project, now)|
              && entries == Reachable(db, project, now)[|Reachable(db, project, now)| - |entries|..]
    ensures head.Some? && head.value.count == |Reachable(db, project, now)| ==> entries == Reachable(db, project, now)
  {
    hide Walked, Stops, Reachable;
    var total := CountOf(head);
    if total > 0 {
      StillStops(db, views[1..], project, now, total);
      if total <= |Reachable(db, project, now)| {
        WalkHoldsNewest(db, project, now, total, now + 1 - |views[1..]|);
      }
    }
  }

  /** The newest `n` entries, in chronological order. */
  method ReadAuditTail(store: ReadStore, project: string, now: int, n: int, total: int) returns (tail: seq<ChainEntry>)
    modifies store
    ensures old(store.seen) <= store.seen
    ensures ReadsTail(Views(old(store.seen), store.seen), project, now, n, total, tail)
    ensures old(store.script) == [] ==>
              store.script == [] && store.db == old(store.db)
              && Still(old(store.db), Views(old(store.seen), store.seen))
  {
    hide Walked, Stops;
    if n <= 0 { return []; }
    var chronological := CollectBackward(store, project, now, if n < total then n else total);
    tail := if |chronological| > n then chronological[|chronological| - n..] else chronological;
  }

  lemma StillTail(db: Db, views: seq<Db>, project: string, now: int, n: int, total: int, tail: seq<ChainEntry>)
    requires Still(db, views) && ReadsTail(views, project, now, n, total, tail)
    ensures n <= 0 ==> tail == []
    ensures 0 < n <= total && n <= |Reachable(db, project, now)| ==>
              tail == Reachable(db, project, now)[|Reachable(db, project, now)| - n..]
  {
    hide Walked, Stops, Reachable;
    if 0 < n <= total && n <= |Reachable(db, project, now)| {
      StillStops(db, views, project, now, n);
      WalkHoldsNewest(db, project, now, n, now + 1 - |views|);
    }
  }
}
