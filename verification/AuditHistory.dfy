/** Readers and writers together: pages and probes read while a run goes on. */
module AuditHistory {
  import opened Strings
  import opened AuditChain
  import opened Store
  import opened AuditProtocol
  import opened AuditReader
  import opened AuditPaging
  import opened ChainVerifier
  import opened AuditRaces

  /** One call for a page: the month it was made in, the states its reads met, and what it gave. */
  datatype PageCall = PageCall(now: int, ks: seq<nat>, items: seq<ChainEntry>, hasMore: bool)

  ghost predicate InOrder(ks: seq<nat>, n: nat) {
    && ks != [] && (forall i, j :: 0 <= i <= j < |ks| ==> ks[i] <= ks[j])
    && forall i :: 0 <= i < |ks| ==> ks[i] < n
  }

  function Last(ks: seq<nat>): nat
    requires ks != []
  {
    ks[|ks| - 1]
  }

  function DbsAt(states: seq<Sys>, ks: seq<nat>): seq<Db>
    requires forall i :: 0 <= i < |ks| ==> ks[i] < |states|
  {
    seq(|ks|, i requires 0 <= i < |ks| => states[ks[i]].db)
  }

  function LogsAt(states: seq<Sys>, project: string, ks: seq<nat>): seq<seq<ChainEntry>>
    requires forall i :: 0 <= i < |ks| ==> ks[i] < |states|
  {
    seq(|ks|, i requires 0 <= i < |ks| => LogOf(states[ks[i]].logs, project))
  }

  function LogAt(states: seq<Sys>, project: string, k: nat): seq<ChainEntry>
    requires k < |states|
  {
    LogOf(states[k].logs, project)
  }

  /** What the reads of one call see of a run, from one state to a later one: a chain that only grows. */
  lemma RunGrowsTo(w: World, states: seq<Sys>, project: string, ks: seq<nat>)
    requires WorldOk(w) && Run(w, states) && InOrder(ks, |states|)
    requires MonthsOrdered(w, LogAt(states, project, Last(ks)))
    ensures GrowsTo(w, project, DbsAt(states, ks), LogsAt(states, project, ks), LogAt(states, project, Last(ks)))
  {
    hide Run, WorldOk, SysOk, IdsIncrease, MonthsOrdered, Holds, LogOf;
    var views, logs, all := DbsAt(states, ks), LogsAt(states, project, ks), LogAt(states, project, Last(ks));
    forall i | 0 <= i < |ks| ensures Holds(w, views[i], project, logs[i]) && logs[i] <= all {
      RunKeeps(w, states, ks[i]);
      StateHolds(w, states[ks[i]], project);
      LogOnlyGrows(w, states, ks[i], Last(ks), project);
    }
    forall i, j | 0 <= i <= j < |logs| ensures |logs[i]| <= |logs[j]| {
      LogOnlyGrows(w, states, ks[i], ks[j], project);
    }
    RunKeeps(w, states, Last(ks));
    StateHolds(w, states[Last(ks)], project);
  }

  lemma StateHolds(w: World, s: Sys, project: string)
    requires SysOk(w, s)
    ensures Holds(w, s.db, project, LogOf(s.logs, project)) && IdsIncrease(LogOf(s.logs, project))
  {
    assert Holds(w, s.db, project, LogOf(s.logs, project));
  }

  // ---- one call ----------------------------------------------------------------------------------------

  ghost predicate CallReads(w: World, states: seq<Sys>, project: string, limit: nat, cursor: Option<string>,
                            call: PageCall) {
    && InOrder(call.ks, |states|)
    && PageReads(w, DbsAt(states, call.ks), project, call.now, limit, cursor, call.items, call.hasMore)
    && MonthsOrdered(w, LogAt(states, project, Last(call.ks)))
    && WithinWalk(w, LogAt(states, project, Last(call.ks)), call.now)
  }

  lemma FirstCall(w: World, states: seq<Sys>, project: string, limit: nat, call: PageCall)
    returns (h: nat)
    requires WorldOk(w) && Run(w, states) && CallReads(w, states, project, limit, None, call)
    ensures |LogAt(states, project, call.ks[0])| <= h <= |LogAt(states, project, Last(call.ks))|
    ensures IsFirstPage(w, LogAt(states, project, Last(call.ks))[..h], |LogAt(states, project, call.ks[0])|, limit,
                        call.items, call.hasMore)
  {
    hide Run, WorldOk, PageReads, IsPage, IsFirstPage, MonthsOrdered, WithinWalk, GrowsTo, LogOf;
    RunGrowsTo(w, states, project, call.ks);
    var logs, all := LogsAt(states, project, call.ks), LogAt(states, project, Last(call.ks));
    PageIsExact(w, project, DbsAt(states, call.ks), logs, all, call.now, limit, None, call.items, call.hasMore);
    h :| |logs[0]| <= h <= |logs[|logs| - 1]| <= |all|
      && IsFirstPage(w, all[..h], |logs[0]|, limit, call.items, call.hasMore);
  }

  lemma LaterCall(w: World, states: seq<Sys>, project: string, limit: nat, cursor: string, call: PageCall, c: nat)
    requires WorldOk(w) && Run(w, states) && CallReads(w, states, project, limit, Some(cursor), call)
    requires At(LogAt(states, project, call.ks[0]), cursor, c)
    ensures IsPage(LogAt(states, project, Last(call.ks)), Some(cursor), limit, call.items, call.hasMore)
  {
    hide Run, WorldOk, PageReads, IsPage, MonthsOrdered, WithinWalk, GrowsTo, LogOf;
    RunGrowsTo(w, states, project, call.ks);
    var logs, all := LogsAt(states, project, call.ks), LogAt(states, project, Last(call.ks));
    PageIsExact(w, project, DbsAt(states, call.ks), logs, all, call.now, limit, Some(cursor), call.items, call.hasMore);
    assert At(logs[0], cursor, c);
  }

  // ---- all calls ---------------------------------------------------------------------------------------

  function PagesOf(calls: seq<PageCall>): seq<seq<ChainEntry>> {
    seq(|calls|, i requires 0 <= i < |calls| => calls[i].items)
  }

  function MoreOf(calls: seq<PageCall>): seq<bool> { seq(|calls|, i requires 0 <= i < |calls| => calls[i].hasMore) }

  /** A reader who follows the pages: each call starts when the one before is over, from its last id. */
  ghost predicate FollowsPages(w: World, states: seq<Sys>, project: string, limit: nat, calls: seq<PageCall>) {
    && calls != [] && limit >= 1
    && (forall i: nat :: i < |calls| ==>
          CallReads(w, states, project, limit, CursorFor(PagesOf(calls), i), calls[i]))
    && (forall i :: 0 <= i < |calls| - 1 ==> calls[i].items != [])
    && (forall i, j :: 0 <= i < j < |calls| ==> Last(calls[i].ks) <= calls[j].ks[0])
  }

  /** The chain each page is a page of: as it stood during the first call, then at the end of each. */
  function ChainOf(states: seq<Sys>, project: string, calls: seq<PageCall>, h: nat, i: nat): seq<ChainEntry>
    requires i < |calls| && InOrder(calls[0].ks, |states|) && InOrder(calls[i].ks, |states|)
    requires h <= |LogAt(states, project, Last(calls[0].ks))|
  {
    if i == 0 then LogAt(states, project, Last(calls[0].ks))[..h] else LogAt(states, project, Last(calls[i].ks))
  }

  lemma LastIsThere(log: seq<ChainEntry>, cursor: Option<string>, limit: nat, items: seq<ChainEntry>, hasMore: bool)
    returns (c: nat)
    requires IsPage(log, cursor, limit, items, hasMore) && items != []
    ensures At(log, items[|items| - 1].content.id, c)
  {
    var n: nat :| StartsAt(log, cursor, n) && items == Newest(log, n, Min(limit, n)) && (hasMore <==> n > limit);
    c := n - |items|;
  }

  lemma NewestIsThere(log: seq<ChainEntry>, items: seq<ChainEntry>)
    requires 0 < |items| <= |log| && items == Newest(log, |log|, |items|)
    ensures At(log, items[|items| - 1].content.id, |log| - |items|)
  {
  }

  /** Early or not, a first page is some newest entries of its chain, and rightly says whether all exactly if not. */
  lemma FirstIsNewest(w: World, log: seq<ChainEntry>, least: nat, limit: nat, items: seq<ChainEntry>, hasMore: bool)
    requires IsFirstPage(w, log, least, limit, items, hasMore)
    ensures |items| <= |log| && items == Newest(log, |log|, |items|)
    ensures (hasMore <==> |items| < |log|) <==> !EndsEarly(w, log, least, limit)
  {
    hide IsPage, CutShort;
    if EndsEarly(w, log, least, limit) {
      CutIsNewest(w, log, least, limit, items, hasMore);
    } else {
      FirstPage(log, limit, items, hasMore);
    }
  }

  lemma CutIsNewest(w: World, log: seq<ChainEntry>, least: nat, limit: nat, items: seq<ChainEntry>, hasMore: bool)
    requires CutShort(w, log, least, limit, items, hasMore)
    ensures !hasMore && |items| < |log| && items == Newest(log, |log|, |items|)
  {
    hide UpTo;
  }

  lemma ChainGoesOn(w: World, states: seq<Sys>, project: string, limit: nat, calls: seq<PageCall>, h: nat, i: nat)
    requires WorldOk(w) && Run(w, states) && FollowsPages(w, states, project, limit, calls) && 0 < i < |calls|
    requires InOrder(calls[0].ks, |states|) && InOrder(calls[i - 1].ks, |states|) && InOrder(calls[i].ks, |states|)
    requires h <= |LogAt(states, project, Last(calls[0].ks))|
    ensures ChainOf(states, project, calls, h, i - 1) <= LogAt(states, project, calls[i].ks[0])
    ensures LogAt(states, project, calls[i].ks[0]) <= ChainOf(states, project, calls, h, i)
  {
    hide Run, WorldOk, CallReads, LogOf;
    LogOnlyGrows(w, states, Last(calls[i - 1].ks), calls[i].ks[0], project);
    LogOnlyGrows(w, states, calls[i].ks[0], Last(calls[i].ks), project);
  }

  /** Call `i`: it starts from the last entry of the page before. */
  lemma CallAt(w: World, states: seq<Sys>, project: string, limit: nat, calls: seq<PageCall>, i: nat)
    requires FollowsPages(w, states, project, limit, calls) && i < |calls|
    ensures InOrder(calls[i].ks, |states|) && calls[i].ks != [] && calls[i].ks[0] < |states|
    ensures CallReads(w, states, project, limit, CursorFor(PagesOf(calls), i), calls[i])
    ensures i == 0 ==> CursorFor(PagesOf(calls), i) == None
    ensures i > 0 ==> calls[i - 1].items != []
    ensures i > 0 ==> CursorFor(PagesOf(calls), i) == Some(calls[i - 1].items[|calls[i - 1].items| - 1].content.id)
  {
    hide CursorFor, CallReads, InOrder;
    assert CallReads(w, states, project, limit, CursorFor(PagesOf(calls), i), calls[i]);
    ReadsInOrder(w, states, project, limit, CursorFor(PagesOf(calls), i), calls[i]);
    assert i > 0 ==> calls[i - 1].items != [];
    CursorIs(calls, i);
  }

  lemma ReadsInOrder(w: World, states: seq<Sys>, project: string, limit: nat, cursor: Option<string>, call: PageCall)
    requires CallReads(w, states, project, limit, cursor, call)
    ensures InOrder(call.ks, |states|) && call.ks != [] && call.ks[0] < |states|
  {
    hide PageReads, MonthsOrdered, WithinWalk, LogAt;
  }

  lemma CursorIs(calls: seq<PageCall>, i: nat)
    requires i < |calls| && (i > 0 ==> calls[i - 1].items != [])
    ensures CursorFor(PagesOf(calls), i)
            == if i == 0 then None else Some(calls[i - 1].items[|calls[i - 1].items| - 1].content.id)
  {
  }

  /** The first page is some newest entries of the chain it was read from. */
  ghost predicate StartsNewest(states: seq<Sys>, project: string, calls: seq<PageCall>, h: nat)
    requires calls != [] && InOrder(calls[0].ks, |states|) && h <= |LogAt(states, project, Last(calls[0].ks))|
  {
    var log, items := ChainOf(states, project, calls, h, 0), calls[0].items;
    |items| <= |log| && items == Newest(log, |log|, |items|)
  }

  /** Every page but the first is a page of the chain as it stands at the end of its call. */
  lemma {:induction false} EveryCallIsPage(w: World, states: seq<Sys>, project: string, limit: nat,
                                           calls: seq<PageCall>, h: nat, i: nat)
    requires WorldOk(w) && Run(w, states) && FollowsPages(w, states, project, limit, calls) && 0 < i < |calls|
    requires InOrder(calls[0].ks, |states|) && InOrder(calls[i].ks, |states|)
    requires h <= |LogAt(states, project, Last(calls[0].ks))| && StartsNewest(states, project, calls, h)
    ensures IsPage(ChainOf(states, project, calls, h, i), CursorFor(PagesOf(calls), i), limit, calls[i].items,
                   calls[i].hasMore)
    decreases i
  {
    hide Run, WorldOk, IsPage, FollowsPages, CallReads, CursorFor, InOrder, LogAt;
    CallAt(w, states, project, limit, calls, i);
    CallAt(w, states, project, limit, calls, i - 1);
    ChainGoesOn(w, states, project, limit, calls, h, i);
    var before, items := ChainOf(states, project, calls, h, i - 1), calls[i - 1].items;
    var c := |before| - |items|;
    if i == 1 {
      NewestIsThere(before, items);
    } else {
      EveryCallIsPage(w, states, project, limit, calls, h, i - 1);
      c := LastIsThere(before, CursorFor(PagesOf(calls), i - 1), limit, items, calls[i - 1].hasMore);
    }
    var cursor := items[|items| - 1].content.id;
    AtOn(before, LogAt(states, project, calls[i].ks[0]), cursor, c);
    LaterCall(w, states, project, limit, cursor, calls[i], c);
  }

  lemma AtOn(log: seq<ChainEntry>, more: seq<ChainEntry>, id: string, c: nat)
    requires At(log, id, c) && log <= more
    ensures At(more, id, c)
  {
    assert more[c] == log[c];
  }

  /**
   * Main result on paging over every run, by calls whose reads meet the store at any later and
   * later states: the pages are the newest entries of the chain as it stood at some moment of the
   * first call, without gap or repeat. The last page rightly says whether they are all of it,
   * except for a single page of a chain with a month boundary that the walk ends above; the head
   * rules that out if it counts more than a page, or if nothing is appended during that call.
   */
  lemma PagesOverEveryRun(w: World, states: seq<Sys>, project: string, limit: nat, calls: seq<PageCall>)
    returns (h: nat)
    requires WorldOk(w) && Run(w, states) && FollowsPages(w, states, project, limit, calls)
    ensures calls != [] && InOrder(calls[0].ks, |states|)
    ensures |LogAt(states, project, calls[0].ks[0])| <= h <= |LogAt(states, project, Last(calls[0].ks))|
    ensures var least, last := |LogAt(states, project, calls[0].ks[0])|, LogAt(states, project, Last(calls[0].ks));
            var log, got := last[..h], Concat(PagesOf(calls));
            && |got| <= |log| && got == Newest(log, |log|, |got|)
            && ((calls[|calls| - 1].hasMore <==> |got| < |log|)
                <==> |calls| > 1 || !EndsEarly(w, log, least, limit))
            && (least > limit || least == |last| ==> !EndsEarly(w, log, least, limit))
  {
    hide Run, WorldOk, IsPage, CallReads, CursorFor, LogAt, Concat, IsFirstPage, EndsEarly;
    CallAt(w, states, project, limit, calls, 0);
    h := FirstCall(w, states, project, limit, calls[0]);
    var least, last := |LogAt(states, project, calls[0].ks[0])|, LogAt(states, project, Last(calls[0].ks));
    FirstIsNewest(w, last[..h], least, limit, calls[0].items, calls[0].hasMore);
    if least > limit || least == |last| { NeverEarly(w, last[..h], least, limit); }
    JoinPages(w, states, project, limit, calls, h);
    ConcatStep(PagesOf(calls));
  }

  lemma JoinPages(w: World, states: seq<Sys>, project: string, limit: nat, calls: seq<PageCall>, h: nat)
    requires WorldOk(w) && Run(w, states) && FollowsPages(w, states, project, limit, calls) && calls != []
    requires InOrder(calls[0].ks, |states|) && h <= |LogAt(states, project, Last(calls[0].ks))|
    requires StartsNewest(states, project, calls, h)
    ensures var log, got := ChainOf(states, project, calls, h, 0), Concat(PagesOf(calls));
            && |got| <= |log| && got == Newest(log, |log|, |got|)
            && (|calls| > 1 ==> (calls[|calls| - 1].hasMore <==> |got| < |log|))
  {
    hide Run, WorldOk, IsPage, CallReads, CursorFor, LogAt, Concat, IdsIncrease, FollowsPages, InOrder, ChainOf;
    forall i: nat | i < |calls| ensures InOrder(calls[i].ks, |states|) { CallAt(w, states, project, limit, calls, i); }
    var logs := seq(|calls|, i requires 0 <= i < |calls| => ChainOf(states, project, calls, h, i));
    var pages, more := PagesOf(calls), MoreOf(calls);
    forall i | 0 < i < |calls| ensures IsPage(logs[i], CursorFor(pages, i), limit, pages[i], more[i]) {
      EveryCallIsPage(w, states, project, limit, calls, h, i);
    }
    forall i, j | 0 <= i <= j < |logs| ensures logs[i] <= logs[j] {
      ChainsGrow(w, states, project, limit, calls, h, i, j);
    }
    forall i | 0 <= i < |logs| ensures IdsIncrease(logs[i]) { ChainIds(w, states, project, calls, h, i); }
    forall i | 0 <= i < |pages| - 1 ensures pages[i] != [] { CallAt(w, states, project, limit, calls, i + 1); }
    CallAt(w, states, project, limit, calls, 0);
    assert limit >= 1 by { LimitIsPositive(w, states, project, limit, calls); }
    assert Continues(logs, limit, pages, more);
    PagesContinue(logs, limit, pages, more);
  }

  lemma LimitIsPositive(w: World, states: seq<Sys>, project: string, limit: nat, calls: seq<PageCall>)
    requires FollowsPages(w, states, project, limit, calls)
    ensures limit >= 1
  {
  }

  lemma {:induction false} ChainsGrow(w: World, states: seq<Sys>, project: string, limit: nat, calls: seq<PageCall>,
                                      h: nat, i: nat, j: nat)
    requires WorldOk(w) && Run(w, states) && FollowsPages(w, states, project, limit, calls) && i <= j < |calls|
    requires forall k: nat :: k < |calls| ==> InOrder(calls[k].ks, |states|)
    requires h <= |LogAt(states, project, Last(calls[0].ks))|
    ensures ChainOf(states, project, calls, h, i) <= ChainOf(states, project, calls, h, j)
    decreases j
  {
    hide Run, WorldOk, FollowsPages, LogAt, ChainOf;
    if i < j {
      ChainsGrow(w, states, project, limit, calls, h, i, j - 1);
      ChainGoesOn(w, states, project, limit, calls, h, j);
    }
  }

  lemma ChainIds(w: World, states: seq<Sys>, project: string, calls: seq<PageCall>, h: nat, i: nat)
    requires WorldOk(w) && Run(w, states) && i < |calls|
    requires InOrder(calls[0].ks, |states|) && InOrder(calls[i].ks, |states|)
    requires h <= |LogAt(states, project, Last(calls[0].ks))|
    ensures IdsIncrease(ChainOf(states, project, calls, h, i))
  {
    hide Run, WorldOk, SysOk, Less;
    RunKeeps(w, states, Last(calls[i].ks));
    StateHolds(w, states[Last(calls[i].ks)], project);
  }

  // ---- a probe -----------------------------------------------------------------------------------------

  /**
   * A probe whose reads meet any later and later states of a run: it verifies exactly when what
   * its last walk read ends where the head it had fetched says, it remembers a prefix of the
   * chain, and once it gives up the prefix it had it fails.
   */
  lemma ProbeOverEveryRun(w: World, states: seq<Sys>, project: string, ks: seq<nat>, now: int, memo: Option<Prefix>,
                          memo': Option<Prefix>, v: ChainVerification)
    returns (q: nat, lo: nat, h: nat)
    requires WorldOk(w) && Run(w, states) && InOrder(ks, |states|)
    requires MonthsOrdered(w, LogAt(states, project, Last(ks))) && WithinWalk(w, LogAt(states, project, Last(ks)), now)
    requires LogAt(states, project, ks[0]) != [] && Remembers(LogAt(states, project, Last(ks)), memo)
    requires ProbeReads(w.sha, DbsAt(states, ks), project, now, memo, memo', v)
    ensures 1 <= q && LastWalk(DbsAt(states, ks), project, now, LogAt(states, project, Last(ks)), q, lo, h)
    ensures |LogAt(states, project, ks[0])| <= h <= |LogAt(states, project, Last(ks))|
    ensures if Usable(memo, |LogAt(states, project, ks[0])|) then v.verified <==> q == 1 else q == 2
    ensures ProbeEnds(LogAt(states, project, Last(ks)), |LogAt(states, project, ks[0])|, h, memo', v)
    ensures Remembers(LogAt(states, project, Last(ks)), memo')
  {
    hide Run, WorldOk, ProbeReads, ProbeEnds, LastWalk, Remembers, MonthsOrdered, WithinWalk, GrowsTo, LogOf;
    RunGrowsTo(w, states, project, ks);
    var logs, all := LogsAt(states, project, ks), LogAt(states, project, Last(ks));
    q, lo, h := ProbeUnderAppends(w, project, DbsAt(states, ks), logs, all, now, memo, memo', v);
  }
}
