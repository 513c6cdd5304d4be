/**
 * A request in cooling over every history: settles of any number of callers, cancels, and
 * whatever else goes on in the store.
 */
module CoolingRuns {
  import opened Strings
  import opened Json
  import opened AuditChain
  import opened Store
  import opened AsyncStore
  import opened Cooling

  /** A request: its project, the key of its row, and its id. */
  datatype Request = Request(project: string, key: Key, id: string)

  /** A settle in the making: the row its caller read, after which event, and its two clock readings. */
  datatype Settle = Settle(req: Item, readAt: nat, nowMs: int, at: string)

  predicate IsSettleEntry(c: Content, id: string) {
    c.action == "request-apply" && c.actor == "system:cooling-window-elapsed" && c.targetId == id
  }

  /** How many settles of the request the chain records. */
  function SettleEntries(log: seq<ChainEntry>, id: string): nat {
    if log == [] then 0
    else SettleEntries(log[..|log| - 1], id) + if IsSettleEntry(log[|log| - 1].content, id) then 1 else 0
  }

  function Settles(st: State, q: Request): nat { SettleEntries(LogOf(st.logs, q.project), q.id) }

  /** The event submits this settle, whoever's it is: its one guarded write and its entry. */
  predicate Submits(e: Event, q: Request, s: Settle) {
    match e
    case Other(AuditedBatch(project, ws, input, _, _)) =>
      project == q.project && ws == [SettleWrite(q.key, s.req, s.at)] && input == SettleEntry(s.req, q.id)
    case Own(ws, a) =>
      && a.key.project == q.project && ws == [SettleWrite(q.key, s.req, s.at)]
      && a.entry.content == ContentFor(SettleEntry(s.req, q.id), a.entry.content.at, a.entry.content.id)
    case _ => false
  }

  /** Event `k` submits a settle made from a row that was stored, and whose window had elapsed by then. */
  ghost predicate IsSettle(w: World, st: State, events: seq<Event>, k: nat, q: Request, s: Settle) {
    && k < |events| && s.readAt <= k && Submits(events[k], q, s)
    && RowOf(StateAt(w, st, events, s.readAt).db, q.key) == Some(s.req) && CoolingElapsed(w, s.req, s.nowMs)
  }

  predicate Lands(w: World, st: State, e: Event) {
    match e
    case Other(f) => ForeignLands(w, st, f)
    case Own(ws, a) => BatchHolds(st.db, ws, Some(a))
    case _ => false
  }

  /** Event `k` is a settle of the request that won. */
  ghost predicate Wins(w: World, st: State, events: seq<Event>, k: nat, q: Request, s: Settle) {
    IsSettle(w, st, events, k, q, s) && Lands(w, StateAt(w, st, events, k), events[k])
  }

  ghost predicate WonAt(w: World, st: State, events: seq<Event>, k: nat, q: Request) {
    exists s :: Wins(w, st, events, k, q, s)
  }

  predicate SameWindow(before: State, after: State, key: Key)
    requires key in before.db.rows && key in after.db.rows
  {
    Attr(before.db.rows[key], "earliestApplyAt") == Attr(after.db.rows[key], "earliestApplyAt")
  }

  /** What every other step keeps: it puts nothing into cooling, moves no window, and writes no settle entry. */
  ghost predicate Neutral(before: State, after: State, q: Request) {
    && (IsCooling(after, q.key) ==> IsCooling(before, q.key) && SameWindow(before, after, q.key))
    && Settles(after, q) == Settles(before, q)
  }

  ghost predicate Keeps(w: World, st: State, events: seq<Event>, k: nat, q: Request) {
    && k < |events|
    && ((exists s :: IsSettle(w, st, events, k, q, s))
        || Neutral(StateAt(w, st, events, k), StateAt(w, st, events, k + 1), q))
  }

  /** A history in which only settles settle: cancels and unrelated steps are the rest. */
  ghost predicate Disciplined(w: World, st: State, events: seq<Event>, q: Request) {
    forall k: nat :: k < |events| ==> Keeps(w, st, events, k, q)
  }

  // ---- one step ----------------------------------------------------------------------------------------

  lemma {:induction false} OneMoreEntry(log: seq<ChainEntry>, e: ChainEntry, id: string)
    ensures SettleEntries(log + [e], id) == SettleEntries(log, id) + if IsSettleEntry(e.content, id) then 1 else 0
  {
    assert (log + [e])[..|log|] == log;
  }

  /** Whoever's the settle is, it lands as one batch: its write and an append of its entry. */
  lemma LandedIsOneBatch(w: World, st: State, e: Event, q: Request, s: Settle) returns (a: Append)
    requires Submits(e, q, s) && Lands(w, st, e)
    ensures BatchHolds(st.db, [SettleWrite(q.key, s.req, s.at)], Some(a)) && a.key.project == q.project
    ensures IsSettleEntry(a.entry.content, q.id)
    ensures Step(w, st, e).db == OwnStep(st, [SettleWrite(q.key, s.req, s.at)], a).db
    ensures Step(w, st, e).logs == OwnStep(st, [SettleWrite(q.key, s.req, s.at)], a).logs
  {
    hide BatchHolds, EntryHash, SettleWrite, ApplyBatch;
    match e {
      case Other(f) => a := RecordIn(w, f.project, HeadOf(st.db, f.project), f.input, f.at, f.id);
      case Own(_, b) => a := b;
    }
  }

  /** A settle that wins finds the request in cooling, takes it out, and adds its one entry. */
  lemma WinSettles(w: World, st: State, e: Event, q: Request, s: Settle)
    requires Submits(e, q, s) && Lands(w, st, e)
    ensures IsCooling(st, q.key) && !IsCooling(Step(w, st, e), q.key)
    ensures Settles(Step(w, st, e), q) == Settles(st, q) + 1
  {
    hide RecordIn, Lands, Submits, BatchHolds, ApplyBatch, SettleWrite, Settled, IsSettleEntry, SettleEntries;
    var a := LandedIsOneBatch(w, st, e, q, s);
    hide Step;
    SettleLands(st, q.key, s.req, s.at, a);
    SettleHoldsIffCooling(st.db, q.key, s.req, s.at);
    OneMoreEntry(LogOf(st.logs, q.project), a.entry, q.id);
  }

  lemma LostChangesNothing(w: World, st: State, e: Event, q: Request, s: Settle)
    requires Submits(e, q, s) && !Lands(w, st, e)
    ensures Step(w, st, e) == st
  {
    hide ForeignLands, BatchHolds, RecordIn, ApplyBatch;
  }

  lemma {:induction false} StepIsWinOrNeutral(w: World, st: State, events: seq<Event>, k: nat, q: Request)
    requires Keeps(w, st, events, k, q)
    ensures WonAt(w, st, events, k, q)
            || Neutral(StateAt(w, st, events, k), StateAt(w, st, events, k + 1), q)
  {
    hide Submits, Replay, CoolingElapsed, Step, Lands;
    if s :| IsSettle(w, st, events, k, q, s) {
      StateNext(w, st, events, k);
      if Lands(w, StateAt(w, st, events, k), events[k]) {
        assert Wins(w, st, events, k, q, s);
      } else {
        LostChangesNothing(w, StateAt(w, st, events, k), events[k], q, s);
      }
    }
  }

  lemma KeepsAt(w: World, st: State, events: seq<Event>, k: nat, q: Request)
    requires Disciplined(w, st, events, q) && k < |events|
    ensures WonAt(w, st, events, k, q)
            || Neutral(StateAt(w, st, events, k), StateAt(w, st, events, k + 1), q)
  {
    hide Keeps, Neutral, Wins;
    assert Keeps(w, st, events, k, q);
    StepIsWinOrNeutral(w, st, events, k, q);
  }

  lemma WinAt(w: World, st: State, events: seq<Event>, k: nat, q: Request)
    requires WonAt(w, st, events, k, q)
    ensures k < |events|
    ensures IsCooling(StateAt(w, st, events, k), q.key) && !IsCooling(StateAt(w, st, events, k + 1), q.key)
    ensures Settles(StateAt(w, st, events, k + 1), q) == Settles(StateAt(w, st, events, k), q) + 1
  {
    hide Submits, Replay, CoolingElapsed, Step, Lands, IsCooling, Settles;
    var s :| Wins(w, st, events, k, q, s);
    StateNext(w, st, events, k);
    WinSettles(w, StateAt(w, st, events, k), events[k], q, s);
  }

  // ---- over every run ----------------------------------------------------------------------------------

  /** Some settle of the request won among the first `n` events. */
  ghost predicate WonBefore(w: World, st: State, events: seq<Event>, n: nat, q: Request) {
    exists k: nat :: k < n && WonAt(w, st, events, k, q)
  }

  /**
   * Main result: in every history of settles, cancels and unrelated steps, the chain records
   * a settle of the request exactly when one won, and never a second one; after that the
   * request is out of cooling for good.
   */
  lemma {:induction false} OneSettleEntry(w: World, st: State, events: seq<Event>, n: nat, q: Request)
    requires Disciplined(w, st, events, q) && Settles(st, q) == 0 && n <= |events|
    ensures Settles(StateAt(w, st, events, n), q) == if WonBefore(w, st, events, n, q) then 1 else 0
    ensures WonBefore(w, st, events, n, q) ==> !IsCooling(StateAt(w, st, events, n), q.key)
  {
    hide Wins, IsCooling, Settles, Disciplined;
    if n == 0 {
      assert events[..0] == [];
    } else {
      OneSettleEntry(w, st, events, n - 1, q);
      KeepsAt(w, st, events, n - 1, q);
      hide Replay, StateAt;
      if WonAt(w, st, events, n - 1, q) { WinAt(w, st, events, n - 1, q); }
    }
  }

  /** A request that is in cooling was in cooling all along, under the same window. */
  lemma {:induction false} CoolingBefore(w: World, st: State, events: seq<Event>, i: nat, k: nat, q: Request)
    requires Disciplined(w, st, events, q) && i <= k <= |events| && IsCooling(StateAt(w, st, events, k), q.key)
    ensures IsCooling(StateAt(w, st, events, i), q.key)
    ensures SameWindow(StateAt(w, st, events, i), StateAt(w, st, events, k), q.key)
    decreases k - i
  {
    hide StateAt, Disciplined, Wins, Settles;
    if i < k {
      KeepsAt(w, st, events, k - 1, q);
      if WonAt(w, st, events, k - 1, q) { WinAt(w, st, events, k - 1, q); }
      CoolingBefore(w, st, events, i, k - 1, q);
    }
  }

  /** The step that takes the request out of cooling. */
  ghost predicate LeavesAt(w: World, st: State, events: seq<Event>, k: nat, q: Request) {
    k < |events|
    && IsCooling(StateAt(w, st, events, k), q.key) && !IsCooling(StateAt(w, st, events, k + 1), q.key)
  }

  /** A request leaves cooling at most once, whoever settles or cancels, so no two settles win. */
  lemma LeavesOnce(w: World, st: State, events: seq<Event>, i: nat, j: nat, q: Request)
    requires Disciplined(w, st, events, q)
    requires LeavesAt(w, st, events, i, q) || WonAt(w, st, events, i, q)
    requires LeavesAt(w, st, events, j, q) || WonAt(w, st, events, j, q)
    ensures i == j && LeavesAt(w, st, events, i, q)
  {
    hide StateAt, Disciplined, WonAt, IsCooling;
    if WonAt(w, st, events, i, q) { WinAt(w, st, events, i, q); }
    if WonAt(w, st, events, j, q) { WinAt(w, st, events, j, q); }
    if i < j { CoolingBefore(w, st, events, i + 1, j, q); }
    if j < i { CoolingBefore(w, st, events, j + 1, i, q); }
  }

  /** No settle wins before the window that is stored with the request has elapsed. */
  lemma NeverEarly(w: World, st: State, events: seq<Event>, k: nat, q: Request, s: Settle)
    requires Disciplined(w, st, events, q) && Wins(w, st, events, k, q, s)
    ensures var db := StateAt(w, st, events, k).db;
            q.key in db.rows && CoolingElapsed(w, db.rows[q.key], s.nowMs)
            && s.nowMs >= w.dateMs(db.rows[q.key]["earliestApplyAt"].s)
  {
    assert WonAt(w, st, events, k, q);
    WinAt(w, st, events, k, q);
    hide StateAt, Disciplined, Lands, Submits, WonAt;
    CoolingBefore(w, st, events, s.readAt, k, q);
  }

  // ---- a caller's own settle ---------------------------------------------------------------------------

  /** The others keep to the rules from event `from` on. */
  ghost predicate OthersKeep(w: World, st: State, events: seq<Event>, from: nat, q: Request) {
    forall k: nat :: from <= k < |events| && events[k].Other? ==> Keeps(w, st, events, k, q)
  }

  lemma KeepsStands(w: World, st: State, past: seq<Event>, events: seq<Event>, k: nat, q: Request)
    requires past <= events && Keeps(w, st, past, k, q)
    ensures Keeps(w, st, events, k, q)
  {
    hide Replay, StateAt, CoolingElapsed, Submits, Neutral;
    StateStands(w, st, past, events, k);
    StateStands(w, st, past, events, k + 1);
    if s :| IsSettle(w, st, past, k, q, s) {
      StateStands(w, st, past, events, s.readAt);
      assert IsSettle(w, st, events, k, q, s);
    }
  }

  lemma QuietKeeps(w: World, st: State, events: seq<Event>, k: nat, q: Request)
    requires k < |events| && (events[k].Minted? || events[k].Refused?)
    ensures Keeps(w, st, events, k, q)
  {
    hide Replay, SettleEntries;
    StateNext(w, st, events, k);
    hide StateAt;
    assert Neutral(StateAt(w, st, events, k), StateAt(w, st, events, k + 1), q);
  }

  /** A history stays disciplined as long as the others keep to the rules and this caller only settles. */
  lemma DisciplineGoesOn(w: World, st: State, past: seq<Event>, events: seq<Event>, q: Request)
    requires past <= events && Disciplined(w, st, past, q) && OthersKeep(w, st, events, |past|, q)
    requires forall k: nat :: |past| <= k < |events| && events[k].Own? ==> exists s :: IsSettle(w, st, events, k, q, s)
    ensures Disciplined(w, st, events, q)
  {
    hide StateAt, IsSettle, Neutral;
    forall k: nat | k < |events| ensures Keeps(w, st, events, k, q) {
      if k < |past| {
        assert Keeps(w, st, past, k, q);
        KeepsStands(w, st, past, events, k, q);
      } else if events[k].Minted? || events[k].Refused? {
        QuietKeeps(w, st, events, k, q);
      }
    }
  }
}
