/** settleCooling as a call: a retry loop over a store that cancels and other settles keep changing. */
module CoolingCalls {
  import opened Strings
  import opened Json
  import opened AuditChain
  import opened Store
  import opened AsyncStore
  import opened AsyncHistory
  import opened AuditWriters
  import opened Cooling
  import opened CoolingRuns

  datatype Settlement =
    | NotElapsed
    | Won(row: Item)
    | Already(row: Item)
    | Contended

  datatype Round = BothWritten | LeftCooling(row: Item) | Retry

  /** From event `from` on the row is there and nothing puts it into cooling. */
  ghost predicate StaysOut(w: World, st: State, events: seq<Event>, from: nat, key: Key) {
    && (forall k: nat :: from <= k <= |events| ==> key in StateAt(w, st, events, k).db.rows)
    && (forall i: nat, j: nat ::
          from <= i <= j <= |events| && IsCooling(StateAt(w, st, events, j), key) ==>
            IsCooling(StateAt(w, st, events, i), key))
  }

  lemma StaysOutBefore(w: World, st: State, events: seq<Event>, more: seq<Event>, from: nat, key: Key)
    requires events <= more && StaysOut(w, st, more, from, key)
    ensures StaysOut(w, st, events, from, key)
  {
    hide StateAt, IsCooling;
    forall k: nat | k <= |events| ensures StateAt(w, st, events, k) == StateAt(w, st, more, k) {
      StateStands(w, st, events, more, k);
    }
  }

  /** A disciplined history puts nothing back into cooling. */
  lemma DisciplinedStaysOut(w: World, st: State, events: seq<Event>, from: nat, q: Request)
    requires Disciplined(w, st, events, q)
    requires forall k: nat :: from <= k <= |events| ==> q.key in StateAt(w, st, events, k).db.rows
    ensures StaysOut(w, st, events, from, q.key)
  {
    hide StateAt, IsCooling, Disciplined, SameWindow;
    forall i: nat, j: nat | from <= i <= j <= |events| && IsCooling(StateAt(w, st, events, j), q.key)
      ensures IsCooling(StateAt(w, st, events, i), q.key)
    {
      CoolingBefore(w, st, events, i, j, q);
    }
  }

  /** One round: submit the settle with its entry, and look at the request again if it was refused. */
  method SettleRound(store: SharedStore, q: Request, req: Item, now: string, at: string)
    returns (r: Round, a: Append, ghost answered: seq<Event>)
    requires store.Valid()
    modifies store
    ensures store.Valid() && OnlyOthers(answered, store.events)
    ensures OneRound(old(store.events), answered,
                     if r.BothWritten? then Own([SettleWrite(q.key, req, now)], a)
                     else Refused([SettleWrite(q.key, req, now)], a))
    ensures a.key.project == q.project
    ensures a.entry.content == ContentFor(SettleEntry(req, q.id), at, a.entry.content.id)
    // landed: both writes in one step
    ensures r.BothWritten? ==>
              var was := StateAt(store.w, store.origin, answered, |answered| - 1);
              && answered == store.events && a.entry in LogOf(store.st.logs, q.project)
              && Lands(store.w, was, Own([SettleWrite(q.key, req, now)], a))
              && q.key in was.db.rows && q.key in store.st.db.rows
              && store.st.db.rows[q.key] == Updated(was.db.rows[q.key], req, now)
    // or found out of cooling
    ensures r.LeftCooling? ==> RowOf(store.st.db, q.key) == Some(r.row) && Attr(r.row, "status") != Some(COOLING)
    // or lost: to a foreign append unless the row went away or went into cooling again
    ensures r.Retry? ==> q.key !in store.st.db.rows || IsCooling(store.st, q.key)
    ensures !r.BothWritten? && IsCooling(StateAt(store.w, store.origin, answered, |answered| - 1), q.key) ==>
              |LogOf(StateAt(store.w, store.origin, answered, |answered| - 1).logs, q.project)|
              > |LogOf(old(store.st.logs), q.project)|
  {
    hide StateOk, WorldOk, Replay, ContentFor, HeldInput, WritesHold, Settled, BatchHolds, LogsGrow,
         SettleEntry, CoolingTargetStatus, ApplyBatch, OwnStep, SettleWrite, LogOf, Attr, Updated,
         StateAt, NothingSubmitted;
    var ws := [SettleWrite(q.key, req, now)];
    SettleEntryHeld(req, q.id);
    var outcome;
    ghost var submittedAt;
    outcome, a, submittedAt := Attempt(store, q.project, ws, SettleEntry(req, q.id), at);
    answered := store.events;
    SettleIsFit(q.key, req, now);
    SettleHoldsIffCooling(submittedAt.db, q.key, req, now);
    if outcome.Applied? {
      SettleLands(submittedAt, q.key, req, now, a);
      return BothWritten, a, answered;
    }
    var current := store.Get(q.key);
    if current.Some? && Attr(current.value, "status") != Some(COOLING) {
      return LeftCooling(current.value), a, answered;
    }
    return Retry, a, answered;
  }

  lemma SettleIsFit(key: Key, req: Item, at: string)
    ensures Admissible([SettleWrite(key, req, at)], true)
  {
  }

  /** A round that was lost, and what paid for it. */
  lemma LostSettleRound(w: World, st: State, past: seq<Event>, middle: seq<Event>, answered: seq<Event>,
                        now: seq<Event>, q: Request, req: Item, at: string, a: Append, n: nat)
    requires var ws := [SettleWrite(q.key, req, at)];
             Lost(past, middle, ws, n) && OneRound(middle, answered, Refused(ws, a)) && OnlyOthers(answered, now)
    requires IsCooling(StateAt(w, st, answered, |answered| - 1), q.key) ==>
               |LogOf(StateAt(w, st, answered, |answered| - 1).logs, q.project)|
               > |LogOf(Replay(w, st, middle).logs, q.project)|
    ensures Lost(past, now, [SettleWrite(q.key, req, at)], n + 1) && past <= middle <= now
    ensures ForeignAppends(w, st, now, |past|, q.project) + OwnFailures(w, st, now, |past|)
            > ForeignAppends(w, st, middle, |past|, q.project) + OwnFailures(w, st, middle, |past|)
    ensures StaysOut(w, st, now, |past|, q.key)
            && (q.key !in Replay(w, st, now).db.rows || IsCooling(Replay(w, st, now), q.key)) ==>
              ForeignAppends(w, st, now, |past|, q.project) > ForeignAppends(w, st, middle, |past|, q.project)
  {
    hide OnlyOthers, IsCooling, Replay, StateAt, StatusIs, WritesHold, SettleWrite, ForeignAppends, OwnFailures,
         OwnBatches, Submissions;
    var ws := [SettleWrite(q.key, req, at)];
    SettleHoldsIffCooling(StateAt(w, st, answered, |answered| - 1).db, q.key, req, at);
    CoolingIsStatus(StateAt(w, st, answered, |answered| - 1), q.key);
    LostRound(w, st, past, middle, answered, now, ws, a, q.project, n);
    AnsweredIsEarlier(answered, now);
    StateStands(w, st, answered, now, |answered| - 1);
    StateAtEnd(w, st, now);
  }

  lemma StateAtEnd(w: World, st: State, events: seq<Event>)
    ensures StateAt(w, st, events, |events|) == Replay(w, st, events)
  {
    assert events[..|events|] == events;
  }

  lemma CoolingIsStatus(st: State, key: Key)
    ensures IsCooling(st, key) <==> StatusIs(st.db, key, COOLING)
  {
  }

  lemma AnsweredIsEarlier(answered: seq<Event>, now: seq<Event>)
    requires OnlyOthers(answered, now)
    ensures answered <= now
  {
  }

  lemma LossKeeps(w: World, st: State, past: seq<Event>, events: seq<Event>, q: Request, ws: seq<RowWrite>, n: nat)
    requires Lost(past, events, ws, n)
    ensures Disciplined(w, st, past, q) && OthersKeep(w, st, events, |past|, q) ==> Disciplined(w, st, events, q)
  {
    hide Disciplined, OthersKeep, OwnBatches, Submissions;
    if Disciplined(w, st, past, q) && OthersKeep(w, st, events, |past|, q) { DisciplineGoesOn(w, st, past, events, q); }
  }

  /** A settle that lands is a win, and the only thing this caller did to the store. */
  lemma WinKeeps(w: World, st: State, past: seq<Event>, middle: seq<Event>, events: seq<Event>, q: Request, s: Settle,
                 a: Append, n: nat)
    requires var ws := [SettleWrite(q.key, s.req, s.at)];
             && Lost(past, middle, ws, n) && OneRound(middle, events, Own(ws, a))
             && Lands(w, StateAt(w, st, events, |events| - 1), Own(ws, a))
    requires a.key.project == q.project && CoolingElapsed(w, s.req, s.nowMs)
    requires exists at :: a.entry.content == ContentFor(SettleEntry(s.req, q.id), at, a.entry.content.id)
    ensures s.readAt <= |past| && RowOf(StateAt(w, st, past, s.readAt).db, q.key) == Some(s.req) ==>
              && Wins(w, st, events, |events| - 1, q, s)
              && (Disciplined(w, st, past, q) && OthersKeep(w, st, events, |past|, q) ==> Disciplined(w, st, events, q))
  {
    hide OwnBatches, Submissions, Disciplined, OthersKeep, CoolingElapsed, Lands, SettleWrite, SettleEntry, Replay;
    if s.readAt <= |past| && RowOf(StateAt(w, st, past, s.readAt).db, q.key) == Some(s.req) {
      StateStands(w, st, past, events, s.readAt);
      assert IsSettle(w, st, events, |events| - 1, q, s);
      if Disciplined(w, st, past, q) && OthersKeep(w, st, events, |past|, q) {
        DisciplineGoesOn(w, st, past, events, q);
      }
    }
  }

  /**
   * Settle lazily. A call on an elapsed request ends in one of three ways: its own settle
   * landed, in one step with its one audit entry; somebody else had taken the request out
   * of cooling, and the row returned is the one the store holds; or the budget ran out.
   */
  method SettleCooling(store: SharedStore, q: Request, req: Item, nowMs: int, now: string, clock: nat -> string,
                       ghost readAt: nat)
    returns (r: Settlement, lost: nat)
    requires store.Valid()
    modifies store
    ensures store.Valid() && old(store.events) <= store.events
    ensures r.NotElapsed? <==> !Due(store.w, req, nowMs)
    ensures r.NotElapsed? ==> store.events == old(store.events) && store.st == old(store.st)
    // what was sent out, and what of it landed: all or nothing
    ensures |Submissions(Since(store, old(store.events)))| == lost + (if r.Won? then 1 else 0)
    ensures AllOf(Submissions(Since(store, old(store.events))), [SettleWrite(q.key, req, now)])
    ensures !r.Won? ==> OwnBatches(Since(store, old(store.events))) == []
    // a win is the last event
    ensures r.Won? ==>
              && |store.events| > |old(store.events)|
              && q.key in During(store, |store.events| - 1).db.rows && q.key in store.st.db.rows
    ensures r.Won? ==>
              exists a :: OwnBatches(Since(store, old(store.events))) == [Own([SettleWrite(q.key, req, now)], a)]
                && a.key.project == q.project
                && a.entry.content == ContentFor(SettleEntry(req, q.id), clock(lost), a.entry.content.id)
                && a.entry in LogOf(store.st.logs, q.project)
                && SettledAs(During(store, |store.events| - 1).db.rows[q.key], req, now, q.id, store.st.db.rows[q.key],
                             a.entry.content)
    // the row is the stored one, settled
    ensures r.Won? ==>
              && r.row == Updated(req, req, now)
              && store.st.db.rows[q.key] == Updated(During(store, |store.events| - 1).db.rows[q.key], req, now)
    // otherwise it reports a status the row really has
    ensures r.Already? ==> RowOf(store.st.db, q.key) == Some(r.row) && Attr(r.row, "status") != Some(COOLING)
    // every lost round is paid for
    ensures r.Contended? ==> lost == 8
    ensures lost <= 8
    ensures lost <= Appends(store, old(store.events), q.project) + Failures(store, old(store.events))
    ensures r.Contended? && StaysOut(store.w, store.origin, store.events, |old(store.events)|, q.key) ==>
              Appends(store, old(store.events), q.project) >= 8
    // the call keeps to the rules: its win is a settle like any other
    ensures readAt <= |old(store.events)| && RowOf(old(During(store, readAt)).db, q.key) == Some(req) ==>
              && (r.Won? ==>
                    Wins(store.w, store.origin, store.events, |store.events| - 1, q, Settle(req, readAt, nowMs, now)))
              && (Disciplined(store.w, store.origin, old(store.events), q)
                  && OthersKeep(store.w, store.origin, store.events, |old(store.events)|, q) ==>
                    Disciplined(store.w, store.origin, store.events, q))
  {
    hide OwnBatches, Submissions, After, LogsGrow, StateOk, WorldOk, Replay, ContentFor, Settled, SettleEntry, AllOf,
         CoolingTargetStatus, CoolingElapsed, SettleWrite, StatusIs, LogOf, Attr, Updated, Lost, OneRound,
         ForeignAppends, OwnFailures, StaysOut, Disciplined, OthersKeep, Wins, StateAt, Lands;
    hide SettledAs, Due;
    ElapsedIsDue(store.w, req, nowMs);
    lost := 0;
    ghost var past, ws := store.events, [SettleWrite(q.key, req, now)];
    NothingLost(store.w, store.origin, past, ws);
    if !CoolingElapsed(store.w, req, nowMs) {
      LostIsSent(past, past, ws, 0);
      return NotElapsed, lost;
    }
    while true
      invariant store.Valid() && past <= store.events && lost < CHAIN_WRITE_ATTEMPTS
      invariant Lost(past, store.events, ws, lost)
      invariant lost <= Appends(store, past, q.project) + Failures(store, past)
      invariant StaysOut(store.w, store.origin, store.events, |past|, q.key) ==> lost <= Appends(store, past, q.project)
      decreases CHAIN_WRITE_ATTEMPTS - lost
    {
      ghost var middle := store.events;
      var round, a;
      ghost var answered;
      round, a, answered := SettleRound(store, q, req, now, clock(lost));
      if round.BothWritten? {
        LastRound(store.w, store.origin, past, middle, answered, ws, Own(ws, a), q.project, lost);
        WinKeeps(store.w, store.origin, past, middle, answered, q, Settle(req, readAt, nowMs, now), a, lost);
        ghost var was := StateAt(store.w, store.origin, answered, |answered| - 1).db.rows[q.key];
        SettleLeaves(was, req, now, q.id, clock(lost), a.entry.content.id);
        return Won(Updated(req, req, now)), lost;
      }
      LostSettleRound(store.w, store.origin, past, middle, answered, store.events, q, req, now, a, lost);
      if StaysOut(store.w, store.origin, store.events, |past|, q.key) {
        StaysOutBefore(store.w, store.origin, middle, store.events, |past|, q.key);
      }
      lost := lost + 1;
      LostIsSent(past, store.events, ws, lost);
      LossKeeps(store.w, store.origin, past, store.events, q, ws, lost);
      if round.LeftCooling? { return Already(round.row), lost; }
      if !ChainBackoff(lost - 1) { return Contended, lost; }
    }
  }
}
