/**
 * The two write paths of the audit log, record and transactWithAudit: retry loops over a
 * store that other callers keep changing.
 */
module AuditWriters {
  import opened Strings
  import opened Json
  import opened AuditChain
  import opened Store
  import opened AuditProtocol
  import opened AsyncStore
  import opened AsyncHistory

  const CHAIN_WRITE_ATTEMPTS := 8

  /** Whether another attempt remains after attempt number `attempt`; the wait itself is left out. */
  function ChainBackoff(attempt: nat): bool { attempt + 1 < CHAIN_WRITE_ATTEMPTS }

  datatype RecordResult = Recorded(id: string, hash: string) | Contention

  lemma HeadIsPrefix(w: World, st: State, project: string)
    requires StateOk(w, st)
    ensures WasHead(LogOf(st.logs, project), HeadOf(st.db, project), |LogOf(st.logs, project)|)
  {
    HeadIsWasHead(w, Sys(st.db, st.logs, st.lastUlid, map[]), project);
  }

  /** An entry stamped right after its head was read is ready to be submitted. */
  lemma MintedIsReady(w: World, st: State, st': State, project: string, e: AuditInput, at: string, id: string)
    requires StateOk(w, st) && Less(st.lastUlid, id) && HeldInput(e)
    requires st'.logs == st.logs && st'.lastUlid == id
    ensures var a := RecordIn(w, project, HeadOf(st.db, project), e, at, id);
            Ready(w, st', a, |LogOf(st.logs, project)|, e, at)
  {
    hide Consistent;
    HeadIsPrefix(w, st, project);
    FreshIsNewer(w, Sys(st.db, st.logs, st.lastUlid, map[]), project, |LogOf(st.logs, project)|, id);
  }

  /** How a batch that was submitted shows in the history. */
  function EventOf(r: Outcome, ws: seq<RowWrite>, a: Append): Event {
    if r.Applied? then Own(ws, a) else Refused(ws, a)
  }

  /**
   * One round of either path: read the head, build the append on it, submit the batch.
   * A refusal means the caller's own conditions were false when the batch arrived, or that
   * another caller appended to the chain after the head was read.
   */
  method Attempt(store: SharedStore, project: string, ws: seq<RowWrite>, entry: AuditInput, at: string)
    returns (r: Outcome, a: Append, ghost submittedAt: State)
    requires store.Valid() && HeldInput(entry)
    modifies store
    ensures store.Valid() && OneRound(old(store.events), store.events, EventOf(r, ws, a))
    ensures submittedAt == During(store, |store.events| - 1)
    ensures LogsGrow(old(store.st.logs), submittedAt.logs) && LogsGrow(submittedAt.logs, store.st.logs)
    ensures a.key.project == project && a.entry.content == ContentFor(entry, at, a.entry.content.id)
    ensures r == (if !Admissible(ws, true) then SeamViolation
                  else if BatchHolds(submittedAt.db, ws, Some(a)) then Applied else ConditionFailed)
    ensures store.st == if r.Applied? then OwnStep(submittedAt, ws, a) else submittedAt
    ensures r.ConditionFailed? && WritesHold(submittedAt.db, ws) ==>
              |LogOf(submittedAt.logs, project)| > |LogOf(old(store.st.logs), project)|
    ensures r.Applied? ==> LogOf(store.st.logs, project) == LogOf(submittedAt.logs, project) + [a.entry]
    ensures r.Applied? ==> BatchLanded(submittedAt.db.rows, ws, store.st.db.rows)
  {
    hide BatchLanded, StateOk, WorldOk, Replay, BatchHolds, EntryHash, ApplyBatch, LogsGrow, AtMost, Ready,
         Admissible, WritesHold, HeldInput;
    ghost var past, logs := store.events, store.st.logs;
    var head := store.GetHead(project);
    ghost var st1 := store.st;
    HeadIsPrefix(store.w, st1, project);
    var id := store.Mint(at);
    a := RecordIn(store.w, project, head, entry, at, id);
    MintedIsReady(store.w, st1, store.st, project, entry, at, id);
    r, submittedAt := store.Transact(ws, a, |LogOf(st1.logs, project)|, entry, at);
    GrowthAdds(logs, st1.logs, submittedAt.logs, store.st.logs, project);
    LogsGrowTransitive(logs, st1.logs, submittedAt.logs);
  }

  lemma GrowthAdds(a: Logs, b: Logs, c: Logs, d: Logs, project: string)
    requires LogsGrow(a, b) && LogsGrow(b, c) && LogsGrow(c, d)
    ensures LogsGrow(a, d)
    ensures LogOf(a, project) <= LogOf(b, project) <= LogOf(c, project) <= LogOf(d, project)
  {
    LogsGrowTransitive(a, b, c);
    LogsGrowTransitive(a, c, d);
    assert LogOf(a, project) <= LogOf(b, project);
  }

  /**
   * A standalone append. Each lost round is paid for by an append some other caller got
   * onto the same chain, so the budget of eight can only run out if eight of them did.
   */
  method Record(store: SharedStore, project: string, entry: AuditInput, clock: nat -> string)
    returns (r: RecordResult, lost: nat)
    requires store.Valid() && HeldInput(entry)
    modifies store
    ensures store.Valid() && old(store.events) <= store.events
    ensures LogsGrow(old(store.st.logs), store.st.logs)
    ensures |Submissions(Since(store, old(store.events)))| == lost + (if r.Recorded? then 1 else 0)
    ensures r.Contention? <==> lost == 8
    ensures lost <= Appends(store, old(store.events), project)
    ensures r.Contention? ==> OwnBatches(Since(store, old(store.events))) == []
    ensures r.Recorded? ==>
              exists a :: OwnBatches(Since(store, old(store.events))) == [Own([], a)]
                && a.key.project == project && Recounts(a.entry.content, entry, clock(lost), r.id)
                && a.entry.hash == r.hash && a.entry in LogOf(store.st.logs, project)
  {
    hide Recounts, BatchHolds, OwnBatches, Submissions, After,
         LogsGrow, StateOk, WorldOk, Replay, OwnStep, ContentFor, HeldInput,
         OneRound, OwnFailures, ForeignAppends;
    lost := 0;
    ghost var past, logs := store.events, store.st.logs;
    NothingLost(store.w, store.origin, past, []);
    GrowsFromItself(store.st);
    while true
      invariant store.Valid() && past <= store.events && lost < CHAIN_WRITE_ATTEMPTS
      invariant LogsGrow(logs, store.st.logs)
      invariant Lost(past, store.events, [], lost)
      invariant lost <= Appends(store, past, project) && Failures(store, past) == 0
      decreases CHAIN_WRITE_ATTEMPTS - lost
    {
      ghost var events1, logs1 := store.events, store.st.logs;
      var outcome, a, submittedAt := Attempt(store, project, [], entry, clock(lost));
      LogsGrowTransitive(logs1, submittedAt.logs, store.st.logs);
      LogsGrowTransitive(logs, logs1, store.st.logs);
      if outcome.Applied? {
        RoundAdds(past, events1, store.events, Own([], a));
        ContentRecounts(entry, clock(lost), a.entry.content.id);
        CountsGrow(store.w, store.origin, events1, store.events, |past|, project);
        return Recorded(a.entry.content.id, a.entry.hash), lost;
      }
      OneMoreLost(past, events1, store.events, [], a, lost);
      RoundIsPaid(store.w, store.origin, events1, store.events, [], a, |past|, project);
      RoundFails(store.w, store.origin, events1, store.events, Refused([], a), |past|);
      lost := lost + 1;
      if !ChainBackoff(lost - 1) { return Contention, lost; }
    }
  }

  // ---- transactWithAudit -----------------------------------------------------------------------

  /** JavaScript's ===, on attribute values: objects and arrays read from a store are never identical. */
  predicate Identical(a: Option<Json>, b: Option<Json>) {
    a == b && (a.Some? ==> !a.value.Arr? && !a.value.Obj?)
  }

  /** What the diagnosis asks of one write against one read of its row. */
  predicate LooksFailed(row: Option<Item>, w: RowWrite) {
    || (w.Put? && w.ifNotExists && row.Some?)
    || (w.ifEquals.Some? && (row.None? || !Identical(Attr(row.value, w.ifEquals.value.attr), w.ifEquals.value.value)))
  }

  predicate CompositeGuard(w: RowWrite) {
    w.ifEquals.Some? && w.ifEquals.value.value.Some?
    && (w.ifEquals.value.value.value.Arr? || w.ifEquals.value.value.value.Obj?)
  }

  predicate Conditional(w: RowWrite) { (w.Put? && w.ifNotExists) || w.ifEquals.Some? }

  /** Attributes and guards carry stored values: undefined is never one of them. */
  predicate Stored(db: Db, w: RowWrite) {
    && (w.ifEquals.Some? && w.ifEquals.value.value.Some? ==> w.ifEquals.value.value.value != Undefined)
    && (w.key in db.rows ==> Undefined !in db.rows[w.key].Values)
  }

  /**
   * The diagnosis agrees with the condition the store itself checked, except in one family:
   * a guard on an object or an array that holds is reported as failed.
   */
  lemma DiagnosisExact(db: Db, w: RowWrite)
    requires Stored(db, w)
    ensures (LooksFailed(RowOf(db, w.key), w) <==> !WriteHolds(db, w))
            <==> !(CompositeGuard(w) && WriteHolds(db, w))
  {
    if w.ifEquals.Some? && w.key in db.rows {
      var row, g := db.rows[w.key], w.ifEquals.value;
      assert g.attr in row ==> row[g.attr] in row.Values;
    }
  }

  /** Write `i` is the first whose condition looks false. */
  predicate FirstFailed(db: Db, ws: seq<RowWrite>, i: nat) {
    && i < |ws| && LooksFailed(RowOf(db, ws[i].key), ws[i])
    && forall k :: 0 <= k < i ==> !LooksFailed(RowOf(db, ws[k].key), ws[k])
  }

  lemma UnconditionalNeverLooksFailed(row: Option<Item>, w: RowWrite)
    requires !Conditional(w)
    ensures !LooksFailed(row, w)
  {
  }

  /** After event `k` the diagnosis finds the condition of `r` false. */
  predicate LooksFailedAt(w: World, st: State, events: seq<Event>, k: nat, r: RowWrite)
    requires k <= |events|
  {
    LooksFailed(RowOf(StateAt(w, st, events, k).db, r.key), r)
  }

  /** In some state since event `from` the condition of `r` looked false; in some, it looked true. */
  ghost predicate SeenFailed(w: World, st: State, events: seq<Event>, from: nat, r: RowWrite) {
    exists k: nat :: from <= k <= |events| && LooksFailedAt(w, st, events, k, r)
  }

  ghost predicate SeenHolding(w: World, st: State, events: seq<Event>, from: nat, r: RowWrite) {
    exists k: nat :: from <= k <= |events| && !LooksFailedAt(w, st, events, k, r)
  }

  lemma SeenStands(w: World, st: State, events: seq<Event>, more: seq<Event>, from: nat, r: RowWrite)
    requires events <= more && SeenHolding(w, st, events, from, r)
    ensures SeenHolding(w, st, more, from, r)
  {
    hide LooksFailed, StateAt;
    var k: nat :| from <= k <= |events| && !LooksFailedAt(w, st, events, k, r);
    StateStands(w, st, events, more, k);
    assert !LooksFailedAt(w, st, more, k, r);
  }

  lemma SeenNow(w: World, st: State, events: seq<Event>, from: nat, r: RowWrite)
    requires from <= |events|
    ensures LooksFailed(RowOf(Replay(w, st, events).db, r.key), r) ==> SeenFailed(w, st, events, from, r)
    ensures !LooksFailed(RowOf(Replay(w, st, events).db, r.key), r) ==> SeenHolding(w, st, events, from, r)
  {
    hide LooksFailed;
    assert events[..|events|] == events;
    if LooksFailed(RowOf(Replay(w, st, events).db, r.key), r) {
      assert LooksFailedAt(w, st, events, |events|, r);
    } else {
      assert !LooksFailedAt(w, st, events, |events|, r);
    }
  }

  /** The walk got to write `i`, and every write before it was seen to hold. */
  ghost predicate HeldBefore(w: World, st: State, events: seq<Event>, from: nat, ws: seq<RowWrite>, i: nat)
    requires i <= |ws|
  {
    forall j :: 0 <= j < i ==> SeenHolding(w, st, events, from, ws[j])
  }

  /** The first of the caller's own conditions that a fresh read of its row finds false. */
  method FailedDomainCondition(store: SharedStore, ws: seq<RowWrite>) returns (failed: Option<RowWrite>)
    requires store.Valid()
    modifies store
    ensures store.Valid() && OnlyOthers(old(store.events), store.events)
    ensures LogsGrow(old(store.st.logs), store.st.logs)
    ensures failed.Some? ==>
              exists i: nat :: i < |ws| && ws[i] == failed.value && Conditional(ws[i])
                && SeenFailed(store.w, store.origin, store.events, |old(store.events)|, ws[i])
                && HeldBefore(store.w, store.origin, store.events, |old(store.events)|, ws, i)
    ensures failed.None? ==> HeldBefore(store.w, store.origin, store.events, |old(store.events)|, ws, |ws|)
  {
    hide StateOk, WorldOk, Replay, LogsGrow, LooksFailed, SeenHolding, SeenFailed;
    ghost var past, logs := store.events, store.st.logs;
    GrowsFromItself(store.st);
    for i := 0 to |ws|
      invariant store.Valid() && OnlyOthers(past, store.events) && LogsGrow(logs, store.st.logs)
      invariant HeldBefore(store.w, store.origin, store.events, |past|, ws, i)
    {
      var w := ws[i];
      if !Conditional(w) {
        UnconditionalNeverLooksFailed(RowOf(store.st.db, w.key), w);
        SeenNow(store.w, store.origin, store.events, |past|, w);
        continue;
      }
      ghost var events1, logs1 := store.events, store.st.logs;
      var row := store.Get(w.key);
      LogsGrowTransitive(logs, logs1, store.st.logs);
      HeldStands(store.w, store.origin, events1, store.events, |past|, ws, i);
      SeenNow(store.w, store.origin, store.events, |past|, w);
      if LooksFailed(row, w) { return Some(w); }
    }
    return None;
  }

  lemma HeldStands(w: World, st: State, events: seq<Event>, more: seq<Event>, from: nat, ws: seq<RowWrite>, i: nat)
    requires i <= |ws| && events <= more && HeldBefore(w, st, events, from, ws, i)
    ensures HeldBefore(w, st, more, from, ws, i)
  {
    forall j | 0 <= j < i ensures SeenHolding(w, st, more, from, ws[j]) {
      SeenStands(w, st, events, more, from, ws[j]);
    }
  }

  datatype AuditedResult =
    | Done(id: string, hash: string)
    | DomainConditionFailed(failed: RowWrite)
    | ChainContention
    | BadBatch

  predicate ValueGuarded(ws: seq<RowWrite>) { exists i :: 0 <= i < |ws| && ws[i].ifEquals.Some? }

  /** How much had happened when this caller's last batch was answered. */
  function LastSubmission(events: seq<Event>): nat {
    if events == [] then 0
    else if events[|events| - 1].Own? || events[|events| - 1].Refused? then |events|
    else LastSubmission(events[..|events| - 1])
  }

  lemma {:induction false} OthersKeepLast(middle: seq<Event>, now: seq<Event>)
    requires OnlyOthers(middle, now) && LastSubmission(middle) == |middle|
    ensures LastSubmission(now) == |middle|
  {
    if middle != now { OthersKeepLast(middle, now[..|now| - 1]); }
  }

  /** The caller's own conditions were true in every state since event `from`. */
  ghost predicate HeldThroughout(w: World, st: State, events: seq<Event>, from: nat, ws: seq<RowWrite>) {
    forall k: nat :: from <= k <= |events| ==> WritesHold(StateAt(w, st, events, k).db, ws)
  }

  lemma {:induction false} HeldNeverFails(w: World, st: State, events: seq<Event>, from: nat, ws: seq<RowWrite>)
    requires HeldThroughout(w, st, events, from, ws)
    requires forall k :: from <= k < |events| && events[k].Refused? ==> events[k].ws == ws
    ensures OwnFailures(w, st, events, from) == 0
  {
    hide Replay, WritesHold;
    if from < |events| {
      var front := events[..|events| - 1];
      forall k: nat | from <= k <= |front| ensures WritesHold(StateAt(w, st, front, k).db, ws) {
        StateStands(w, st, front, events, k);
      }
      HeldNeverFails(w, st, front, from, ws);
      assert WritesHold(StateAt(w, st, events, |events| - 1).db, ws);
    }
  }

  /** Without value guards, a write whose condition holds never looks failed. */
  lemma HeldNeverLooksFailed(w: World, st: State, events: seq<Event>, from: nat, late: nat, ws: seq<RowWrite>, i: nat)
    requires HeldThroughout(w, st, events, from, ws) && from <= late && i < |ws| && !ValueGuarded(ws)
    ensures !SeenFailed(w, st, events, late, ws[i])
  {
    hide StateAt;
    forall k: nat | late <= k <= |events| ensures !LooksFailedAt(w, st, events, k, ws[i]) {
      assert WritesHold(StateAt(w, st, events, k).db, ws);
      assert WriteHolds(StateAt(w, st, events, k).db, ws[i]);
    }
  }

  /** What the diagnosis finds when nothing came between the refusal and its reads. */
  lemma UndisturbedDiagnosis(w: World, st: State, events: seq<Event>, ws: seq<RowWrite>)
    ensures forall i: nat ::
              i < |ws| && SeenFailed(w, st, events, |events|, ws[i]) && HeldBefore(w, st, events, |events|, ws, i) ==>
                FirstFailed(Replay(w, st, events).db, ws, i)
    ensures HeldBefore(w, st, events, |events|, ws, |ws|) ==> WritesHold(Replay(w, st, events).db, ws)
  {
    hide Replay, LooksFailed, WriteHolds;
    assert events[..|events|] == events;
    if HeldBefore(w, st, events, |events|, ws, |ws|) {
      forall i | 0 <= i < |ws| ensures WriteHolds(Replay(w, st, events).db, ws[i]) {
        assert SeenHolding(w, st, events, |events|, ws[i]);
        LooksHeldIsHeld(Replay(w, st, events).db, ws[i]);
      }
    }
  }

  lemma LooksHeldIsHeld(db: Db, w: RowWrite)
    requires !LooksFailed(RowOf(db, w.key), w)
    ensures WriteHolds(db, w)
  {
  }

  /** The diagnosis named a condition it saw false after the last refusal, and those before it true. */
  ghost predicate Blames(w: World, st: State, events: seq<Event>, ws: seq<RowWrite>, failed: RowWrite) {
    exists i: nat :: i < |ws| && ws[i] == failed && Conditional(ws[i])
      && SeenFailed(w, st, events, LastSubmission(events), ws[i])
      && HeldBefore(w, st, events, LastSubmission(events), ws, i)
  }

  /** The diagnosis saw every condition true after the last refusal. */
  ghost predicate BlamesNone(w: World, st: State, events: seq<Event>, ws: seq<RowWrite>) {
    HeldBefore(w, st, events, LastSubmission(events), ws, |ws|)
  }

  datatype AuditRound = Landed(id: string, hash: string) | Unfit | Blamed(failed: RowWrite) | ChainMoved

  /** One round: submit, and after a refusal look for the caller's own condition that failed. */
  method SubmitAudited(store: SharedStore, project: string, ws: seq<RowWrite>, entry: AuditInput, at: string)
    returns (r: AuditRound, a: Append, ghost answered: seq<Event>)
    requires store.Valid() && HeldInput(entry)
    modifies store
    ensures store.Valid() && OnlyOthers(answered, store.events)
    ensures OneRound(old(store.events), answered, if r.Landed? then Own(ws, a) else Refused(ws, a))
    ensures r.Landed? ==>
              answered == store.events && a.key.project == project && a.entry.content == ContentFor(entry, at, r.id)
              && a.entry.hash == r.hash && a.entry in LogOf(store.st.logs, project)
    ensures r.Landed? ==>
              BatchLanded(StateAt(store.w, store.origin, answered, |answered| - 1).db.rows, ws, store.st.db.rows)
    ensures r.Unfit? <==> !Admissible(ws, true)
    ensures r.Unfit? ==> answered == store.events
    ensures !r.Landed? && !r.Unfit? && WritesHold(StateAt(store.w, store.origin, answered, |answered| - 1).db, ws) ==>
              |LogOf(StateAt(store.w, store.origin, answered, |answered| - 1).logs, project)|
              > |LogOf(old(store.st.logs), project)|
    ensures LastSubmission(store.events) == |answered|
    ensures r.Blamed? ==> Blames(store.w, store.origin, store.events, ws, r.failed)
    ensures r.ChainMoved? ==> BlamesNone(store.w, store.origin, store.events, ws)
  {
    hide BatchHolds, LogsGrow, StateOk, WorldOk, Replay, OwnStep, ContentFor, HeldInput, LooksFailed, WritesHold,
         SeenFailed, HeldBefore, Admissible, Conditional, NothingSubmitted, StateAt, BatchLanded;
    var outcome;
    ghost var submittedAt;
    outcome, a, submittedAt := Attempt(store, project, ws, entry, at);
    answered := store.events;
    OthersKeepLast(answered, answered);
    if outcome.SeamViolation? { return Unfit, a, answered; }
    if outcome.Applied? { return Landed(a.entry.content.id, a.entry.hash), a, answered; }
    var failed := FailedDomainCondition(store, ws);
    OthersKeepLast(answered, store.events);
    return if failed.Some? then Blamed(failed.value) else ChainMoved, a, answered;
  }

  lemma BlameIsTrue(w: World, st: State, events: seq<Event>, from: nat, ws: seq<RowWrite>, failed: RowWrite)
    requires Blames(w, st, events, ws, failed) && from <= LastSubmission(events)
    ensures LastSubmission(events) == |events| ==>
              exists i: nat :: FirstFailed(Replay(w, st, events).db, ws, i) && ws[i] == failed
    ensures !ValueGuarded(ws) ==> !HeldThroughout(w, st, events, from, ws)
  {
    hide SeenFailed, HeldBefore, Replay, HeldThroughout, LastSubmission, FirstFailed;
    var i: nat :| i < |ws| && ws[i] == failed && Conditional(ws[i])
      && SeenFailed(w, st, events, LastSubmission(events), ws[i])
      && HeldBefore(w, st, events, LastSubmission(events), ws, i);
    UndisturbedDiagnosis(w, st, events, ws);
    if !ValueGuarded(ws) && HeldThroughout(w, st, events, from, ws) {
      HeldNeverLooksFailed(w, st, events, from, LastSubmission(events), ws, i);
    }
  }

  lemma NothingBlamed(w: World, st: State, answered: seq<Event>, events: seq<Event>, ws: seq<RowWrite>)
    requires BlamesNone(w, st, events, ws) && OnlyOthers(answered, events) && LastSubmission(events) == |answered|
    requires answered != []
    ensures LastSubmission(events) == |events| ==> WritesHold(Replay(w, st, events).db, ws)
    ensures LastSubmission(events) == |events| && answered[|answered| - 1].Refused? ==>
              StateAt(w, st, answered, |answered| - 1) == Replay(w, st, events)
  {
    hide HeldBefore, LastSubmission, WritesHold;
    UndisturbedDiagnosis(w, st, events, ws);
    if |answered| == |events| {
      StateNext(w, st, answered, |answered| - 1);
      assert answered[..|answered|] == answered == events;
    }
  }

  lemma HeldIsPaidByOthers(w: World, st: State, past: seq<Event>, events: seq<Event>, ws: seq<RowWrite>, n: nat)
    requires Lost(past, events, ws, n) && HeldThroughout(w, st, events, |past|, ws)
    ensures OwnFailures(w, st, events, |past|) == 0
  {
    hide HeldThroughout;
    HeldNeverFails(w, st, events, |past|, ws);
  }

  /**
   * Domain writes and one audit entry, or neither. `lost` is the number of refused rounds.
   */
  method TransactWithAudit(store: SharedStore, project: string, ws: seq<RowWrite>, entry: AuditInput,
                           clock: nat -> string)
    returns (r: AuditedResult, lost: nat)
    requires store.Valid() && HeldInput(entry)
    modifies store
    ensures store.Valid() && old(store.events) <= store.events
    // all or nothing
    ensures r.Done? ==>
              exists a :: OwnBatches(Since(store, old(store.events))) == [Own(ws, a)]
                && a.key.project == project && Recounts(a.entry.content, entry, clock(lost), r.id)
                && a.entry.hash == r.hash && a.entry in LogOf(store.st.logs, project)
    ensures r.Done? ==>
              && |old(store.events)| < |store.events|
              && BatchLanded(During(store, |store.events| - 1).db.rows, ws, store.st.db.rows)
    ensures !r.Done? ==> OwnBatches(Since(store, old(store.events))) == []
    // what was sent out; a value-guarded batch is never sent out again
    ensures |Submissions(Since(store, old(store.events)))| == lost + (if r.Done? || r.BadBatch? then 1 else 0)
    ensures AllOf(Submissions(Since(store, old(store.events))), ws)
    ensures ValueGuarded(ws) ==> |Submissions(Since(store, old(store.events)))| <= 1
    ensures r.BadBatch? <==> |ws| > 98 || exists i, j :: 0 <= i < j < |ws| && ws[i].key == ws[j].key
    // every lost round is paid for
    ensures lost <= 8
    ensures lost <= Appends(store, old(store.events), project) + Failures(store, old(store.events))
    ensures r.ChainContention? ==> lost == if ValueGuarded(ws) then 1 else 8
    ensures !r.Done? && !r.BadBatch? && !ValueGuarded(ws)
            && HeldThroughout(store.w, store.origin, store.events, |old(store.events)|, ws) ==>
              r.ChainContention? && Appends(store, old(store.events), project) >= 8
    // the reported cause was seen after the last refusal
    ensures r.DomainConditionFailed? ==> Blames(store.w, store.origin, store.events, ws, r.failed)
    ensures r.ChainContention? ==> BlamesNone(store.w, store.origin, store.events, ws)
    // and is the true one when nothing came in between
    ensures r.DomainConditionFailed? && LastSubmission(store.events) == |store.events| ==>
              exists i: nat :: FirstFailed(store.st.db, ws, i) && ws[i] == r.failed
    ensures r.ChainContention? && LastSubmission(store.events) == |store.events| ==>
              WritesHold(store.st.db, ws) && Appends(store, old(store.events), project) > 0
  {
    hide BatchHolds, OwnBatches, Submissions, After, LogsGrow, StateOk, WorldOk, Replay, OwnStep, ContentFor, HeldInput,
         OneRound, OwnFailures, ForeignAppends, LooksFailed, WritesHold, FirstFailed, SeenFailed, HeldBefore,
         HeldThroughout, LastSubmission, Admissible, Conditional, Lost, Blames, BlamesNone, StateAt, AllOf,
         ValueGuarded, BatchLanded, Recounts;
    lost := 0;
    AdmissibleIff(ws);
    ghost var past := store.events;
    NothingLost(store.w, store.origin, past, ws);
    while true
      invariant store.Valid() && past <= store.events && lost < CHAIN_WRITE_ATTEMPTS
      invariant Lost(past, store.events, ws, lost)
      invariant lost <= Appends(store, past, project) + Failures(store, past)
      invariant ValueGuarded(ws) ==> lost == 0
      invariant lost > 0 ==> Admissible(ws, true)
      decreases CHAIN_WRITE_ATTEMPTS - lost
    {
      ghost var middle := store.events;
      var round, a;
      ghost var answered;
      round, a, answered := SubmitAudited(store, project, ws, entry, clock(lost));
      if round.Landed? || round.Unfit? {
        if round.Landed? { ContentRecounts(entry, clock(lost), round.id); }
        LastRound(store.w, store.origin, past, middle, answered, ws,
                  if round.Landed? then Own(ws, a) else Refused(ws, a), project, lost);
        return if round.Landed? then Done(round.id, round.hash) else BadBatch, lost;
      }
      LostRound(store.w, store.origin, past, middle, answered, store.events, ws, a, project, lost);
      lost := lost + 1;
      LostIsSent(past, store.events, ws, lost);
      if round.Blamed? {
        BlameIsTrue(store.w, store.origin, store.events, |past|, ws, round.failed);
        return DomainConditionFailed(round.failed), lost;
      }
      if ValueGuarded(ws) || !ChainBackoff(lost - 1) {
        NothingBlamed(store.w, store.origin, answered, store.events, ws);
        if HeldThroughout(store.w, store.origin, store.events, |past|, ws) {
          HeldIsPaidByOthers(store.w, store.origin, past, store.events, ws, lost);
        }
        return ChainContention, lost;
      }
    }
  }

}
