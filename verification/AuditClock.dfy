/**
 * What an append clock that never steps back guarantees: every id carries the instant its
 * entry is stamped with, so ids find their own month partition and chains visit the months
 * in order.
 */
module AuditClock {
  import opened Strings
  import opened AuditChain
  import opened Store
  import opened AuditProtocol
  import opened AuditReader
  import opened AuditPaging
  import Ulid

  function Max(a: int, b: int): int { if a < b then b else a }

  predicate FactoryId(id: string) { Ulid.WellFormed(id) && Ulid.Canonical(id) }

  /** The monotonic factory never goes back in time: its ids carry the later of seed and last id. */
  predicate Stamps(last: string, id: string, seed: int) {
    && FactoryId(id)
    && Ulid.TimeOf(id) == if FactoryId(last) then Max(seed, Ulid.TimeOf(last)) else Max(seed, 0)
  }

  /** A step of the protocol, with the clock reading before and after it. */
  ghost predicate ClockedNext(w: World, s: Sys, s': Sys, clock: nat, clock': nat) {
    || ((exists i, project, ws, input :: ReadsHead(s, s', i, project, ws, input)) && clock' == clock)
    || (exists i, at :: Prepares(w, s, s', i, at) && Stamps(s.lastUlid, s'.lastUlid, w.dateMs(at))
                        && clock <= w.dateMs(at) == clock')
    || ((exists i :: Commits(w, s, s', i)) && clock' == clock)
    || ((exists ws :: WritesRows(s, s', ws)) && clock' == clock)
  }

  ghost predicate ClockedRun(w: World, states: seq<Sys>, clocks: seq<nat>) {
    && |clocks| == |states| > 0 && Init(states[0]) && states[0].lastUlid == ""
    && forall k :: 0 <= k < |states| - 1 ==> ClockedNext(w, states[k], states[k + 1], clocks[k], clocks[k + 1])
  }

  /** An entry's id carries the instant it is stamped with. */
  predicate CarriesTime(w: World, id: string, at: string) {
    FactoryId(id) && Ulid.TimeOf(id) == w.dateMs(at)
  }

  ghost predicate ClockOk(w: World, s: Sys, clock: nat) {
    && (if s.lastUlid == "" then true else FactoryId(s.lastUlid) && Ulid.TimeOf(s.lastUlid) <= clock)
    && (forall i :: PhaseOf(s, i).Prepared? ==> CarriesTime(w, PhaseOf(s, i).id, PhaseOf(s, i).at))
    && (forall project, e :: e in LogOf(s.logs, project) ==> CarriesTime(w, e.content.id, e.content.at))
  }

  lemma ClockedStepKeeps(w: World, s: Sys, s': Sys, clock: nat, clock': nat)
    requires ClockOk(w, s, clock) && ClockedNext(w, s, s', clock, clock')
    ensures ClockOk(w, s', clock')
  {
    hide ReadsHead, Prepares, Commits, WritesRows, Stamps, ClockOk;
    if i, project, ws, input :| ReadsHead(s, s', i, project, ws, input) && clock' == clock {
      ReadKeepsClock(w, s, s', i, project, ws, input, clock);
    } else if i, at :| Prepares(w, s, s', i, at) && Stamps(s.lastUlid, s'.lastUlid, w.dateMs(at))
                       && clock <= w.dateMs(at) == clock' {
      PrepareKeepsClock(w, s, s', i, at, clock);
    } else if i :| Commits(w, s, s', i) && clock' == clock {
      CommitKeepsClock(w, s, s', i, clock);
    } else {
      var ws :| WritesRows(s, s', ws) && clock' == clock;
      RowsKeepClock(w, s, s', ws, clock);
    }
  }

  lemma ReadKeepsClock(w: World, s: Sys, s': Sys, i: nat, project: string, ws: seq<RowWrite>, input: AuditInput,
                       clock: nat)
    requires ClockOk(w, s, clock) && ReadsHead(s, s', i, project, ws, input)
    ensures ClockOk(w, s', clock)
  {
    hide CarriesTime, FactoryId;
    assert forall j :: PhaseOf(s', j).Prepared? ==> PhaseOf(s', j) == PhaseOf(s, j);
  }

  lemma PrepareKeepsClock(w: World, s: Sys, s': Sys, i: nat, at: string, clock: nat)
    requires ClockOk(w, s, clock) && Prepares(w, s, s', i, at)
    requires Stamps(s.lastUlid, s'.lastUlid, w.dateMs(at)) && clock <= w.dateMs(at)
    ensures ClockOk(w, s', w.dateMs(at))
  {
    hide CarriesTime, FactoryId;
    PrepareCarriesTime(w, s.lastUlid, s'.lastUlid, at, clock);
    assert forall j :: j != i ==> PhaseOf(s', j) == PhaseOf(s, j);
  }

  lemma CommitKeepsClock(w: World, s: Sys, s': Sys, i: nat, clock: nat)
    requires ClockOk(w, s, clock) && Commits(w, s, s', i)
    ensures ClockOk(w, s', clock)
  {
    hide CarriesTime, FactoryId, EntryHash, KeyFor, ApplyBatch, BatchHolds;
    assert forall j :: PhaseOf(s', j).Prepared? ==> PhaseOf(s', j) == PhaseOf(s, j);
    CommitCarriesTime(w, s, s', i);
  }

  lemma RowsKeepClock(w: World, s: Sys, s': Sys, ws: seq<RowWrite>, clock: nat)
    requires ClockOk(w, s, clock) && WritesRows(s, s', ws)
    ensures ClockOk(w, s', clock)
  {
    hide CarriesTime, FactoryId, ApplyBatch, BatchHolds;
    assert forall j :: PhaseOf(s', j) == PhaseOf(s, j);
  }

  lemma PrepareCarriesTime(w: World, last: string, id: string, at: string, clock: nat)
    requires last == "" || (FactoryId(last) && Ulid.TimeOf(last) <= clock)
    requires Stamps(last, id, w.dateMs(at)) && clock <= w.dateMs(at)
    ensures CarriesTime(w, id, at) && id != "" && FactoryId(id) && Ulid.TimeOf(id) == w.dateMs(at)
  {
  }

  lemma CommitCarriesTime(w: World, s: Sys, s': Sys, i: nat)
    requires Commits(w, s, s', i) && CarriesTime(w, PhaseOf(s, i).id, PhaseOf(s, i).at)
    requires forall project, e :: e in LogOf(s.logs, project) ==> CarriesTime(w, e.content.id, e.content.at)
    ensures forall project, e :: e in LogOf(s'.logs, project) ==> CarriesTime(w, e.content.id, e.content.at)
  {
    hide CarriesTime, EntryHash, KeyFor, BatchHolds, ApplyBatch;
    var p := PhaseOf(s, i);
    forall project, e | e in LogOf(s'.logs, project) ensures CarriesTime(w, e.content.id, e.content.at) {
      assert e in LogOf(s.logs, project) || e == AppendOf(w, p).entry;
    }
  }

  lemma {:induction false} ClockedRunKeeps(w: World, states: seq<Sys>, clocks: seq<nat>, k: nat)
    requires ClockedRun(w, states, clocks) && k < |states|
    ensures ClockOk(w, states[k], clocks[k])
  {
    hide ClockedNext;
    if k > 0 {
      hide ClockOk;
      ClockedRunKeeps(w, states, clocks, k - 1);
      ClockedStepKeeps(w, states[k - 1], states[k], clocks[k - 1], clocks[k]);
    }
  }

  lemma ClockedRunIsRun(w: World, states: seq<Sys>, clocks: seq<nat>)
    requires ClockedRun(w, states, clocks)
    ensures Run(w, states)
  {
    hide Init, ReadsHead, Prepares, Commits, WritesRows, Stamps;
    forall k | 0 <= k < |states| - 1 ensures Next(w, states[k], states[k + 1]) {
      assert ClockedNext(w, states[k], states[k + 1], clocks[k], clocks[k + 1]);
    }
  }

  /** An id decodes to the partition its entry lies in, and the chain visits months in order. */
  lemma StampedChainIsOrdered(w: World, log: seq<ChainEntry>)
    requires IdsIncrease(log) && forall s, t :: s <= t ==> w.month(s) <= w.month(t)
    requires forall e :: e in log ==> CarriesTime(w, e.content.id, e.content.at)
    ensures MonthsOrdered(w, log)
    ensures forall e :: e in log ==> MonthOfAuditId(w, e.content.id) == Some(MonthOf(w, e))
  {
    hide Less, Ulid.WellFormed, Ulid.Canonical, Ulid.TimeOf;
    forall i, j | 0 <= i <= j < |log| ensures MonthOf(w, log[i]) <= MonthOf(w, log[j]) {
      assert log[i] in log && log[j] in log;
      if i < j { Ulid.IdOrderIsTimeOrder(log[i].content.id, log[j].content.id); }
    }
  }

  /**
   * Main result: as long as the append clock never steps back, in every state of every run
   * each id is its own locator and a reader within the walk reads back exactly the chain.
   */
  lemma EveryRunReadsBack(w: World, states: seq<Sys>, clocks: seq<nat>, k: nat, project: string, now: int)
    requires WorldOk(w) && ClockedRun(w, states, clocks) && k < |states|
    requires forall s, t :: s <= t ==> w.month(s) <= w.month(t)
    requires WithinWalk(w, LogOf(states[k].logs, project), now)
    ensures Reachable(states[k].db, project, now) == LogOf(states[k].logs, project)
    ensures MonthsOrdered(w, LogOf(states[k].logs, project))
    ensures forall e :: e in LogOf(states[k].logs, project) ==> MonthOfAuditId(w, e.content.id) == Some(MonthOf(w, e))
  {
    hide ClockedRun, WithinWalk, MonthsOrdered, CarriesTime, Less, Linked, MonthOf;
    ClockedRunIsRun(w, states, clocks);
    RunKeeps(w, states, k);
    ClockedRunKeeps(w, states, clocks, k);
    var log := LogOf(states[k].logs, project);
    assert Holds(w, states[k].db, project, log);
    StampedChainIsOrdered(w, log);
    ReachableIsChain(w, states[k].db, project, log, now);
  }
}
