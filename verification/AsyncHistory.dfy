/**
 * What the history of a shared store says about one of its callers: what it submitted, which
 * of its batches landed, and what every refused one is to be put down to.
 */
module AsyncHistory {
  import opened Strings
  import opened Json
  import opened AuditChain
  import opened Store
  import opened AuditProtocol
  import opened AsyncStore

  /** The batches this caller submitted, in order; those that were refused are left out if `landed`. */
  function Batches(events: seq<Event>, landed: bool): seq<Event> {
    if events == [] then []
    else
      var last := events[|events| - 1];
      Batches(events[..|events| - 1], landed) + (if last.Own? || (last.Refused? && !landed) then [last] else [])
  }

  /** The batches this caller got in. */
  function OwnBatches(events: seq<Event>): seq<Event> { Batches(events, true) }

  /** Every batch this caller sent out, whatever became of it. */
  function Submissions(events: seq<Event>): seq<Event> { Batches(events, false) }

  lemma {:induction false} BatchesAppend(a: seq<Event>, b: seq<Event>, landed: bool)
    ensures Batches(a + b, landed) == Batches(a, landed) + Batches(b, landed)
  {
    if b == [] {
      assert a + b == a;
    } else {
      assert (a + b)[..|a + b| - 1] == a + b[..|b| - 1];
      BatchesAppend(a, b[..|b| - 1], landed);
    }
  }

  lemma {:induction false} NoBatches(events: seq<Event>, landed: bool)
    requires forall k :: 0 <= k < |events| ==> events[k].Other? || events[k].Minted?
    ensures Batches(events, landed) == []
  {
    if events != [] { NoBatches(events[..|events| - 1], landed); }
  }

  /** From `past` on, this caller submitted nothing. */
  ghost predicate NothingSubmitted(past: seq<Event>, now: seq<Event>) {
    past <= now && forall k :: |past| <= k < |now| ==> now[k].Other? || now[k].Minted?
  }

  /** What happened since `past`. */
  function After(past: seq<Event>, now: seq<Event>): seq<Event>
    requires past <= now
  {
    now[|past|..]
  }

  lemma NothingAdds(past: seq<Event>, middle: seq<Event>, now: seq<Event>)
    requires past <= middle && NothingSubmitted(middle, now)
    ensures past <= now && OwnBatches(After(past, now)) == OwnBatches(After(past, middle))
    ensures Submissions(After(past, now)) == Submissions(After(past, middle))
  {
    var tail := now[|middle|..];
    assert now[|past|..] == middle[|past|..] + tail;
    BatchesAppend(middle[|past|..], tail, true);
    NoBatches(tail, true);
    BatchesAppend(middle[|past|..], tail, false);
    NoBatches(tail, false);
  }

  /** Nothing is submitted after `past`, and then `e`, a batch that lands or is refused. */
  ghost predicate OneRound(past: seq<Event>, now: seq<Event>, e: Event) {
    && now != [] && NothingSubmitted(past, now[..|now| - 1]) && now[|now| - 1] == e && (e.Own? || e.Refused?)
  }

  lemma RoundAdds(past: seq<Event>, middle: seq<Event>, now: seq<Event>, e: Event)
    requires past <= middle && OneRound(middle, now, e)
    ensures past <= middle < now
    ensures Submissions(After(past, now)) == Submissions(After(past, middle)) + [e]
    ensures OwnBatches(After(past, now)) == OwnBatches(After(past, middle)) + if e.Own? then [e] else []
  {
    var front := now[..|now| - 1];
    NothingAdds(past, middle, front);
    assert After(past, now)[..|After(past, now)| - 1] == After(past, front);
  }

  /**
   * How many of this caller's batches were refused, from event `from` on, while one of their
   * own conditions was false.
   */
  function OwnFailures(w: World, st: State, events: seq<Event>, from: nat): nat {
    if |events| <= from then 0
    else
      var front, last := events[..|events| - 1], events[|events| - 1];
      OwnFailures(w, st, front, from)
      + if last.Refused? && !WritesHold(Replay(w, st, front).db, last.ws) then 1 else 0
  }

  /** How many appends of others landed on the project's chain from event `from` on. */
  function ForeignAppends(w: World, st: State, events: seq<Event>, from: nat, project: string): nat {
    if |events| <= from then 0
    else
      var front, last := events[..|events| - 1], events[|events| - 1];
      ForeignAppends(w, st, front, from, project)
      + if last.Other? && AppendsTo(w, Replay(w, st, front), last.step, project) then 1 else 0
  }

  predicate AppendsTo(w: World, st: State, f: Foreign, project: string) {
    f.AuditedBatch? && f.project == project && ForeignLands(w, st, f)
  }

  lemma {:induction false} NothingFails(w: World, st: State, middle: seq<Event>, now: seq<Event>, from: nat)
    requires NothingSubmitted(middle, now) && from <= |middle|
    ensures OwnFailures(w, st, now, from) == OwnFailures(w, st, middle, from)
  {
    hide Replay, WritesHold;
    if middle != now {
      NothingFails(w, st, middle, now[..|now| - 1], from);
    }
  }

  lemma RoundFails(w: World, st: State, middle: seq<Event>, now: seq<Event>, e: Event, from: nat)
    requires OneRound(middle, now, e) && from <= |middle|
    ensures OwnFailures(w, st, now, from)
            == OwnFailures(w, st, middle, from)
               + if e.Refused? && !WritesHold(StateAt(w, st, now, |now| - 1).db, e.ws) then 1 else 0
  {
    hide Replay, WritesHold;
    NothingFails(w, st, middle, now[..|now| - 1], from);
  }

  /** A chain grows by exactly the appends that land on it. */
  lemma {:induction false} GrowthIsAppends(w: World, st: State, events: seq<Event>, from: nat, project: string)
    requires from <= |events| && forall k :: from <= k < |events| ==> !events[k].Own?
    ensures |LogOf(Replay(w, st, events).logs, project)|
            == |LogOf(StateAt(w, st, events, from).logs, project)| + ForeignAppends(w, st, events, from, project)
  {
    if from == |events| {
      assert events[..from] == events;
    } else {
      var front := events[..|events| - 1];
      GrowthIsAppends(w, st, front, from, project);
      assert front[..from] == events[..from];
      hide Replay, RecordIn, ApplyBatch, ForeignLands;
      StepGrows(w, Replay(w, st, front), events[|events| - 1], project);
      StateNext(w, st, events, |events| - 1);
      assert events[..|events|] == events;
    }
  }

  lemma StepGrows(w: World, st: State, e: Event, project: string)
    requires !e.Own?
    ensures |LogOf(Step(w, st, e).logs, project)|
            == |LogOf(st.logs, project)| + if e.Other? && AppendsTo(w, st, e.step, project) then 1 else 0
  {
    hide RecordIn, ApplyBatch, ForeignLands;
  }

  /** What happened on the store since `past`. */
  ghost function Since(store: SharedStore, past: seq<Event>): seq<Event>
    requires past <= store.events
    reads store
  {
    After(past, store.events)
  }

  ghost function Failures(store: SharedStore, past: seq<Event>): nat
    reads store
  {
    OwnFailures(store.w, store.origin, store.events, |past|)
  }

  ghost function Appends(store: SharedStore, past: seq<Event>, project: string): nat
    reads store
  {
    ForeignAppends(store.w, store.origin, store.events, |past|, project)
  }

  /** The state of the store after its first `k` events. */
  ghost function During(store: SharedStore, k: nat): State
    requires k <= |store.events|
    reads store
  {
    StateAt(store.w, store.origin, store.events, k)
  }

  // ---- lost rounds -------------------------------------------------------------------------------------

  /** Since `past` this caller has submitted just `n` batches of `ws`, and all were refused. */
  ghost predicate Lost(past: seq<Event>, now: seq<Event>, ws: seq<RowWrite>, n: nat) {
    && past <= now && OwnBatches(After(past, now)) == []
    && |Submissions(After(past, now))| == n
    && (forall i :: 0 <= i < n ==>
          Submissions(After(past, now))[i].Refused? && Submissions(After(past, now))[i].ws == ws)
    && forall k :: |past| <= k < |now| ==> !now[k].Own? && (now[k].Refused? ==> now[k].ws == ws)
  }

  lemma NothingLost(w: World, st: State, past: seq<Event>, ws: seq<RowWrite>)
    ensures Lost(past, past, ws, 0) && OwnFailures(w, st, past, |past|) == 0
  {
  }

  lemma LostStands(past: seq<Event>, middle: seq<Event>, now: seq<Event>, ws: seq<RowWrite>, n: nat)
    requires Lost(past, middle, ws, n) && NothingSubmitted(middle, now)
    ensures Lost(past, now, ws, n)
  {
    hide OwnBatches, Submissions, After;
    NothingAdds(past, middle, now);
  }

  lemma OneMoreLost(past: seq<Event>, middle: seq<Event>, now: seq<Event>, ws: seq<RowWrite>, a: Append, n: nat)
    requires Lost(past, middle, ws, n) && OneRound(middle, now, Refused(ws, a))
    ensures Lost(past, now, ws, n + 1)
  {
    hide OwnBatches, Submissions, After;
    RoundAdds(past, middle, now, Refused(ws, a));
  }

  lemma {:induction false} CountsGrow(w: World, st: State, events: seq<Event>, more: seq<Event>, from: nat,
                                      project: string)
    requires events <= more
    ensures ForeignAppends(w, st, events, from, project) <= ForeignAppends(w, st, more, from, project)
    ensures OwnFailures(w, st, events, from) <= OwnFailures(w, st, more, from)
    decreases |more|
  {
    hide Replay, WritesHold, AppendsTo;
    if events != more {
      CountsGrow(w, st, events, more[..|more| - 1], from, project);
    }
  }

  /** Every lost round is paid for: by an append of somebody else, or by a condition of its own that was false. */
  lemma RoundIsPaid(w: World, st: State, middle: seq<Event>, now: seq<Event>, ws: seq<RowWrite>, a: Append,
                    from: nat, project: string)
    requires OneRound(middle, now, Refused(ws, a)) && from <= |middle|
    requires forall k :: from <= k < |middle| ==> !middle[k].Own?
    requires WritesHold(StateAt(w, st, now, |now| - 1).db, ws) ==>
               |LogOf(StateAt(w, st, now, |now| - 1).logs, project)| > |LogOf(Replay(w, st, middle).logs, project)|
    ensures ForeignAppends(w, st, now, from, project) + OwnFailures(w, st, now, from)
            > ForeignAppends(w, st, middle, from, project) + OwnFailures(w, st, middle, from)
  {
    hide Replay, WritesHold;
    var front := now[..|now| - 1];
    RoundFails(w, st, middle, now, Refused(ws, a), from);
    CountsGrow(w, st, middle, now, from, project);
    GrowthIsAppends(w, st, middle, from, project);
    GrowthIsAppends(w, st, front, from, project);
    StateStands(w, st, middle, front, from);
  }

  predicate AllOf(batches: seq<Event>, ws: seq<RowWrite>) {
    forall i :: 0 <= i < |batches| ==> (batches[i].Own? || batches[i].Refused?) && batches[i].ws == ws
  }

  lemma LostIsSent(past: seq<Event>, now: seq<Event>, ws: seq<RowWrite>, n: nat)
    requires Lost(past, now, ws, n)
    ensures OwnBatches(After(past, now)) == [] && |Submissions(After(past, now))| == n
    ensures AllOf(Submissions(After(past, now)), ws)
  {
  }

  /** What the last round adds when its batch lands, or is refused as unfit. */
  lemma LastRound(w: World, st: State, past: seq<Event>, middle: seq<Event>, now: seq<Event>, ws: seq<RowWrite>,
                  e: Event, project: string, n: nat)
    requires Lost(past, middle, ws, n) && OneRound(middle, now, e) && e.ws == ws
    ensures past < now && OwnBatches(After(past, now)) == (if e.Own? then [e] else [])
    ensures |Submissions(After(past, now))| == n + 1 && AllOf(Submissions(After(past, now)), ws)
    ensures ForeignAppends(w, st, now, |past|, project) >= ForeignAppends(w, st, middle, |past|, project)
    ensures OwnFailures(w, st, now, |past|) >= OwnFailures(w, st, middle, |past|)
  {
    hide OwnBatches, Submissions, After;
    RoundAdds(past, middle, now, e);
    CountsGrow(w, st, middle, now, |past|, project);
  }

  /** What one more refused round adds to the history, as far as the contract looks at it. */
  lemma LostRound(w: World, st: State, past: seq<Event>, middle: seq<Event>, answered: seq<Event>, now: seq<Event>,
                  ws: seq<RowWrite>, a: Append, project: string, n: nat)
    requires Lost(past, middle, ws, n) && OneRound(middle, answered, Refused(ws, a)) && OnlyOthers(answered, now)
    requires WritesHold(StateAt(w, st, answered, |answered| - 1).db, ws) ==>
               |LogOf(StateAt(w, st, answered, |answered| - 1).logs, project)|
               > |LogOf(Replay(w, st, middle).logs, project)|
    ensures Lost(past, now, ws, n + 1) && past <= now
    ensures |past| < |answered| && answered[|answered| - 1].Refused?
    ensures ForeignAppends(w, st, now, |past|, project) + OwnFailures(w, st, now, |past|)
            > ForeignAppends(w, st, middle, |past|, project) + OwnFailures(w, st, middle, |past|)
    ensures WritesHold(StateAt(w, st, answered, |answered| - 1).db, ws) ==>
              ForeignAppends(w, st, now, |past|, project) > ForeignAppends(w, st, middle, |past|, project)
  {
    OneMoreLost(past, middle, answered, ws, a, n);
    LostStands(past, answered, now, ws, n + 1);
    RoundIsPaid(w, st, middle, answered, ws, a, |past|, project);
    RoundFails(w, st, middle, answered, Refused(ws, a), |past|);
    CountsGrow(w, st, answered, now, |past|, project);
  }
}
