/**
 * The per-project runner of proposal generation: one pass at a time, later reports collapse
 * into one queued version, and none that should be seen last is ever lost.
 */
module DriftRunner {
  import opened Strings

  /** `inFlight` is the version of the pass the draining loop is awaiting; a pass that rejects ends the loop. */
  datatype GenState = GenState(running: bool, queuedVersion: Option<int>, inFlight: Option<int>)

  const FORGOTTEN: GenState := GenState(false, None, None)

  // ---- one project's history ---------------------------------------------------------------------

  datatype Call = Scheduled(version: int) | PassDone | PassRejected

  /** The versions scheduled so far, and of these, by position, the ones a pass was started for. */
  datatype Trace = Trace(state: GenState, scheduled: seq<int>, started: seq<nat>)

  /** `scheduleDriftGeneration`: start a run, or queue behind the one in flight. */
  function Schedule(s: GenState, version: int): GenState {
    if s.running then s.(queuedVersion := Some(version)) else s.(running := true, inFlight := Some(version))
  }

  /** The loop after a pass: take what was queued, or stop. A rejected pass leaves the loop for good. */
  function Continue(s: GenState): GenState {
    if s.queuedVersion.Some? then s.(queuedVersion := None, inFlight := s.queuedVersion)
    else s.(running := false, inFlight := None)
  }

  /** What may happen next: a pass can only end while one is in flight. */
  predicate Enabled(t: Trace, c: Call) { c.Scheduled? || t.state.inFlight.Some? }

  function LastOf(scheduled: seq<int>): nat
    requires scheduled != []
  {
    |scheduled| - 1
  }

  function Next(t: Trace, c: Call): Trace
    requires Enabled(t, c)
  {
    match c
    case Scheduled(v) =>
      var all := t.scheduled + [v];
      Trace(Schedule(t.state, v), all, if t.state.running then t.started else t.started + [|all| - 1])
    case PassDone =>
      Trace(Continue(t.state), t.scheduled,
            if t.state.queuedVersion.Some? && t.scheduled != [] then t.started + [LastOf(t.scheduled)] else t.started)
    case PassRejected => t.(state := t.state.(inFlight := None))
  }

  predicate Increasing(ks: seq<nat>) { forall i, j :: 0 <= i < j < |ks| ==> ks[i] < ks[j] }

  /**
   * What every history of schedules and completions keeps: passes were started for an
   * ascending choice of the scheduled versions, a pass is in flight exactly while the runner
   * runs, and the newest version is the one queued, or else the one started last.
   */
  ghost predicate Good(t: Trace) {
    && Increasing(t.started) && (forall k :: 0 <= k < |t.started| ==> t.started[k] < |t.scheduled|)
    && (t.state.running <==> t.state.inFlight.Some?)
    && (t.scheduled == [] <==> t.started == [])
    && (t.state.inFlight.Some? ==> t.started != [] && t.state.inFlight.value == t.scheduled[t.started[|t.started| - 1]])
    && (t.state.queuedVersion.Some? ==>
          t.state.running && t.started[|t.started| - 1] < |t.scheduled| - 1
          && t.state.queuedVersion.value == t.scheduled[|t.scheduled| - 1])
    && (t.state.queuedVersion.None? && t.scheduled != [] ==> t.started[|t.started| - 1] == |t.scheduled| - 1)
  }

  const START: Trace := Trace(FORGOTTEN, [], [])

  function Run(calls: seq<Call>): Option<Trace> {
    if calls == [] then Some(START)
    else
      var t := Run(calls[..|calls| - 1]);
      if t.Some? && Enabled(t.value, calls[|calls| - 1]) then Some(Next(t.value, calls[|calls| - 1])) else None
  }

  lemma RunOne(calls: seq<Call>, c: Call)
    requires Run(calls).Some? && Enabled(Run(calls).value, c)
    ensures Run(calls + [c]) == Some(Next(Run(calls).value, c))
  {
    assert (calls + [c])[..|calls|] == calls;
  }

  lemma ScheduleKeepsGood(t: Trace, version: int)
    requires Good(t)
    ensures Good(Next(t, Scheduled(version)))
  {
    hide Increasing;
    if !t.state.running { IncreasingAppend(t.started, |t.scheduled|); }
    var t' := Next(t, Scheduled(version));
    assert forall k :: 0 <= k < |t.scheduled| ==> t'.scheduled[k] == t.scheduled[k];
  }

  lemma DoneKeepsGood(t: Trace)
    requires Good(t) && Enabled(t, PassDone)
    ensures Good(Next(t, PassDone))
  {
    hide Increasing;
    var last := |t.scheduled| - 1;
    if t.state.queuedVersion.Some? && t.scheduled != [] {
      IncreasingAppend(t.started, last);
      assert (t.started + [last])[|t.started|] == last;
      assert forall k :: 0 <= k < |t.started| ==> (t.started + [last])[k] == t.started[k];
    }
  }

  lemma IncreasingAppend(ks: seq<nat>, k: nat)
    requires Increasing(ks) && (ks != [] ==> ks[|ks| - 1] < k)
    ensures Increasing(ks + [k])
  {
  }

  lemma NextKeepsGood(t: Trace, c: Call)
    requires Good(t) && Enabled(t, c) && !c.PassRejected?
    ensures Good(Next(t, c))
  {
    hide Good, Next;
    if c.Scheduled? { ScheduleKeepsGood(t, c.version); } else { DoneKeepsGood(t); }
  }

  lemma {:induction false} RunIsGood(calls: seq<Call>)
    requires Run(calls).Some? && forall k :: 0 <= k < |calls| ==> !calls[k].PassRejected?
    ensures Good(Run(calls).value)
  {
    if calls != [] {
      hide Good, Next;
      RunIsGood(calls[..|calls| - 1]);
      NextKeepsGood(Run(calls[..|calls| - 1]).value, calls[|calls| - 1]);
    }
  }

  /**
   * Main result: over every sequence of schedules and completions, a runner that is idle has
   * processed the version scheduled last: no wake-up is lost.
   */
  lemma NoLostWakeUp(calls: seq<Call>)
    requires Run(calls).Some? && forall k :: 0 <= k < |calls| ==> !calls[k].PassRejected?
    ensures var t := Run(calls).value;
            && Increasing(t.started)
            && (!t.state.running && t.scheduled != [] ==>
                  t.started != [] && t.started[|t.started| - 1] == |t.scheduled| - 1)
  {
    RunIsGood(calls);
  }

  /** It hangs on passes not rejecting: after one that does, no version is ever processed again. */
  lemma {:induction false} RejectionStalls(calls: seq<Call>, more: seq<Call>)
    requires Run(calls).Some? && Run(calls).value.state.running && Run(calls).value.state.inFlight.None?
    requires Run(calls + more).Some?
    ensures Run(calls + more).value.started == Run(calls).value.started
    ensures Run(calls + more).value.state.running && Run(calls + more).value.state.inFlight.None?
    decreases |more|
  {
    if more == [] {
      assert calls + more == calls;
    } else {
      assert (calls + more)[..|calls + more| - 1] == calls + more[..|more| - 1];
      RejectionStalls(calls, more[..|more| - 1]);
    }
  }

  /** And a rejected pass always leaves the runner in that state. */
  lemma RejectionLeavesRunning(calls: seq<Call>)
    requires Run(calls).Some? && Run(calls).value.state.inFlight.Some?
    requires forall k :: 0 <= k < |calls| ==> !calls[k].PassRejected?
    ensures var after := calls + [PassRejected];
            Run(after).Some? && Run(after).value.state.running && Run(after).value.state.inFlight.None?
  {
    RunIsGood(calls);
    assert (calls + [PassRejected])[..|calls|] == calls;
  }

  // ---- the module state ---------------------------------------------------------------------------

  function CallsOf(calls: map<string, seq<Call>>, project: string): seq<Call> {
    if project in calls then calls[project] else []
  }

  function StateIn(genState: map<string, GenState>, project: string): GenState {
    if project in genState then genState[project] else FORGOTTEN
  }

  /** The runner's state for a project is what the calls made for it lead to. */
  predicate Agrees(genState: map<string, GenState>, calls: map<string, seq<Call>>, project: string) {
    var t := Run(CallsOf(calls, project));
    t.Some? && t.value.state == StateIn(genState, project)
  }

  ghost predicate AllAgree(genState: map<string, GenState>, calls: map<string, seq<Call>>) {
    forall project :: Agrees(genState, calls, project)
  }

  lemma CallAgrees(genState: map<string, GenState>, calls: map<string, seq<Call>>, project: string, c: Call)
    requires AllAgree(genState, calls)
    requires c.Scheduled? || StateIn(genState, project).inFlight.Some?
    ensures Run(CallsOf(calls, project)).Some?
    ensures var t := Run(CallsOf(calls, project)).value;
            && Enabled(t, c)
            && AllAgree(genState[project := Next(t, c).state], calls[project := CallsOf(calls, project) + [c]])
  {
    hide Run, Next;
    assert Agrees(genState, calls, project);
    var before := CallsOf(calls, project);
    RunOne(before, c);
    var genState' := genState[project := Next(Run(before).value, c).state];
    var calls' := calls[project := before + [c]];
    forall p ensures Agrees(genState', calls', p) {
      assert Agrees(genState, calls, p);
    }
  }

  /** The runner itself: every project's state, and what has been called for each. */
  class DriftGenerator {
    var genState: map<string, GenState>
    ghost var calls: map<string, seq<Call>>

    ghost predicate Valid()
      reads this
    {
      AllAgree(genState, calls)
    }

    constructor ()
      ensures Valid() && calls == map[] && genState == map[]
    {
      genState, calls := map[], map[];
    }

    /** Fire and forget: `starts` tells whether a pass begins at once. */
    method ScheduleDriftGeneration(project: string, reportVersion: int) returns (starts: bool)
      requires Valid()
      modifies this
      ensures Valid() && calls == old(calls)[project := CallsOf(old(calls), project) + [Scheduled(reportVersion)]]
      ensures starts <==> !StateIn(old(genState), project).running
      ensures forall other :: other != project ==> StateIn(genState, other) == StateIn(old(genState), other)
    {
      hide Run, Agrees;
      var state := if project in genState then genState[project] else FORGOTTEN;
      CallAgrees(genState, calls, project, Scheduled(reportVersion));
      assert state == Run(CallsOf(calls, project)).value.state by { StateIsRun(genState, calls, project); }
      calls := calls[project := CallsOf(calls, project) + [Scheduled(reportVersion)]];
      if state.running {
        genState := genState[project := state.(queuedVersion := Some(reportVersion))];
        return false;
      }
      genState := genState[project := state.(running := true, inFlight := Some(reportVersion))];
      return true;
    }

    /** The segment of the draining loop that runs when a pass has come back. */
    method PassReturned(project: string) returns (next: Option<int>)
      requires Valid() && StateIn(genState, project).inFlight.Some?
      modifies this
      ensures Valid() && calls == old(calls)[project := CallsOf(old(calls), project) + [PassDone]]
      ensures next == StateIn(old(genState), project).queuedVersion && StateIn(genState, project).queuedVersion == None
      ensures StateIn(genState, project).inFlight == next
      ensures next.None? ==> !StateIn(genState, project).running
      ensures forall other :: other != project ==> StateIn(genState, other) == StateIn(old(genState), other)
    {
      hide Run, Agrees;
      CallAgrees(genState, calls, project, PassDone);
      StateIsRun(genState, calls, project);
      calls := calls[project := CallsOf(calls, project) + [PassDone]];
      var state := genState[project];
      next := state.queuedVersion;
      state := state.(queuedVersion := None, inFlight := next);
      if next.None? { state := state.(running := false); }
      genState := genState[project := state];
    }
  }

  lemma StateIsRun(genState: map<string, GenState>, calls: map<string, seq<Call>>, project: string)
    requires AllAgree(genState, calls)
    ensures Run(CallsOf(calls, project)).Some? && StateIn(genState, project) == Run(CallsOf(calls, project)).value.state
  {
    assert Agrees(genState, calls, project);
  }
}
