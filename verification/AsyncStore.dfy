/**
 * A store shared with other callers. Every call on it first lets the others run: `script`
 * lists, call by call, the atomic steps they complete just before that call takes effect.
 * A contract that holds for every script holds for every interleaving.
 */
module AsyncStore {
  import opened Strings
  import opened Json
  import opened AuditChain
  import opened Store
  import opened AuditProtocol

  datatype State = State(db: Db, logs: Logs, lastUlid: string)

  /** A step another caller completes: an id it mints, a batch of rows, or one that carries an audit append. */
  datatype Foreign =
    | Mints(at: string)
    | RowBatch(ws: seq<RowWrite>)
    | AuditedBatch(project: string, ws: seq<RowWrite>, input: AuditInput, at: string, id: string)

  /** What happened on the store. A batch of this caller is recorded as it was submitted, landed or refused. */
  datatype Event =
    | Other(step: Foreign)
    | Minted(at: string)
    | Own(ws: seq<RowWrite>, append: Append)
    | Refused(ws: seq<RowWrite>, append: Append)

  /** Another caller's append is on the head it finds, under an id newer than that head's. */
  predicate ForeignLands(w: World, st: State, f: Foreign) {
    match f
    case Mints(_) => true
    case RowBatch(ws) => BatchHolds(st.db, ws, None)
    case AuditedBatch(project, ws, input, at, id) =>
      && HeldInput(input)
      && (HeadOf(st.db, project).Some? ==> Less(HeadOf(st.db, project).value.lastUlid, id))
      && BatchHolds(st.db, ws, Some(RecordIn(w, project, HeadOf(st.db, project), input, at, id)))
  }

  function Logged(logs: Logs, project: string, e: ChainEntry): Logs { logs[project := LogOf(logs, project) + [e]] }

  function ForeignStep(w: World, st: State, f: Foreign): State {
    if !ForeignLands(w, st, f) then st
    else match f
      case Mints(at) => st.(lastUlid := w.mint(st.lastUlid, w.dateMs(at)))
      case RowBatch(ws) => st.(db := ApplyBatch(st.db, ws, None))
      case AuditedBatch(project, ws, input, at, id) =>
        var a := RecordIn(w, project, HeadOf(st.db, project), input, at, id);
        State(ApplyBatch(st.db, ws, Some(a)), Logged(st.logs, project, a.entry),
              if Less(st.lastUlid, id) then id else st.lastUlid)
  }

  function OwnStep(st: State, ws: seq<RowWrite>, a: Append): State {
    st.(db := ApplyBatch(st.db, ws, Some(a)), logs := Logged(st.logs, a.key.project, a.entry))
  }

  function Step(w: World, st: State, e: Event): State {
    match e
    case Other(f) => ForeignStep(w, st, f)
    case Minted(at) => st.(lastUlid := w.mint(st.lastUlid, w.dateMs(at)))
    case Own(ws, a) => if BatchHolds(st.db, ws, Some(a)) then OwnStep(st, ws, a) else st
    case Refused(_, _) => st
  }

  /** The state a history of events leads to: nothing else ever changed the store. */
  function Replay(w: World, st: State, events: seq<Event>): State {
    if events == [] then st else Step(w, Replay(w, st, events[..|events| - 1]), events[|events| - 1])
  }

  /** The state after the first `k` events. */
  function StateAt(w: World, st: State, events: seq<Event>, k: nat): State
    requires k <= |events|
  {
    Replay(w, st, events[..k])
  }

  lemma StateNext(w: World, st: State, events: seq<Event>, k: nat)
    requires k < |events|
    ensures StateAt(w, st, events, k + 1) == Step(w, StateAt(w, st, events, k), events[k])
  {
    assert events[..k + 1][..k] == events[..k];
  }

  lemma StateStands(w: World, st: State, events: seq<Event>, more: seq<Event>, k: nat)
    requires events <= more && k <= |events|
    ensures StateAt(w, st, more, k) == StateAt(w, st, events, k)
  {
    assert more[..k] == events[..k];
  }

  /** From `past` on, only others did anything. */
  ghost predicate OnlyOthers(past: seq<Event>, now: seq<Event>) {
    past <= now && forall k :: |past| <= k < |now| ==> now[k].Other?
  }

  /** Others did what they did, and then `e` happened. */
  ghost predicate OthersThen(past: seq<Event>, now: seq<Event>, e: Event) {
    now != [] && OnlyOthers(past, now[..|now| - 1]) && now[|now| - 1] == e
  }

  ghost predicate StateOk(w: World, st: State) { Consistent(w, st.db, st.logs, st.lastUlid) }

  ghost predicate LogsGrow(logs: Logs, logs': Logs) {
    forall project :: LogOf(logs, project) <= LogOf(logs', project)
  }

  lemma ReplayOne(w: World, st: State, events: seq<Event>, e: Event)
    ensures Replay(w, st, events + [e]) == Step(w, Replay(w, st, events), e)
  {
    assert (events + [e])[..|events|] == events;
  }

  lemma HeadIdIsLast(w: World, st: State, project: string, id: string)
    requires StateOk(w, st)
    requires HeadOf(st.db, project).Some? ==> Less(HeadOf(st.db, project).value.lastUlid, id)
    ensures NewerThan(LogOf(st.logs, project), |LogOf(st.logs, project)|, id)
  {
    hide Linked;
    var log := LogOf(st.logs, project);
    assert Holds(w, st.db, project, log);
    forall k | 0 <= k < |log| ensures Less(log[k].content.id, id) {
      if k < |log| - 1 { LessTransitive(log[k].content.id, log[|log| - 1].content.id, id); }
    }
  }

  lemma ForeignStepKeeps(w: World, st: State, f: Foreign)
    requires WorldOk(w) && StateOk(w, st)
    ensures StateOk(w, ForeignStep(w, st, f)) && LogsGrow(st.logs, ForeignStep(w, st, f).logs)
    ensures AtMost(st.lastUlid, ForeignStep(w, st, f).lastUlid)
  {
    hide Consistent, RecordIn, ApplyBatch, Collisionless;
    if ForeignLands(w, st, f) {
      match f {
        case Mints(at) =>
          MintIncreases(w, st.lastUlid, w.dateMs(at));
          MintingKeepsConsistent(w, st.db, st.logs, st.lastUlid, w.mint(st.lastUlid, w.dateMs(at)));
        case RowBatch(ws) => RowsKeepConsistent(w, st.db, st.logs, st.lastUlid, ws);
        case AuditedBatch(project, ws, input, at, id) =>
          HeadIdIsLast(w, st, project, id);
          var last := if Less(st.lastUlid, id) then id else st.lastUlid;
          if Less(st.lastUlid, id) {
            MintingKeepsConsistent(w, st.db, st.logs, st.lastUlid, id);
          } else {
            LessTotal(st.lastUlid, id);
          }
          CommittedIsConsistent(w, st.db, st.logs, last, project, ws, input, at, id);
      }
    }
  }

  /** A committed step of the protocol, seen by everybody else, is one of these foreign steps. */
  lemma CommitIsForeignStep(w: World, s: Sys, s': Sys, i: nat)
    requires WorldOk(w) && SysOk(w, s) && Commits(w, s, s', i)
    ensures var p := PhaseOf(s, i);
            State(s'.db, s'.logs, s'.lastUlid)
            == if BatchHolds(s.db, p.ws, Some(AppendOf(w, p)))
               then ForeignStep(w, State(s.db, s.logs, s.lastUlid), AuditedBatch(p.project, p.ws, p.input, p.at, p.id))
               else State(s.db, s.logs, s.lastUlid)
  {
    hide Consistent, ApplyBatch, AppendHolds;
    var p := PhaseOf(s, i);
    assert PhaseOk(w, s, p);
    if BatchHolds(s.db, p.ws, Some(AppendOf(w, p))) {
      CommitIsAtomicAppend(w, s, i);
      if p.id != s.lastUlid { LessAsymmetric(p.id, s.lastUlid); } else { LessIrreflexive(p.id); }
      NewerThanHead(w, s, p.project, p.id);
    }
  }

  lemma NewerThanHead(w: World, s: Sys, project: string, id: string)
    requires Consistent(w, s.db, s.logs, s.lastUlid)
    requires NewerThan(LogOf(s.logs, project), |LogOf(s.logs, project)|, id)
    ensures HeadOf(s.db, project).Some? ==> Less(HeadOf(s.db, project).value.lastUlid, id)
  {
    hide Linked;
    assert Holds(w, s.db, project, LogOf(s.logs, project));
  }

  /** An append prepared from a head that was read when the chain was `n` long. */
  ghost predicate Ready(w: World, st: State, a: Append, n: nat, input: AuditInput, at: string) {
    && HeldInput(input) && AtMost(a.entry.content.id, st.lastUlid)
    && a == RecordIn(w, a.key.project, a.expected, input, at, a.entry.content.id)
    && WasHead(LogOf(st.logs, a.key.project), a.expected, n)
    && NewerThan(LogOf(st.logs, a.key.project), n, a.entry.content.id)
  }

  lemma ReadyStays(w: World, st: State, st': State, a: Append, n: nat, input: AuditInput, at: string)
    requires Ready(w, st, a, n, input, at) && LogsGrow(st.logs, st'.logs)
    requires AtMost(st.lastUlid, st'.lastUlid)
    ensures Ready(w, st', a, n, input, at)
  {
    hide RecordIn;
    var log, log' := LogOf(st.logs, a.key.project), LogOf(st'.logs, a.key.project);
    assert log <= log';
    assert log'[..n] == log[..n];
    var id := a.entry.content.id;
    if id != st.lastUlid && st.lastUlid != st'.lastUlid { LessTransitive(id, st.lastUlid, st'.lastUlid); }
  }

  /** If nobody appended to the project since the head was read, the append goes through. */
  lemma QuietHeadAccepts(w: World, st: State, a: Append, n: nat, input: AuditInput, at: string)
    requires StateOk(w, st) && Ready(w, st, a, n, input, at) && n == |LogOf(st.logs, a.key.project)|
    ensures AppendHolds(st.db, a)
  {
    hide Linked, EntryHash;
    var log := LogOf(st.logs, a.key.project);
    assert Holds(w, st.db, a.key.project, log);
    assert log[..n] == log;
    if a.key in st.db.audit {
      var i :| 0 <= i < |log| && log[i] == st.db.audit[a.key];
      LessAsymmetric(log[i].content.id, a.entry.content.id);
    }
  }

  lemma OwnStepKeeps(w: World, st: State, ws: seq<RowWrite>, a: Append, n: nat, input: AuditInput, at: string)
    requires WorldOk(w) && StateOk(w, st) && Ready(w, st, a, n, input, at) && AppendHolds(st.db, a)
    ensures StateOk(w, OwnStep(st, ws, a)) && LogsGrow(st.logs, OwnStep(st, ws, a).logs)
    ensures n == |LogOf(st.logs, a.key.project)|
  {
    hide Holds, EntryHash;
    ReadHeadIsCurrent(w, st.db, a.key.project, LogOf(st.logs, a.key.project), a, n);
    CommittedIsConsistent(w, st.db, st.logs, st.lastUlid, a.key.project, ws, input, at, a.entry.content.id);
  }

  lemma LogsGrowTransitive(a: Logs, b: Logs, c: Logs)
    requires LogsGrow(a, b) && LogsGrow(b, c)
    ensures LogsGrow(a, c)
  {
    forall project ensures LogOf(a, project) <= LogOf(c, project) {
      assert LogOf(a, project) <= LogOf(b, project) && LogOf(b, project) <= LogOf(c, project);
    }
  }

  lemma GrowsFromItself(st: State)
    ensures LogsGrow(st.logs, st.logs) && AtMost(st.lastUlid, st.lastUlid)
  {
  }

  lemma AtMostTransitive(a: string, b: string, c: string)
    requires AtMost(a, b) && AtMost(b, c)
    ensures AtMost(a, c)
  {
    if a != b && b != c { LessTransitive(a, b, c); }
  }

  // ---- the store object ------------------------------------------------------------------------

  datatype Outcome = Applied | ConditionFailed | SeamViolation

  class SharedStore {
    const w: World
    var st: State
    var script: seq<seq<Foreign>>
    ghost const origin: State
    ghost var events: seq<Event>

    ghost predicate Valid()
      reads this
    {
      WorldOk(w) && StateOk(w, st) && st == Replay(w, origin, events)
    }

    constructor (w: World, st: State, script: seq<seq<Foreign>>)
      requires WorldOk(w) && StateOk(w, st)
      ensures Valid() && this.w == w && this.st == st && this.script == script && events == []
    {
      this.w, this.st, this.script, this.origin, this.events := w, st, script, st, [];
    }

    /** The others run until this caller's next call takes effect. */
    method Interfere()
      requires Valid()
      modifies this
      ensures Valid()
      ensures LogsGrow(old(st.logs), st.logs) && AtMost(old(st.lastUlid), st.lastUlid)
      ensures OnlyOthers(old(events), events)
      ensures events == old(events) ==> st == old(st)
      ensures script == if old(script) == [] then [] else old(script)[1..]
    {
      hide StateOk, LogsGrow, AtMost, ForeignLands, Replay, WorldOk;
      GrowsFromItself(st);
      if script == [] { return; }
      var steps := script[0];
      script := script[1..];
      for i := 0 to |steps|
        invariant Valid() && script == old(script)[1..]
        invariant LogsGrow(old(st.logs), st.logs) && AtMost(old(st.lastUlid), st.lastUlid)
        invariant OnlyOthers(old(events), events)
        invariant events == old(events) ==> st == old(st)
      {
        ghost var before := st;
        ForeignStepKeeps(w, st, steps[i]);
        ReplayOne(w, origin, events, Other(steps[i]));
        st := ForeignStep(w, st, steps[i]);
        events := events + [Other(steps[i])];
        LogsGrowTransitive(old(st.logs), before.logs, st.logs);
        AtMostTransitive(old(st.lastUlid), before.lastUlid, st.lastUlid);
      }
    }

    method GetHead(project: string) returns (head: Option<ChainHead>)
      requires Valid()
      modifies this
      ensures Valid() && head == HeadOf(st.db, project)
      ensures LogsGrow(old(st.logs), st.logs) && AtMost(old(st.lastUlid), st.lastUlid)
      ensures OnlyOthers(old(events), events)
      ensures events == old(events) ==> st == old(st)
    {
      Interfere();
      head := HeadOf(st.db, project);
    }

    method Get(key: Key) returns (row: Option<Item>)
      requires Valid()
      modifies this
      ensures Valid() && row == RowOf(st.db, key)
      ensures LogsGrow(old(st.logs), st.logs) && AtMost(old(st.lastUlid), st.lastUlid)
      ensures OnlyOthers(old(events), events)
      ensures events == old(events) ==> st == old(st)
    {
      Interfere();
      row := RowOf(st.db, key);
    }

    /** The id factory; no other caller runs in between. */
    method Mint(at: string) returns (id: string)
      requires Valid()
      modifies this`st, this`events
      ensures Valid() && st.db == old(st.db) && st.logs == old(st.logs) && st.lastUlid == id
      ensures Less(old(st.lastUlid), id)
      ensures events == old(events) + [Minted(at)]
    {
      MintIncreases(w, st.lastUlid, w.dateMs(at));
      id := w.mint(st.lastUlid, w.dateMs(at));
      MintingKeepsConsistent(w, st.db, st.logs, st.lastUlid, id);
      ReplayOne(w, origin, events, Minted(at));
      st := st.(lastUlid := id);
      events := events + [Minted(at)];
    }

    /** One batch with its audit append: checked and applied in one step, or refused whole. */
    method Transact(ws: seq<RowWrite>, a: Append, ghost n: nat, ghost input: AuditInput, ghost at: string)
      returns (r: Outcome, ghost submittedAt: State)
      requires Valid() && Ready(w, st, a, n, input, at)
      modifies this
      ensures Valid() && StateOk(w, submittedAt)
      ensures LogsGrow(old(st.logs), submittedAt.logs) && LogsGrow(submittedAt.logs, st.logs)
      ensures AtMost(old(st.lastUlid), st.lastUlid)
      ensures r == (if !Admissible(ws, true) then SeamViolation
                    else if BatchHolds(submittedAt.db, ws, Some(a)) then Applied else ConditionFailed)
      ensures st == if r.Applied? then OwnStep(submittedAt, ws, a) else submittedAt
      ensures r.Applied? ==> n == |LogOf(submittedAt.logs, a.key.project)|
      ensures r.Applied? ==> BatchLanded(submittedAt.db.rows, ws, st.db.rows)
      ensures r.ConditionFailed? && n == |LogOf(submittedAt.logs, a.key.project)| ==> !WritesHold(submittedAt.db, ws)
      ensures OthersThen(old(events), events, if r.Applied? then Own(ws, a) else Refused(ws, a))
      ensures submittedAt == StateAt(w, origin, events, |events| - 1)
    {
      hide Holds, EntryHash, BatchHolds, StateOk, WorldOk, Ready, LogsGrow, AtMost, Replay, OwnStep, Admissible,
           WritesHold, AppendHolds, BatchLanded;
      Interfere();
      submittedAt := st;
      ReadyStays(w, old(st), st, a, n, input, at);
      GrowsFromItself(st);
      RefusalIsExplained(w, st, ws, a, n, input, at);
      if !Admissible(ws, true) || !BatchHolds(st.db, ws, Some(a)) {
        r := if !Admissible(ws, true) then SeamViolation else ConditionFailed;
        ReplayOne(w, origin, events, Refused(ws, a));
        events := events + [Refused(ws, a)];
      } else {
        r := Applied;
        LandingKeeps(w, st, ws, a, n, input, at);
        AcceptedLands(st.db, ws, Some(a));
        OwnStepRows(st, ws, a);
        ReplayOne(w, origin, events, Own(ws, a));
        st := OwnStep(st, ws, a);
        events := events + [Own(ws, a)];
      }
      assert events[..|events| - 1] + [events[|events| - 1]] == events;
    }
  }

  /** A batch that met the chain its append was made for was refused for a condition of its own. */
  lemma RefusalIsExplained(w: World, st: State, ws: seq<RowWrite>, a: Append, n: nat, input: AuditInput, at: string)
    requires StateOk(w, st) && Ready(w, st, a, n, input, at)
    ensures n == |LogOf(st.logs, a.key.project)| && !BatchHolds(st.db, ws, Some(a)) ==> !WritesHold(st.db, ws)
  {
    hide StateOk, Ready, AppendHolds, WritesHold;
    if n == |LogOf(st.logs, a.key.project)| { QuietHeadAccepts(w, st, a, n, input, at); }
  }

  lemma OwnStepRows(st: State, ws: seq<RowWrite>, a: Append)
    ensures OwnStep(st, ws, a).db.rows == ApplyBatch(st.db, ws, Some(a)).rows
  {
  }

  lemma LandingKeeps(w: World, st: State, ws: seq<RowWrite>, a: Append, n: nat, input: AuditInput, at: string)
    requires WorldOk(w) && StateOk(w, st) && Ready(w, st, a, n, input, at) && BatchHolds(st.db, ws, Some(a))
    ensures StateOk(w, OwnStep(st, ws, a)) && LogsGrow(st.logs, OwnStep(st, ws, a).logs)
    ensures OwnStep(st, ws, a).lastUlid == st.lastUlid && n == |LogOf(st.logs, a.key.project)|
  {
    hide StateOk, Ready, AppendHolds, WritesHold, ApplyBatch, WorldOk;
    OwnStepKeeps(w, st, ws, a, n, input, at);
  }
}
