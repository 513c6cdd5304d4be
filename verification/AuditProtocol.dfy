/**
 * Many writers on one store, step by step: read the head, prepare an append against what
 * was read, commit it in one conditional batch. Every interleaving keeps every chain.
 */
module AuditProtocol {
  import opened Strings
  import opened Json
  import opened AuditChain
  import opened Store

  datatype Phase =
    | Idle
    | HeadRead(project: string, head: Option<ChainHead>, ws: seq<RowWrite>, input: AuditInput)
    | Prepared(project: string, head: Option<ChainHead>, ws: seq<RowWrite>, input: AuditInput, at: string, id: string)

  datatype Sys = Sys(db: Db, logs: Logs, lastUlid: string, writers: map<nat, Phase>)

  function PhaseOf(s: Sys, i: nat): Phase { if i in s.writers then s.writers[i] else Idle }

  /** Writer `i` starts a round: it reads CHAINHEAD. */
  ghost predicate ReadsHead(s: Sys, s': Sys, i: nat, project: string, ws: seq<RowWrite>, input: AuditInput) {
    HeldInput(input) && s' == s.(writers := s.writers[i := HeadRead(project, HeadOf(s.db, project), ws, input)])
  }

  /** Writer `i` stamps its entry and mints its id. */
  ghost predicate Prepares(w: World, s: Sys, s': Sys, i: nat, at: string) {
    var p := PhaseOf(s, i);
    p.HeadRead? &&
    var id := w.mint(s.lastUlid, w.dateMs(at));
    s' == s.(lastUlid := id, writers := s.writers[i := Prepared(p.project, p.head, p.ws, p.input, at, id)])
  }

  /** The append a prepared writer submits. */
  function AppendOf(w: World, p: Phase): Append
    requires p.Prepared?
  {
    RecordIn(w, p.project, p.head, p.input, p.at, p.id)
  }

  /** Writer `i` submits its batch: everything lands, or nothing does. */
  ghost predicate Commits(w: World, s: Sys, s': Sys, i: nat) {
    var p := PhaseOf(s, i);
    p.Prepared? &&
    var a := AppendOf(w, p);
    var done := s.(writers := s.writers[i := Idle]);
    if BatchHolds(s.db, p.ws, Some(a))
    then s' == done.(db := ApplyBatch(s.db, p.ws, Some(a)),
                     logs := s.logs[p.project := LogOf(s.logs, p.project) + [a.entry]])
    else s' == done
  }

  /** Any caller writes rows without an audit entry. */
  ghost predicate WritesRows(s: Sys, s': Sys, ws: seq<RowWrite>) {
    s' == if BatchHolds(s.db, ws, None) then s.(db := ApplyBatch(s.db, ws, None)) else s
  }

  ghost predicate Next(w: World, s: Sys, s': Sys) {
    || (exists i, project, ws, input :: ReadsHead(s, s', i, project, ws, input))
    || (exists i, at :: Prepares(w, s, s', i, at))
    || (exists i :: Commits(w, s, s', i))
    || (exists ws :: WritesRows(s, s', ws))
  }

  ghost predicate Init(s: Sys) {
    s.db.heads == map[] && s.db.audit == map[] && s.logs == map[] && s.writers == map[]
  }

  ghost predicate Run(w: World, states: seq<Sys>) {
    && states != [] && Init(states[0])
    && forall k :: 0 <= k < |states| - 1 ==> Next(w, states[k], states[k + 1])
  }

  // ---- what every step keeps -----------------------------------------------------------------

  /** A head some writer read: the head of the chain as it stood `n` entries in. */
  ghost predicate WasHead(log: seq<ChainEntry>, head: Option<ChainHead>, n: nat) {
    n <= |log| && head == HeadFor(log[..n])
  }

  /** A prepared id is newer than everything in the chain the writer saw. */
  ghost predicate NewerThan(log: seq<ChainEntry>, n: nat, id: string) {
    n <= |log| && forall k :: 0 <= k < n ==> Less(log[k].content.id, id)
  }

  ghost predicate PhaseOk(w: World, s: Sys, p: Phase) {
    match p
    case Idle => true
    case HeadRead(project, head, _, input) =>
      HeldInput(input) && exists n: nat :: WasHead(LogOf(s.logs, project), head, n)
    case Prepared(project, head, _, input, _, id) =>
      HeldInput(input) && AtMost(id, s.lastUlid)
      && exists n: nat :: WasHead(LogOf(s.logs, project), head, n) && NewerThan(LogOf(s.logs, project), n, id)
  }

  ghost predicate SysOk(w: World, s: Sys) {
    && Consistent(w, s.db, s.logs, s.lastUlid)
    && forall i :: PhaseOk(w, s, PhaseOf(s, i))
  }

  lemma InitOk(w: World, s: Sys)
    requires Init(s)
    ensures SysOk(w, s)
  {
  }

  /** An append on the head the store holds, with an id newer than the chain, keeps the chain. */
  lemma AppendKeepsChain(w: World, db: Db, project: string, log: seq<ChainEntry>,
                         ws: seq<RowWrite>, input: AuditInput, at: string, id: string)
    requires Holds(w, db, project, log) && HeldInput(input)
    requires NewerThan(log, |log|, id)
    requires var a := RecordIn(w, project, HeadOf(db, project), input, at, id);
             a.key !in db.audit
    ensures var a := RecordIn(w, project, HeadOf(db, project), input, at, id);
            Holds(w, ApplyBatch(db, ws, Some(a)), project, log + [a.entry])
  {
    hide EntryHash, Linked, Less;
    var a := RecordIn(w, project, HeadOf(db, project), input, at, id);
    AppendLinks(w, log, a.entry);
    AppendKeepsRows(w, db, project, log, ws, a);
    assert HeldContent(a.entry.content);
    forall i, j | 0 <= i < j < |log + [a.entry]|
      ensures Less((log + [a.entry])[i].content.id, (log + [a.entry])[j].content.id)
    {
    }
  }

  lemma AppendLinks(w: World, log: seq<ChainEntry>, e: ChainEntry)
    requires Linked(w.sha, "", log)
    requires e.prevHash == Tip("", log) && e.hash == EntryHash(w.sha, Tip("", log), e.content)
    ensures Linked(w.sha, "", log + [e]) && Tip("", log + [e]) == e.hash
  {
    LinkedSplits(w.sha, "", log, [e]);
    assert [e][..0] == [];
    assert IntactAt(w.sha, Tip("", log), [e], 0);
  }

  lemma AppendKeepsRows(w: World, db: Db, project: string, log: seq<ChainEntry>, ws: seq<RowWrite>, a: Append)
    requires Holds(w, db, project, log) && a.key !in db.audit && a.key == KeyFor(w, project, a.entry.content)
    ensures var db', log' := ApplyBatch(db, ws, Some(a)), log + [a.entry];
            && (forall i :: 0 <= i < |log'| ==>
                  KeyFor(w, project, log'[i].content) in db'.audit
                  && db'.audit[KeyFor(w, project, log'[i].content)] == log'[i])
            && (forall k :: k in db'.audit && k.project == project ==>
                  db'.audit[k] in log' && k == KeyFor(w, project, db'.audit[k].content))
  {
    hide Linked, KeyFor, HeldEntries, IdsIncrease;
    var db', log' := ApplyBatch(db, ws, Some(a)), log + [a.entry];
    forall i | 0 <= i < |log'|
      ensures KeyFor(w, project, log'[i].content) in db'.audit
           && db'.audit[KeyFor(w, project, log'[i].content)] == log'[i]
    {
      if i < |log| { assert log'[i] == log[i]; }
    }
    forall k | k in db'.audit && k.project == project
      ensures db'.audit[k] in log' && k == KeyFor(w, project, db'.audit[k].content)
    {
      if k != a.key { assert db.audit[k] in log; }
    }
  }

  /** What happens in one project leaves the chain of another alone. */
  lemma OtherChainsStay(w: World, db: Db, other: string, log: seq<ChainEntry>, ws: seq<RowWrite>, a: Option<Append>)
    requires Holds(w, db, other, log) && (a.Some? ==> a.value.key.project != other)
    ensures Holds(w, ApplyBatch(db, ws, a), other, log)
  {
    hide Linked;
    var db' := ApplyBatch(db, ws, a);
    forall k | k in db'.audit && k.project == other
      ensures db'.audit[k] in log && k == KeyFor(w, other, db'.audit[k].content)
    {
      assert k in db.audit;
    }
  }

  /** No head hash repeats, so a head that still compares equal is the head that was read. */
  lemma ReadHeadIsCurrent(w: World, db: Db, project: string, log: seq<ChainEntry>, a: Append, n: nat)
    requires WorldOk(w) && Holds(w, db, project, log) && a.key.project == project
    requires WasHead(log, a.expected, n) && AppendHolds(db, a)
    ensures n == |log| && a.expected == HeadOf(db, project)
  {
    hide Linked, Collisionless;
    if log != [] && n > 0 {
      assert log[..|log|] == log;
      NoHeadRepeats(w.sha, log, n, |log|);
    }
    assert log[..|log|] == log;
  }

  /**
   * A batch that commits is an append on the current head, whatever happened since the
   * writer read it: the interleaved protocol refines one atomic append per commit.
   */
  lemma CommitIsAtomicAppend(w: World, s: Sys, i: nat)
    requires WorldOk(w) && SysOk(w, s)
    requires PhaseOf(s, i).Prepared? && BatchHolds(s.db, PhaseOf(s, i).ws, Some(AppendOf(w, PhaseOf(s, i))))
    ensures PhaseOf(s, i).head == HeadOf(s.db, PhaseOf(s, i).project)
    ensures NewerThan(LogOf(s.logs, PhaseOf(s, i).project), |LogOf(s.logs, PhaseOf(s, i).project)|, PhaseOf(s, i).id)
  {
    hide Holds;
    var p := PhaseOf(s, i);
    var log := LogOf(s.logs, p.project);
    assert PhaseOk(w, s, p);
    var n: nat :| WasHead(log, p.head, n) && NewerThan(log, n, p.id);
    ReadHeadIsCurrent(w, s.db, p.project, log, AppendOf(w, p), n);
  }

  lemma HeldPhaseStays(w: World, s: Sys, s': Sys, p: Phase)
    requires PhaseOk(w, s, p) && (s'.lastUlid == s.lastUlid || Less(s.lastUlid, s'.lastUlid))
    requires forall project :: LogOf(s.logs, project) <= LogOf(s'.logs, project)
    ensures PhaseOk(w, s', p)
  {
    if p.HeadRead? || p.Prepared? {
      var log, log' := LogOf(s.logs, p.project), LogOf(s'.logs, p.project);
      if p.Prepared? {
        if p.id != s.lastUlid && s.lastUlid != s'.lastUlid { LessTransitive(p.id, s.lastUlid, s'.lastUlid); }
        var n: nat :| WasHead(log, p.head, n) && NewerThan(log, n, p.id);
        assert log'[..n] == log[..n];
        assert WasHead(log', p.head, n) && NewerThan(log', n, p.id);
      } else {
        var n: nat :| WasHead(log, p.head, n);
        assert log'[..n] == log[..n];
        assert WasHead(log', p.head, n);
      }
    }
  }

  lemma CommitKeepsConsistent(w: World, s: Sys, s': Sys, i: nat)
    requires WorldOk(w) && SysOk(w, s) && Commits(w, s, s', i)
    ensures Consistent(w, s'.db, s'.logs, s'.lastUlid)
    ensures forall project :: LogOf(s.logs, project) <= LogOf(s'.logs, project)
  {
    hide Holds;
    var p := PhaseOf(s, i);
    var a := AppendOf(w, p);
    if BatchHolds(s.db, p.ws, Some(a)) {
      CommitIsAtomicAppend(w, s, i);
      assert PhaseOk(w, s, p);
      CommittedIsConsistent(w, s.db, s.logs, s.lastUlid, p.project, p.ws, p.input, p.at, p.id);
    }
  }

  lemma CommittedIsConsistent(w: World, db: Db, logs: Logs, last: string, project: string,
                              ws: seq<RowWrite>, input: AuditInput, at: string, id: string)
    requires Consistent(w, db, logs, last) && HeldInput(input) && AtMost(id, last)
    requires NewerThan(LogOf(logs, project), |LogOf(logs, project)|, id)
    requires RecordIn(w, project, HeadOf(db, project), input, at, id).key !in db.audit
    ensures var a := RecordIn(w, project, HeadOf(db, project), input, at, id);
            Consistent(w, ApplyBatch(db, ws, Some(a)), logs[project := LogOf(logs, project) + [a.entry]], last)
  {
    hide Holds, EntryHash;
    var a := RecordIn(w, project, HeadOf(db, project), input, at, id);
    var logs' := logs[project := LogOf(logs, project) + [a.entry]];
    AppendKeepsChain(w, db, project, LogOf(logs, project), ws, input, at, id);
    forall q ensures Holds(w, ApplyBatch(db, ws, Some(a)), q, LogOf(logs', q)) {
      assert Holds(w, db, q, LogOf(logs, q));
      if q != project { OtherChainsStay(w, db, q, LogOf(logs, q), ws, Some(a)); }
    }
  }

  lemma RowsKeepConsistent(w: World, db: Db, logs: Logs, last: string, ws: seq<RowWrite>)
    requires Consistent(w, db, logs, last)
    ensures Consistent(w, ApplyBatch(db, ws, None), logs, last)
  {
    hide Holds;
    forall q ensures Holds(w, ApplyBatch(db, ws, None), q, LogOf(logs, q)) {
      OtherChainsStay(w, db, q, LogOf(logs, q), ws, None);
    }
  }

  lemma MintingKeepsConsistent(w: World, db: Db, logs: Logs, last: string, id: string)
    requires Consistent(w, db, logs, last) && Less(last, id)
    ensures Consistent(w, db, logs, id)
  {
    hide Holds;
    forall k | k in db.audit ensures AtMost(k.id, id) {
      if k.id != last { LessTransitive(k.id, last, id); }
    }
  }

  /** A chain's ids are all at most the last one minted. */
  lemma ChainAtMost(w: World, db: Db, logs: Logs, last: string, project: string, k: nat)
    requires Consistent(w, db, logs, last) && k < |LogOf(logs, project)|
    ensures AtMost(LogOf(logs, project)[k].content.id, last)
  {
    hide Linked;
    assert Holds(w, db, project, LogOf(logs, project));
    var key := KeyFor(w, project, LogOf(logs, project)[k].content);
    assert key in db.audit;
  }

  lemma FreshIsNewer(w: World, s: Sys, project: string, n: nat, id: string)
    requires Consistent(w, s.db, s.logs, s.lastUlid) && Less(s.lastUlid, id)
    requires n <= |LogOf(s.logs, project)|
    ensures NewerThan(LogOf(s.logs, project), n, id)
  {
    hide Consistent;
    var log := LogOf(s.logs, project);
    forall k | 0 <= k < n ensures Less(log[k].content.id, id) {
      ChainAtMost(w, s.db, s.logs, s.lastUlid, project, k);
      if log[k].content.id != s.lastUlid { LessTransitive(log[k].content.id, s.lastUlid, id); }
    }
  }

  lemma ReadKeeps(w: World, s: Sys, s': Sys, i: nat, project: string, ws: seq<RowWrite>, input: AuditInput)
    requires SysOk(w, s) && ReadsHead(s, s', i, project, ws, input)
    ensures SysOk(w, s') && s'.logs == s.logs
  {
    hide Consistent;
    var log := LogOf(s.logs, project);
    assert WasHead(log, HeadOf(s.db, project), |log|) by { HeadIsWasHead(w, s, project); }
    forall j ensures PhaseOk(w, s', PhaseOf(s', j)) {
      if j != i { assert PhaseOk(w, s, PhaseOf(s, j)); }
    }
  }

  lemma HeadIsWasHead(w: World, s: Sys, project: string)
    requires Consistent(w, s.db, s.logs, s.lastUlid)
    ensures WasHead(LogOf(s.logs, project), HeadOf(s.db, project), |LogOf(s.logs, project)|)
  {
    hide Linked;
    var log := LogOf(s.logs, project);
    assert Holds(w, s.db, project, log);
    assert log[..|log|] == log;
  }

  lemma PrepareKeeps(w: World, s: Sys, s': Sys, i: nat, at: string)
    requires WorldOk(w) && SysOk(w, s) && Prepares(w, s, s', i, at)
    ensures SysOk(w, s') && s'.logs == s.logs
  {
    hide Consistent, Collisionless;
    var p := PhaseOf(s, i);
    var id := w.mint(s.lastUlid, w.dateMs(at));
    MintIncreases(w, s.lastUlid, w.dateMs(at));
    MintingKeepsConsistent(w, s.db, s.logs, s.lastUlid, id);
    forall j ensures PhaseOk(w, s', PhaseOf(s', j)) {
      assert PhaseOk(w, s, PhaseOf(s, j));
      HeldPhaseStays(w, s, s', PhaseOf(s, j));
      if j == i {
        var log := LogOf(s.logs, p.project);
        var n: nat :| WasHead(log, p.head, n);
        FreshIsNewer(w, s, p.project, n, id);
      }
    }
  }

  lemma CommitKeeps(w: World, s: Sys, s': Sys, i: nat)
    requires WorldOk(w) && SysOk(w, s) && Commits(w, s, s', i)
    ensures SysOk(w, s')
  {
    hide Consistent, WorldOk;
    CommitKeepsConsistent(w, s, s', i);
    forall j ensures PhaseOk(w, s', PhaseOf(s', j)) {
      assert PhaseOk(w, s, PhaseOf(s, j));
      HeldPhaseStays(w, s, s', PhaseOf(s, j));
    }
  }

  lemma StepKeeps(w: World, s: Sys, s': Sys)
    requires WorldOk(w) && SysOk(w, s) && Next(w, s, s')
    ensures SysOk(w, s') && forall project :: LogOf(s.logs, project) <= LogOf(s'.logs, project)
  {
    hide Consistent, WorldOk, ReadsHead, Prepares, Commits, WritesRows;
    if i, project, ws, input :| ReadsHead(s, s', i, project, ws, input) {
      ReadKeeps(w, s, s', i, project, ws, input);
    } else if i, at :| Prepares(w, s, s', i, at) {
      PrepareKeeps(w, s, s', i, at);
    } else if i :| Commits(w, s, s', i) {
      CommitKeeps(w, s, s', i);
      CommitKeepsConsistent(w, s, s', i);
    } else {
      var ws :| WritesRows(s, s', ws);
      RowsKeep(w, s, s', ws);
    }
  }

  lemma RowsKeep(w: World, s: Sys, s': Sys, ws: seq<RowWrite>)
    requires SysOk(w, s) && WritesRows(s, s', ws)
    ensures SysOk(w, s') && s'.logs == s.logs
  {
    hide Consistent;
    RowsKeepConsistent(w, s.db, s.logs, s.lastUlid, ws);
    forall j ensures PhaseOk(w, s', PhaseOf(s', j)) {
      assert PhaseOk(w, s, PhaseOf(s, j));
      HeldPhaseStays(w, s, s', PhaseOf(s, j));
    }
  }

  // ---- over every run ------------------------------------------------------------------------

  lemma {:induction false} RunKeeps(w: World, states: seq<Sys>, k: nat)
    requires WorldOk(w) && Run(w, states) && k < |states|
    ensures SysOk(w, states[k])
  {
    if k == 0 {
      InitOk(w, states[0]);
    } else {
      RunKeeps(w, states, k - 1);
      StepKeeps(w, states[k - 1], states[k]);
    }
  }

  /**
   * Main result: in every state of every run, what the store holds for a project verifies
   * clean against its CHAINHEAD, the head counts the stored entries, and ids increase.
   */
  lemma EveryRunVerifies(w: World, states: seq<Sys>, k: nat, project: string, v: Verdict)
    requires WorldOk(w) && Run(w, states) && k < |states|
    requires IsVerdict(w.sha, LogOf(states[k].logs, project), HeadHash(HeadOf(states[k].db, project)), v)
    ensures v == Intact(|LogOf(states[k].logs, project)|)
    ensures Holds(w, states[k].db, project, LogOf(states[k].logs, project))
  {
    hide SysOk, Run;
    RunKeeps(w, states, k);
    StoredVerifies(w, states[k], project, v);
  }

  lemma StoredVerifies(w: World, s: Sys, project: string, v: Verdict)
    requires SysOk(w, s) && IsVerdict(w.sha, LogOf(s.logs, project), HeadHash(HeadOf(s.db, project)), v)
    ensures v == Intact(|LogOf(s.logs, project)|) && Holds(w, s.db, project, LogOf(s.logs, project))
  {
    assert Holds(w, s.db, project, LogOf(s.logs, project));
  }

  /** The history is append-only over every run: no fork, no rewrite, no loss, in the log and in what is stored. */
  lemma {:induction false} HistoryOnlyGrows(w: World, states: seq<Sys>, j: nat, k: nat, project: string)
    requires WorldOk(w) && Run(w, states) && j <= k < |states|
    ensures LogOf(states[j].logs, project) <= LogOf(states[k].logs, project)
    ensures forall key :: key in states[j].db.audit && key.project == project ==>
              key in states[k].db.audit && states[k].db.audit[key] == states[j].db.audit[key]
  {
    hide SysOk, Next, Init, WorldOk;
    LogOnlyGrows(w, states, j, k, project);
    RunKeeps(w, states, j);
    RunKeeps(w, states, k);
    RowsStay(w, states[j], states[k], project);
  }

  lemma {:induction false} LogOnlyGrows(w: World, states: seq<Sys>, j: nat, k: nat, project: string)
    requires WorldOk(w) && Run(w, states) && j <= k < |states|
    ensures LogOf(states[j].logs, project) <= LogOf(states[k].logs, project)
    decreases k - j
  {
    hide SysOk, Next, Init, WorldOk;
    if j < k {
      LogOnlyGrows(w, states, j, k - 1, project);
      RunKeeps(w, states, k - 1);
      StepKeeps(w, states[k - 1], states[k]);
    }
  }

  lemma RowsStay(w: World, s: Sys, s': Sys, project: string)
    requires SysOk(w, s) && SysOk(w, s') && LogOf(s.logs, project) <= LogOf(s'.logs, project)
    ensures forall key :: key in s.db.audit && key.project == project ==>
              key in s'.db.audit && s'.db.audit[key] == s.db.audit[key]
  {
    hide Linked, KeyFor;
    var log, log' := LogOf(s.logs, project), LogOf(s'.logs, project);
    assert Holds(w, s.db, project, log) && Holds(w, s'.db, project, log');
    forall key | key in s.db.audit && key.project == project
      ensures key in s'.db.audit && s'.db.audit[key] == s.db.audit[key]
    {
      var i :| 0 <= i < |log| && log[i] == s.db.audit[key];
      assert log'[i] == log[i];
    }
  }
}
