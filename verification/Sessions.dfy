/**
 * Browser sessions over a shared store, as a state machine: one step per awaited store
 * call. Resolves in flight keep what they read, so a slide is only ever written by a
 * resolve whose reads passed every check.
 */
module Sessions {
  import opened Strings
  import opened Json
  import opened AuditChain
  import opened Store

  const IDLE_MS := 30 * 60 * 1000
  const SLIDE_GRANULARITY_MS := 60 * 1000

  /** A session row. `fields` holds what is neither identity nor lifetime: reauth stamp, enrolment offer. */
  datatype Session = Session(userId: string, issuedAt: int, lastSeenAt: int, absoluteExpiresAt: int,
                             sessionVersion: int, pending: bool, fields: Item)

  datatype Account = Account(active: bool, sessionVersion: int)

  datatype Fail = Invalid | Version | Expired | Idle | Totp

  /** What a session row and its account say about a request at `now`, before any write. */
  function Judge(session: Session, account: Option<Account>, now: int): Option<Fail> {
    if account.None? || !account.value.active then Some(Invalid)
    else if session.sessionVersion != account.value.sessionVersion then Some(Version)
    else if now > session.absoluteExpiresAt then Some(Expired)
    else if now - session.lastSeenAt > IDLE_MS then Some(Idle)
    else if session.pending then Some(Totp)
    else None
  }

  /** Whether a successful resolve writes the slid window back. */
  predicate Slides(session: Session, now: int) { now - session.lastSeenAt >= SLIDE_GRANULARITY_MS }

  /** Whose step it is: the caller under study, or one of the others. */
  datatype Caller = Me | Other(id: nat)

  /** How far a resolve in flight has come, and the row it read. */
  datatype Call =
    | RowRead(sha: string, now: int, row: Session)
    | Sliding(sha: string, now: int, row: Session)
    | SlideLost(sha: string, now: int, row: Session)

  /** `used` is every token hash a row was ever minted for. */
  datatype Sessions = Sessions(rows: map<string, Session>, accounts: map<string, Account>, used: set<string>,
                               calls: map<Caller, Call>)

  function SessionOf(st: Sessions, sha: string): Option<Session> {
    if sha in st.rows then Some(st.rows[sha]) else None
  }

  function AccountOf(st: Sessions, user: string): Option<Account> {
    if user in st.accounts then Some(st.accounts[user]) else None
  }

  function CallOf(st: Sessions, c: Caller): Option<Call> { if c in st.calls then Some(st.calls[c]) else None }

  // ---- atomic steps --------------------------------------------------------------------------------

  /** The first four are whole writes; the last four are the awaited calls of one resolve, in order. */
  datatype Action =
    | Mint(sha: string, session: Session)
    | SetFields(sha: string, guard: Guard, set_: Item, remove: set<string>)
    | Drop(sha: string)
    | SetAccount(user: string, account: Account)
    | Begin(sha: string, now: int)
    | Meet
    | Slide
    | Reread

  /** Token hashes are fresh: nobody mints one that was used. */
  predicate MintLands(st: Sessions, sha: string, s: Session) { sha !in st.used && s.lastSeenAt == s.issuedAt }

  predicate FieldsLand(st: Sessions, sha: string, guard: Guard) {
    sha in st.rows && GuardHolds(Some(st.rows[sha].fields), guard)
  }

  /** The caller has passed the checks and read its account; now its slide meets its guard. */
  predicate SlideLands(st: Sessions, c: Caller) {
    && c in st.calls && st.calls[c].Sliding? && st.calls[c].sha in st.rows
    && st.rows[st.calls[c].sha].lastSeenAt == st.calls[c].row.lastSeenAt
  }

  /** The account is read and everything is judged on what was read; a fresh enough window is not written. */
  function MeetAccount(st: Sessions, c: Caller): Sessions
    requires c in st.calls
  {
    var k := st.calls[c];
    if Judge(k.row, AccountOf(st, k.row.userId), k.now).None? && Slides(k.row, k.now)
    then st.(calls := st.calls[c := Sliding(k.sha, k.now, k.row)])
    else st.(calls := st.calls - {c})
  }

  function WriteSlide(st: Sessions, c: Caller): Sessions
    requires c in st.calls
  {
    var k := st.calls[c];
    if SlideLands(st, c)
    then st.(rows := st.rows[k.sha := st.rows[k.sha].(lastSeenAt := k.now)], calls := st.calls - {c})
    else st.(calls := st.calls[c := SlideLost(k.sha, k.now, k.row)])
  }

  function SetRow(st: Sessions, sha: string, set_: Item, remove: set<string>): Sessions
    requires sha in st.rows
  {
    st.(rows := st.rows[sha := st.rows[sha].(fields := (st.rows[sha].fields + set_) - remove)])
  }

  function Perform(st: Sessions, c: Caller, a: Action): Sessions {
    match a
    case Mint(sha, s) =>
      if MintLands(st, sha, s) then st.(rows := st.rows[sha := s], used := st.used + {sha}) else st
    case SetFields(sha, guard, s, remove) => if FieldsLand(st, sha, guard) then SetRow(st, sha, s, remove) else st
    case Drop(sha) => st.(rows := st.rows - {sha})
    case SetAccount(user, account) => st.(accounts := st.accounts[user := account])
    case Begin(sha, now) =>
      if sha in st.rows then st.(calls := st.calls[c := RowRead(sha, now, st.rows[sha])])
      else st.(calls := st.calls - {c})
    case Meet => if c in st.calls && st.calls[c].RowRead? then MeetAccount(st, c) else st
    case Slide => if c in st.calls && st.calls[c].Sliding? then WriteSlide(st, c) else st
    case Reread => if c in st.calls && st.calls[c].SlideLost? then st.(calls := st.calls - {c}) else st
  }

  /** The step at which a resolve of `sha` that began at `now` succeeds. */
  predicate Passes(st: Sessions, c: Caller, a: Action, sha: string, now: int) {
    && c in st.calls && st.calls[c].sha == sha && st.calls[c].now == now
    && var k := st.calls[c];
       match k
       case RowRead(_, _, row) => a.Meet? && Judge(row, AccountOf(st, row.userId), now).None? && !Slides(row, now)
       case Sliding(_, _, _) => a.Slide? && SlideLands(st, c)
       case SlideLost(_, _, _) => a.Reread? && sha in st.rows
  }

  datatype Step = Foreign(id: nat, action: Action) | Own(action: Action)

  function CallerOf(s: Step): Caller { if s.Foreign? then Other(s.id) else Me }

  function Replay(st: Sessions, steps: seq<Step>): Sessions {
    if steps == [] then st
    else
      var last := steps[|steps| - 1];
      Perform(Replay(st, steps[..|steps| - 1]), CallerOf(last), last.action)
  }

  lemma ReplayOne(st: Sessions, steps: seq<Step>, s: Step)
    ensures Replay(st, steps + [s]) == Perform(Replay(st, steps), CallerOf(s), s.action)
  {
    assert (steps + [s])[..|steps|] == steps;
  }

  // ---- what every step keeps -------------------------------------------------------------------------

  /** A session that was minted and is gone. */
  predicate Dead(st: Sessions, sha: string) { sha in st.used && sha !in st.rows }

  predicate SameSession(a: Session, b: Session) { b == a.(lastSeenAt := b.lastSeenAt, fields := b.fields) }

  /** What is stored moves on by a slide: by a granularity at least, by the idle limit at most. */
  predicate MovesOn(a: Session, b: Session) {
    SameSession(a, b)
    && (b.lastSeenAt == a.lastSeenAt || SLIDE_GRANULARITY_MS <= b.lastSeenAt - a.lastSeenAt <= IDLE_MS)
  }

  /** A resolve in flight: its read is no newer than what is stored, and it slides within the idle limit. */
  predicate CallOk(st: Sessions, k: Call) {
    && k.sha in st.used
    && (k.RowRead? || SLIDE_GRANULARITY_MS <= k.now - k.row.lastSeenAt <= IDLE_MS)
    && (k.RowRead? || (k.now <= k.row.absoluteExpiresAt && !k.row.pending))
    && (k.sha in st.rows ==>
          SameSession(k.row, st.rows[k.sha]) && k.row.lastSeenAt <= st.rows[k.sha].lastSeenAt)
  }

  ghost predicate Ok(st: Sessions) {
    && (forall sha :: sha in st.rows ==> sha in st.used)
    && forall c :: c in st.calls ==> CallOk(st, st.calls[c])
  }

  /** What one state is to a later one: the dead stay dead, and stored instants only move on. */
  ghost predicate Follows(st: Sessions, st': Sessions) {
    && st.used <= st'.used
    && (forall sha :: Dead(st, sha) ==> Dead(st', sha))
    && forall sha :: sha in st.rows && sha in st'.rows ==> MovesOn(st.rows[sha], st'.rows[sha])
  }

  lemma StepKeeps(st: Sessions, c: Caller, a: Action)
    requires Ok(st)
    ensures Ok(Perform(st, c, a)) && Follows(st, Perform(st, c, a))
  {
    hide Ok, Follows, GuardHolds, MintLands, FieldsLand, SetRow, MeetAccount, WriteSlide;
    SameFollows(st);
    match a {
      case Mint(sha, s) => if MintLands(st, sha, s) { MintKeeps(st, sha, s); }
      case SetFields(sha, g, s, remove) => if FieldsLand(st, sha, g) { FieldsKeep(st, sha, g, s, remove); }
      case Drop(sha) => DropKeeps(st, sha);
      case SetAccount(user, account) => AccountKeeps(st, user, account);
      case Begin(sha, now) => BeginKeeps(st, c, sha, now);
      case Meet => if c in st.calls && st.calls[c].RowRead? { MeetKeeps(st, c); }
      case Slide => if c in st.calls && st.calls[c].Sliding? { SlideKeeps(st, c); }
      case Reread => EndKeeps(st, c);
    }
  }

  /** What a guarded write leaves of a row: the named fields set or removed, everything else as it was. */
  ghost predicate FieldsLeft(was: Session, set_: Item, remove: set<string>, now: Session) {
    && now == was.(fields := now.fields)
    && forall attr ::
         Attr(now.fields, attr)
         == if attr in remove then None else if attr in set_ then Some(set_[attr]) else Attr(was.fields, attr)
  }

  /**
   * What a step can do to the rows, the accounts and the calls of others: a row appears by its mint
   * alone, goes by its deletion alone, and changes by a write of its fields or a slide to the
   * instant of the call; an account is what was set last; a call moves by its own caller.
   */
  lemma StepFrame(st: Sessions, c: Caller, a: Action, sha: string)
    ensures var st' := Perform(st, c, a);
            && (sha !in st.rows && sha in st'.rows ==> a == Mint(sha, st'.rows[sha]))
            && (sha in st.rows && sha !in st'.rows ==> a == Drop(sha))
            && (sha in st.rows && sha in st'.rows && st'.rows[sha] != st.rows[sha] ==>
                  || (a.SetFields? && a.sha == sha && FieldsLeft(st.rows[sha], a.set_, a.remove, st'.rows[sha]))
                  || (a.Slide? && SlideLands(st, c) && st.calls[c].sha == sha
                      && st'.rows[sha] == st.rows[sha].(lastSeenAt := st.calls[c].now))
                  || (a.Mint? && a.sha == sha && sha !in st.used))
            && (st'.accounts == if a.SetAccount? then st.accounts[a.user := a.account] else st.accounts)
            && (forall d :: d != c ==> CallOf(st', d) == CallOf(st, d))
  {
    hide Judge, GuardHolds;
  }

  lemma SameFollows(st: Sessions)
    ensures Follows(st, st)
  {
  }

  lemma MintKeeps(st: Sessions, sha: string, s: Session)
    requires Ok(st) && MintLands(st, sha, s)
    ensures var st' := st.(rows := st.rows[sha := s], used := st.used + {sha}); Ok(st') && Follows(st, st')
  {
  }

  lemma FieldsKeep(st: Sessions, sha: string, g: Guard, set_: Item, remove: set<string>)
    requires Ok(st) && FieldsLand(st, sha, g)
    ensures Ok(SetRow(st, sha, set_, remove)) && Follows(st, SetRow(st, sha, set_, remove))
  {
    hide GuardHolds;
  }

  lemma DropKeeps(st: Sessions, sha: string)
    requires Ok(st)
    ensures var st' := st.(rows := st.rows - {sha}); Ok(st') && Follows(st, st')
  {
  }

  lemma AccountKeeps(st: Sessions, user: string, account: Account)
    requires Ok(st)
    ensures var st' := st.(accounts := st.accounts[user := account]); Ok(st') && Follows(st, st')
  {
  }

  lemma BeginKeeps(st: Sessions, c: Caller, sha: string, now: int)
    requires Ok(st)
    ensures Ok(Perform(st, c, Begin(sha, now))) && Follows(st, Perform(st, c, Begin(sha, now)))
  {
  }

  lemma MeetKeeps(st: Sessions, c: Caller)
    requires Ok(st) && c in st.calls && st.calls[c].RowRead?
    ensures Ok(MeetAccount(st, c)) && Follows(st, MeetAccount(st, c))
  {
    assert CallOk(st, st.calls[c]);
  }

  lemma SlideKeeps(st: Sessions, c: Caller)
    requires Ok(st) && c in st.calls && st.calls[c].Sliding?
    ensures Ok(WriteSlide(st, c)) && Follows(st, WriteSlide(st, c))
  {
    assert CallOk(st, st.calls[c]);
  }

  lemma EndKeeps(st: Sessions, c: Caller)
    requires Ok(st)
    ensures var st' := st.(calls := st.calls - {c}); Ok(st') && Follows(st, st')
  {
  }

  // ---- the shared store --------------------------------------------------------------------------------

  /** A step one of the others completes. */
  datatype Move = Move(id: nat, action: Action)

  ghost predicate OnlyOthers(past: seq<Step>, now: seq<Step>) {
    past <= now && forall k :: |past| <= k < |now| ==> now[k].Foreign?
  }

  /** The history went on by steps of others, then by one step of this caller. */
  ghost predicate OthersThenOwn(past: seq<Step>, now: seq<Step>, a: Action) {
    now != [] && OnlyOthers(past, now[..|now| - 1]) && now[|now| - 1] == Own(a)
  }

  /** No hash is forgotten, and no dead session comes back. */
  ghost predicate Outlived(st: Sessions, st': Sessions) {
    st.used <= st'.used && forall sha :: Dead(st, sha) ==> Dead(st', sha)
  }

  class SessionStore {
    var st: Sessions
    var script: seq<seq<Move>>
    ghost const origin: Sessions
    ghost var steps: seq<Step>

    ghost predicate Valid()
      reads this
    {
      Ok(origin) && st == Replay(origin, steps) && Ok(st)
    }

    constructor (st: Sessions, script: seq<seq<Move>>)
      requires Ok(st)
      ensures Valid() && this.st == st && this.script == script && steps == []
    {
      this.st, this.script, this.origin, this.steps := st, script, st, [];
    }

    /** The others run until this caller's next call takes effect. */
    method Interfere()
      requires Valid()
      modifies this
      ensures Valid() && OnlyOthers(old(steps), steps)
      ensures CallOf(st, Me) == CallOf(old(st), Me)
      ensures Outlived(old(st), st)
      ensures old(script) == [] ==> st == old(st) && steps == old(steps)
      ensures script == if old(script) == [] then [] else old(script)[1..]
    {
      hide Perform, Ok, Follows;
      if script == [] { return; }
      var moves := script[0];
      script := script[1..];
      for i := 0 to |moves|
        invariant Valid() && OnlyOthers(old(steps), steps) && script == old(script)[1..]
        invariant CallOf(st, Me) == CallOf(old(st), Me)
        invariant Outlived(old(st), st)
      {
        StepKeeps(st, Other(moves[i].id), moves[i].action);
        FollowsOutlives(st, Perform(st, Other(moves[i].id), moves[i].action));
        OthersLeaveCalls(st, Me, Other(moves[i].id), moves[i].action);
        ReplayOne(origin, steps, Foreign(moves[i].id, moves[i].action));
        st := Perform(st, Other(moves[i].id), moves[i].action);
        steps := steps + [Foreign(moves[i].id, moves[i].action)];
      }
    }

    /** One awaited call of this caller. `was` is the state it met, from which it is answered. */
    method Take(a: Action) returns (was: Sessions)
      requires Valid()
      modifies this
      ensures Valid() && OthersThenOwn(old(steps), steps, a)
      ensures Ok(was) && was == Replay(origin, steps[..|steps| - 1]) && st == Perform(was, Me, a)
      ensures CallOf(was, Me) == CallOf(old(st), Me)
      ensures Outlived(old(st), was) && Outlived(was, st)
      ensures old(script) == [] ==> was == old(st)
      ensures script == if old(script) == [] then [] else old(script)[1..]
    {
      hide Perform, Ok, Follows, Replay;
      Interfere();
      was := st;
      StepKeeps(st, Me, a);
      FollowsOutlives(st, Perform(st, Me, a));
      ReplayOne(origin, steps, Own(a));
      st := Perform(st, Me, a);
      steps := steps + [Own(a)];
      assert steps[..|steps| - 1] + [Own(a)] == steps;
    }

    method GetSession(sha: string) returns (row: Option<Session>)
      requires Valid()
      modifies this
      ensures Valid() && OnlyOthers(old(steps), steps) && row == SessionOf(st, sha)
      ensures Outlived(old(st), st)
    {
      Interfere();
      row := SessionOf(st, sha);
    }

    /** The sessions of a user, as the index lists them. */
    method QueryUser(user: string) returns (shas: set<string>)
      requires Valid()
      modifies this
      ensures Valid() && OnlyOthers(old(steps), steps)
      ensures shas == set sha | sha in st.rows && st.rows[sha].userId == user
      ensures Outlived(old(st), st)
    {
      Interfere();
      shas := set sha | sha in st.rows && st.rows[sha].userId == user;
    }

    /** The write of a row under a hash nobody else mints. */
    method PutFresh(sha: string, session: Session)
      requires Valid() && sha !in st.used && session.lastSeenAt == session.issuedAt
      requires forall k, x :: 0 <= k < |script| && x in script[k] ==> !(x.action.Mint? && x.action.sha == sha)
      modifies this
      ensures Valid() && OthersThenOwn(old(steps), steps, Mint(sha, session))
      ensures sha in st.rows && st.rows[sha] == session
    {
      hide Ok, Replay, Follows;
      if script != [] {
        var moves := script[0];
        script := script[1..];
        for i := 0 to |moves|
          invariant Valid() && OnlyOthers(old(steps), steps) && sha !in st.used
        {
          assert moves[i] in old(script)[0];
          StepKeeps(st, Other(moves[i].id), moves[i].action);
          ReplayOne(origin, steps, Foreign(moves[i].id, moves[i].action));
          st := Perform(st, Other(moves[i].id), moves[i].action);
          steps := steps + [Foreign(moves[i].id, moves[i].action)];
        }
      }
      StepKeeps(st, Me, Mint(sha, session));
      ReplayOne(origin, steps, Own(Mint(sha, session)));
      st := Perform(st, Me, Mint(sha, session));
      steps := steps + [Own(Mint(sha, session))];
    }
  }

  lemma FollowsOutlives(st: Sessions, st': Sessions)
    requires Follows(st, st')
    ensures Outlived(st, st')
  {
  }

  /** Nobody touches the calls of anybody else. */
  lemma OthersLeaveCalls(st: Sessions, c: Caller, other: Caller, a: Action)
    requires c != other
    ensures CallOf(Perform(st, other, a), c) == CallOf(st, c)
  {
    hide Judge, GuardHolds;
  }
}
