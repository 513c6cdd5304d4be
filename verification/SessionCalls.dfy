/** The session calls themselves: resolve, slide, guarded field writes, mint, and the two kills. */
module SessionCalls {
  import opened Strings
  import opened Json
  import opened Store
  import opened Sessions
  import opened SessionRuns

  datatype Resolved = Failed(reason: Fail) | Live(account: Account, session: Session)

  /** The outcome of a resolve, from what its reads returned and whether its row outlived the slide. */
  function Outcome(row: Option<Session>, account: Option<Account>, survived: bool, now: int): Resolved {
    if row.None? then Failed(Invalid)
    else
      var fail := Judge(row.value, account, now);
      if fail.Some? then Failed(fail.value)
      else if Slides(row.value, now) && !survived then Failed(Invalid)
      else Live(account.value, row.value.(lastSeenAt := now))
  }

  /**
   * The answer a request deserves: a session of a known active account, of the account's version,
   * within both windows and full is live, if its row outlived the slide; otherwise the reason is
   * the first of these that is missing.
   */
  predicate Deserved(row: Option<Session>, account: Option<Account>, survived: bool, now: int, r: Resolved) {
    var known := row.Some? && account.Some? && account.value.active;
    var current := known && row.value.sessionVersion == account.value.sessionVersion;
    var unexpired := current && now <= row.value.absoluteExpiresAt;
    var inUse := unexpired && now - row.value.lastSeenAt <= 30 * 60 * 1000;
    var full := inUse && !row.value.pending;
    var written := full && now - row.value.lastSeenAt >= 60 * 1000;
    match r
    case Failed(Invalid) => !known || (written && !survived)
    case Failed(Version) => known && !current
    case Failed(Expired) => current && !unexpired
    case Failed(Idle) => unexpired && !inUse
    case Failed(Totp) => inUse && !full
    case Live(a, session) =>
      full && (written ==> survived) && account == Some(a) && session == row.value.(lastSeenAt := now)
  }

  lemma OutcomeIsDeserved(row: Option<Session>, account: Option<Account>, survived: bool, now: int, r: Resolved)
    ensures Deserved(row, account, survived, now, r) <==> r == Outcome(row, account, survived, now)
  {
  }

  lemma OutcomesDeserved(row: Option<Session>, account: Option<Account>, now: int)
    ensures Deserved(row, account, true, now, Outcome(row, account, true, now))
    ensures Deserved(row, account, false, now, Outcome(row, account, false, now))
  {
    hide Outcome, Deserved;
    OutcomeIsDeserved(row, account, true, now, Outcome(row, account, true, now));
    OutcomeIsDeserved(row, account, false, now, Outcome(row, account, false, now));
  }

  /** What this caller did, in order. */
  function OwnActions(steps: seq<Step>): seq<Action> {
    if steps == [] then []
    else OwnActions(steps[..|steps| - 1]) + (if steps[|steps| - 1].Own? then [steps[|steps| - 1].action] else [])
  }

  lemma {:induction false} OwnAppend(a: seq<Step>, b: seq<Step>)
    ensures OwnActions(a + b) == OwnActions(a) + OwnActions(b)
  {
    if b == [] {
      assert a + b == a;
    } else {
      assert (a + b)[..|a + b| - 1] == a + b[..|b| - 1];
      OwnAppend(a, b[..|b| - 1]);
    }
  }

  lemma {:induction false} ForeignOnly(steps: seq<Step>)
    requires forall k :: 0 <= k < |steps| ==> steps[k].Foreign?
    ensures OwnActions(steps) == []
  {
    if steps != [] { ForeignOnly(steps[..|steps| - 1]); }
  }

  /** The actions of this caller since `past`. */
  function ActionsSince(past: seq<Step>, now: seq<Step>): seq<Action>
    requires past <= now
  {
    OwnActions(now[|past|..])
  }

  lemma NoneYet(past: seq<Step>)
    ensures ActionsSince(past, past) == []
  {
  }

  lemma OthersOnly(past: seq<Step>, middle: seq<Step>, now: seq<Step>)
    requires past <= middle && OnlyOthers(middle, now)
    ensures past <= now && ActionsSince(past, now) == ActionsSince(past, middle)
  {
    assert now[|past|..] == middle[|past|..] + now[|middle|..];
    OwnAppend(middle[|past|..], now[|middle|..]);
    ForeignOnly(now[|middle|..]);
  }

  lemma OneOwn(past: seq<Step>, middle: seq<Step>, now: seq<Step>, a: Action)
    requires past <= middle && OthersThenOwn(middle, now, a)
    ensures past <= middle < now && ActionsSince(past, now) == ActionsSince(past, middle) + [a]
  {
    var front := now[..|now| - 1];
    OthersOnly(past, middle, front);
    assert now[|past|..][..|now[|past|..]| - 1] == front[|past|..];
  }

  lemma SinceBoth(past: seq<Step>, middle: seq<Step>, now: seq<Step>)
    requires past <= middle <= now
    ensures ActionsSince(past, now) == ActionsSince(past, middle) + ActionsSince(middle, now)
  {
    assert now[|past|..] == middle[|past|..] + now[|middle|..];
    OwnAppend(middle[|past|..], now[|middle|..]);
  }

  /** One of this caller's steps from `from` on is the success of a resolve. */
  ghost predicate PassedSince(st: Sessions, steps: seq<Step>, from: nat, sha: string, now: int) {
    exists k: nat :: from <= k < |steps| && steps[k].Own? && PassAt(st, steps, k, sha, now)
  }

  lemma PassOfOneOwn(st: Sessions, past: seq<Step>, now: seq<Step>, a: Action, sha: string, t: int)
    requires OthersThenOwn(past, now, a)
    ensures PassedSince(st, now, |past|, sha, t) <==> PassAt(st, now, |now| - 1, sha, t)
  {
    hide PassAt;
  }

  lemma PassOfBoth(st: Sessions, middle: seq<Step>, now: seq<Step>, from: nat, sha: string, t: int)
    requires middle <= now && from <= |middle|
    ensures PassedSince(st, now, from, sha, t)
            <==> PassedSince(st, middle, from, sha, t) || PassedSince(st, now, |middle|, sha, t)
  {
    hide Passes;
    forall k: nat | k < |middle| ensures PassAt(st, now, k, sha, t) == PassAt(st, middle, k, sha, t) {
      AtPrefix(st, middle, now, k);
    }
    hide PassAt;
    if k: nat :| from <= k < |middle| && middle[k].Own? && PassAt(st, middle, k, sha, t) {
      assert now[k] == middle[k] && PassAt(st, now, k, sha, t);
    }
    if k: nat :| from <= k < |now| && now[k].Own? && PassAt(st, now, k, sha, t) {
      if k < |middle| { assert middle[k].Own? && PassAt(st, middle, k, sha, t); }
    }
  }

  // ---- resolve -------------------------------------------------------------------------------------------

  /** Write the slid value under its guard; a lost guard is no harm while the row is there. */
  method SlideIdleWindow(store: SessionStore, sha: string, expected: int, next: int)
    returns (survived: bool, ghost wrote: nat)
    requires store.Valid() && CallOf(store.st, Me).Some? && CallOf(store.st, Me).value.Sliding?
    requires CallOf(store.st, Me).value.sha == sha && CallOf(store.st, Me).value.now == next
    requires CallOf(store.st, Me).value.row.lastSeenAt == expected
    modifies store
    ensures store.Valid() && old(store.steps) <= store.steps
    ensures |old(store.steps)| <= wrote < |store.steps|
    ensures OthersThenOwn(old(store.steps), store.steps[..wrote + 1], Slide)
    ensures survived <==> sha in store.st.rows
    ensures Dead(old(store.st), sha) ==> !survived
    ensures ActionsSince(old(store.steps), store.steps)
            == if SlideLands(At(store.origin, store.steps, wrote), Me) then [Slide] else [Slide, Reread]
    ensures survived ==> PassAt(store.origin, store.steps, |store.steps| - 1, sha, next)
    ensures survived ==> store.steps[|store.steps| - 1].Own?
    ensures PassedSince(store.origin, store.steps, |old(store.steps)|, sha, next) <==> survived
    ensures old(store.script) == [] && sha in old(store.st.rows) && old(store.st.rows)[sha].lastSeenAt == expected ==>
              store.st.rows == old(store.st.rows)[sha := old(store.st.rows)[sha].(lastSeenAt := next)]
  {
    hide Replay, OwnActions, ActionsSince, Ok, Judge, Perform, Passes, SlideLands, Outlived, PassedSince;
    ghost var past, first := store.steps, store.st;
    ghost var row := CallOf(store.st, Me).value.row;
    NoneYet(past);
    var was := store.Take(Slide);
    ghost var middle, between := store.steps, store.st;
    wrote := |middle| - 1;
    OneOwn(past, past, middle, Slide);
    SlideDecides(was, sha, next, row);
    PassOfOneOwn(store.origin, past, middle, Slide, sha, next);
    OutlivedTwice(first, was, between);
    assert middle[..wrote + 1] == middle;
    if sha in was.rows && was.rows[sha].lastSeenAt == expected { return true, wrote; }
    var met := store.Take(Reread);
    OneOwn(past, middle, store.steps, Reread);
    RereadDecides(met, sha, next, row);
    PassOfOneOwn(store.origin, middle, store.steps, Reread, sha, next);
    PassOfBoth(store.origin, middle, store.steps, |past|, sha, next);
    OutlivedTwice(between, met, store.st);
    OutlivedTwice(first, between, met);
    assert store.steps[..wrote] == middle[..wrote] && store.steps[..wrote + 1] == middle[..wrote + 1];
    return sha in met.rows, wrote;
  }

  /** A slide lands exactly if the row still says what was read, and then the resolve succeeds. */
  lemma SlideDecides(st: Sessions, sha: string, now: int, row: Session)
    requires CallOf(st, Me) == Some(Sliding(sha, now, row))
    ensures SlideLands(st, Me) <==> sha in st.rows && st.rows[sha].lastSeenAt == row.lastSeenAt
    ensures Passes(st, Me, Slide, sha, now) <==> SlideLands(st, Me)
    ensures SlideLands(st, Me) ==>
              sha in Perform(st, Me, Slide).rows
              && Perform(st, Me, Slide).rows == st.rows[sha := st.rows[sha].(lastSeenAt := now)]
    ensures !SlideLands(st, Me) ==> CallOf(Perform(st, Me, Slide), Me) == Some(SlideLost(sha, now, row))
  {
    hide Judge;
  }

  /** After a lost guard, presence decides. */
  lemma RereadDecides(st: Sessions, sha: string, now: int, row: Session)
    requires CallOf(st, Me) == Some(SlideLost(sha, now, row))
    ensures Passes(st, Me, Reread, sha, now) <==> sha in st.rows
    ensures Perform(st, Me, Reread).rows == st.rows
  {
    hide Judge;
  }

  /** A resolve that no other call overlaps: its result and the rows it leaves. */
  function Quiet(st: Sessions, sha: string, now: int): (Resolved, map<string, Session>) {
    if sha !in st.rows then (Failed(Invalid), st.rows)
    else
      var row := st.rows[sha];
      var account := AccountOf(st, row.userId);
      var slid := row.(lastSeenAt := now);
      if Judge(row, account, now).Some? then (Failed(Judge(row, account, now).value), st.rows)
      else (Live(account.value, slid), if Slides(row, now) then st.rows[sha := slid] else st.rows)
  }

  /** The actions a resolve takes, by what its reads say and whether its slide landed. */
  function ResolveActions(sha: string, now: int, row: Option<Session>, account: Option<Account>, landed: bool)
    : seq<Action>
  {
    [Begin(sha, now)]
    + (if row.None? then []
       else [Meet] + (if Judge(row.value, account, now).Some? || !Slides(row.value, now) then []
                      else [Slide] + (if landed then [] else [Reread])))
  }

  /** The row and the account a resolve has read. */
  function RowOfUse(st: Sessions, steps: seq<Step>, sha: string, u: Use): Option<Session>
    requires u.began <= |steps|
  {
    SessionOf(At(st, steps, u.began), sha)
  }

  function AccountOfUse(st: Sessions, steps: seq<Step>, sha: string, u: Use): Option<Account>
    requires u.began <= u.met <= |steps|
  {
    var row := RowOfUse(st, steps, sha, u);
    if row.None? then None else AccountOf(At(st, steps, u.met), row.value.userId)
  }

  /** The two reads of a resolve. Without a row there is no second one. */
  method ReadSession(store: SessionStore, sha: string, now: int)
    returns (row: Option<Session>, account: Option<Account>, ghost u: Use)
    requires store.Valid()
    modifies store
    ensures store.Valid() && old(store.steps) < store.steps
    ensures |old(store.steps)| <= u.began <= u.met == |store.steps| - 1
    ensures u == Use(Me, now, u.began, u.met, u.met)
    ensures OthersThenOwn(old(store.steps), store.steps[..u.began + 1], Begin(sha, now))
    ensures row == RowOfUse(store.origin, store.steps, sha, u)
    ensures account == AccountOfUse(store.origin, store.steps, sha, u)
    ensures row.Some? ==> Span(store.origin, store.steps, Me, u.began, u.met, sha, now)
    ensures ActionsSince(old(store.steps), store.steps) == [Begin(sha, now)] + (if row.Some? then [Meet] else [])
    ensures row.Some? && Judge(row.value, account, now).None? ==>
              if Slides(row.value, now) then CallOf(store.st, Me) == Some(Sliding(sha, now, row.value))
              else PassAt(store.origin, store.steps, u.met, sha, now)
    ensures PassedSince(store.origin, store.steps, |old(store.steps)|, sha, now)
            <==> row.Some? && Judge(row.value, account, now).None? && !Slides(row.value, now)
    ensures store.steps[u.met].Own?
    ensures Dead(old(store.st), sha) ==> row.None?
    ensures Outlived(old(store.st), store.st)
    ensures old(store.script) == [] ==>
              store.script == [] && row == SessionOf(old(store.st), sha)
              && (row.Some? ==> account == AccountOf(old(store.st), row.value.userId))
              && store.st.rows == old(store.st.rows)
  {
    hide Replay, OwnActions, ActionsSince, Ok, Judge, Perform, Passes, Outlived, Slides, PassedSince;
    ghost var past, was := store.steps, store.st;
    NoneYet(past);
    var first := store.Take(Begin(sha, now));
    ghost var began, steps1 := |store.steps| - 1, store.steps;
    OneOwn(past, past, steps1, Begin(sha, now));
    BeginReads(first, sha, now);
    PassOfOneOwn(store.origin, past, steps1, Begin(sha, now), sha, now);
    OutlivedTwice(was, first, store.st);
    row, account, u := SessionOf(first, sha), None, Use(Me, now, began, began, began);
    assert store.steps[..began + 1] == steps1;
    if row.Some? {
      ghost var between := store.st;
      var second := store.Take(Meet);
      account := AccountOf(second, row.value.userId);
      u := Use(Me, now, began, |store.steps| - 1, |store.steps| - 1);
      OneOwn(past, steps1, store.steps, Meet);
      ReadsStand(store.origin, past, steps1, store.steps, sha, now);
      MeetDecides(second, sha, now, row.value);
      PassOfOneOwn(store.origin, steps1, store.steps, Meet, sha, now);
      PassOfBoth(store.origin, steps1, store.steps, |past|, sha, now);
      OutlivedTwice(between, second, store.st);
      OutlivedTwice(was, between, store.st);
    }
  }

  lemma BeginReads(st: Sessions, sha: string, now: int)
    ensures sha in st.rows ==> CallOf(Perform(st, Me, Begin(sha, now)), Me) == Some(RowRead(sha, now, st.rows[sha]))
    ensures forall t :: !Passes(st, Me, Begin(sha, now), sha, t)
    ensures Perform(st, Me, Begin(sha, now)).rows == st.rows
    ensures Perform(st, Me, Begin(sha, now)).accounts == st.accounts
  {
  }

  /** The second read decides: a failure, a slide to be written, or success. */
  lemma MeetDecides(st: Sessions, sha: string, now: int, row: Session)
    requires CallOf(st, Me) == Some(RowRead(sha, now, row))
    ensures Judge(row, AccountOf(st, row.userId), now).None? && Slides(row, now) ==>
              CallOf(Perform(st, Me, Meet), Me) == Some(Sliding(sha, now, row))
    ensures Passes(st, Me, Meet, sha, now)
            <==> Judge(row, AccountOf(st, row.userId), now).None? && !Slides(row, now)
    ensures Perform(st, Me, Meet).rows == st.rows
  {
    hide Judge;
  }

  lemma OutlivedTwice(a: Sessions, b: Sessions, c: Sessions)
    requires Outlived(a, b) && Outlived(b, c)
    ensures Outlived(a, c) && forall sha :: Dead(a, sha) ==> sha !in b.rows
  {
  }

  /**
   * Resolve a token at `now`. The result is what its reads say; a row that was deleted
   * before the call started resolves to nothing, whatever happens meanwhile.
   */
  method ResolveSession(store: SessionStore, sha: string, now: int) returns (r: Resolved, ghost u: Use)
    requires store.Valid()
    modifies store
    ensures store.Valid() && old(store.steps) < store.steps
    ensures u.c == Me && u.now == now && |old(store.steps)| <= u.began <= u.met <= u.wrote < |store.steps|
    // what it read, and when
    ensures OthersThenOwn(old(store.steps), store.steps[..u.began + 1], Begin(sha, now))
    ensures RowOfUse(store.origin, store.steps, sha, u).Some? ==> Resolves(store.origin, store.steps, sha, u)
    // what it concludes, and what it did
    ensures Deserved(RowOfUse(store.origin, store.steps, sha, u), AccountOfUse(store.origin, store.steps, sha, u),
                     sha in store.st.rows, now, r)
    ensures ActionsSince(old(store.steps), store.steps)
            == ResolveActions(sha, now, RowOfUse(store.origin, store.steps, sha, u),
                              AccountOfUse(store.origin, store.steps, sha, u),
                              SlideLands(At(store.origin, store.steps, u.wrote), Me))
    ensures Dead(old(store.st), sha) ==> r == Failed(Invalid)
    ensures r.Live? ==>
              PassAt(store.origin, store.steps, |store.steps| - 1, sha, now) && store.steps[|store.steps| - 1].Own?
    ensures r.Live? <==> PassedSince(store.origin, store.steps, |old(store.steps)|, sha, now)
    // the lag it leaves
    ensures r.Live? && sha in store.st.rows ==>
              (now - store.st.rows[sha].lastSeenAt >= SLIDE_GRANULARITY_MS
               <==> SlidBetween(store.origin, store.steps, u.began, u.wrote, sha)
                    && SlidesUpTo(store.origin, store.steps, u.began, |store.steps|, sha, now - SLIDE_GRANULARITY_MS))
    ensures old(store.script) == [] ==>
              r == Quiet(old(store.st), sha, now).0 && store.st.rows == Quiet(old(store.st), sha, now).1
  {
    hide Replay, OwnActions, Ok, Judge, SlidBetween, SlidesUpTo, Span, At, OthersThenOwn, Outlived, PassAt, SlideLands,
         Deserved, PassedSince;
    ghost var past := store.steps;
    var row, account;
    row, account, u := ReadSession(store, sha, now);
    ghost var steps2 := store.steps;
    OutcomesDeserved(row, account, now);
    if row.None? { return Failed(Invalid), u; }
    var fail := Judge(row.value, account, now);
    if fail.Some? { return Failed(fail.value), u; }
    JudgedLive(row.value, account, now);
    if now - row.value.lastSeenAt >= SLIDE_GRANULARITY_MS {
      var survived;
      ghost var wrote;
      survived, wrote := SlideIdleWindow(store, sha, row.value.lastSeenAt, now);
      SinceBoth(past, steps2, store.steps);
      PassOfBoth(store.origin, steps2, store.steps, |past|, sha, now);
      u := Use(Me, now, u.began, u.met, wrote);
      SlideStandsToo(store.origin, steps2, store.steps, sha, u);
      if !survived { return Failed(Invalid), u; }
    }
    if sha in store.st.rows {
      AtEnd(store.origin, store.steps);
      LagExact(store.origin, store.steps, sha, u, |store.steps|);
    }
    return Live(account.value, row.value.(lastSeenAt := now)), u;
  }

  lemma AtEnd(origin: Sessions, steps: seq<Step>)
    ensures At(origin, steps, |steps|) == Replay(origin, steps)
  {
    assert steps[..|steps|] == steps;
  }

  lemma JudgedLive(session: Session, account: Option<Account>, now: int)
    requires Judge(session, account, now).None?
    ensures account.Some?
  {
  }

  /** A read and a second read with only steps of others in between are the reads of one resolve. */
  lemma ReadsStand(origin: Sessions, past: seq<Step>, steps1: seq<Step>, steps2: seq<Step>, sha: string, now: int)
    requires OthersThenOwn(past, steps1, Begin(sha, now)) && OthersThenOwn(steps1, steps2, Meet)
    requires sha in Replay(origin, steps1[..|steps1| - 1]).rows
    ensures Span(origin, steps2, Me, |steps1| - 1, |steps2| - 1, sha, now)
    ensures At(origin, steps2, |steps1| - 1) == Replay(origin, steps1[..|steps1| - 1])
    ensures OthersThenOwn(past, steps2[..|steps1|], Begin(sha, now))
  {
    hide Replay;
    assert steps2[..|steps1| - 1] == steps1[..|steps1| - 1] && steps2[..|steps1|] == steps1;
  }

  /** The reads of a resolve stand in every longer history, and its slide is the next thing it does. */
  lemma SlideStandsToo(origin: Sessions, steps2: seq<Step>, now: seq<Step>, sha: string, u: Use)
    requires steps2 <= now && |steps2| <= u.wrote < |now| && u.met == |steps2| - 1 && u.c == Me
    requires Span(origin, steps2, Me, u.began, u.met, sha, u.now)
    requires Verdict(origin, steps2, u.began, u.met, sha, u.now).None?
    requires Slides(At(origin, steps2, u.began).rows[sha], u.now)
    requires OthersThenOwn(steps2, now[..u.wrote + 1], Slide)
    ensures Succeeds(origin, now, sha, u)
    ensures At(origin, now, u.began) == At(origin, steps2, u.began)
    ensures At(origin, now, u.met) == At(origin, steps2, u.met)
    ensures now[..u.began + 1] == steps2[..u.began + 1]
  {
    hide Judge, Slides;
    AtPrefix(origin, steps2, now, u.began);
    AtPrefix(origin, steps2, now, u.met);
    hide At;
  }

  // ---- guarded field writes -----------------------------------------------------------------------------

  datatype FieldWrite = Written | NotWritten(current: Option<Session>)

  /** A lost guard reports the row as it is now; a deleted row is never written back. */
  method PutSessionFieldGuarded(store: SessionStore, sha: string, guard: Guard, set_: Item, remove: set<string>)
    returns (r: FieldWrite, ghost was: Sessions)
    requires store.Valid()
    modifies store
    ensures store.Valid() && old(store.steps) < store.steps
    ensures ActionsSince(old(store.steps), store.steps) == [SetFields(sha, guard, set_, remove)]
    ensures exists k: nat ::
              |old(store.steps)| <= k < |store.steps| && was == At(store.origin, store.steps, k)
              && store.steps[k] == Own(SetFields(sha, guard, set_, remove))
    ensures r.Written? <==> sha in was.rows && GuardHolds(Some(was.rows[sha].fields), guard)
    ensures r.Written? ==>
              && sha in store.st.rows && FieldsLeft(was.rows[sha], set_, remove, store.st.rows[sha])
              && store.st == was.(rows := was.rows[sha := store.st.rows[sha]])
    ensures r.NotWritten? ==> r.current == SessionOf(store.st, sha)
    ensures Dead(old(store.st), sha) ==> r == NotWritten(None)
  {
    hide Replay, OwnActions, Ok, GuardHolds;
    ghost var past := store.steps;
    NoneYet(past);
    var met := store.Take(SetFields(sha, guard, set_, remove));
    was := met;
    ghost var k, middle := |store.steps| - 1, store.steps;
    OneOwn(past, past, middle, SetFields(sha, guard, set_, remove));
    assert was == At(store.origin, middle, k) && middle[k] == Own(SetFields(sha, guard, set_, remove));
    if FieldsLand(met, sha, guard) { return Written, was; }
    var current := store.GetSession(sha);
    OthersOnly(past, middle, store.steps);
    AtPrefix(store.origin, middle, store.steps, k);
    return NotWritten(current), was;
  }

  // ---- minting and killing --------------------------------------------------------------------------------

  /** Nobody else mints this hash: it was drawn at random. */
  ghost predicate Fresh(st: Sessions, script: seq<seq<Move>>, sha: string) {
    sha !in st.used
    && forall k, x :: 0 <= k < |script| && x in script[k] ==> !(x.action.Mint? && x.action.sha == sha)
  }

  method MintSession(store: SessionStore, sha: string, user: string, sessionVersion: int, pending: bool, fields: Item,
                     ttlMs: int, now: int)
    requires store.Valid() && Fresh(store.st, store.script, sha)
    modifies store
    ensures store.Valid() && sha in store.st.rows && old(store.steps) <= store.steps
    ensures store.st.rows[sha] == Session(user, now, now, now + ttlMs, sessionVersion, pending, fields)
    ensures ActionsSince(old(store.steps), store.steps) == [Mint(sha, store.st.rows[sha])]
  {
    hide Replay, OwnActions, Ok;
    ghost var past := store.steps;
    var item := Session(user, now, now, now + ttlMs, sessionVersion, pending, fields);
    store.PutFresh(sha, item);
    NoneYet(past);
    OneOwn(past, past, store.steps, Mint(sha, item));
  }

  /** The deletions of the listed sessions, each once, in some order. */
  predicate Deletions(actions: seq<Action>, shas: set<string>) {
    && (forall i :: 0 <= i < |actions| ==> actions[i].Drop? && actions[i].sha in shas)
    && |actions| == |shas|
    && forall i, j :: 0 <= i < j < |actions| ==> actions[i] != actions[j]
  }

  ghost predicate AllDead(st: Sessions, shas: set<string>) { forall sha :: sha in shas ==> Dead(st, sha) }

  lemma NoneDead(st: Sessions)
    ensures AllDead(st, {})
  {
  }

  lemma OneMoreDead(st: Sessions, st': Sessions, gone: set<string>, sha: string)
    requires AllDead(st, gone) && Outlived(st, st') && Dead(st', sha)
    ensures AllDead(st', gone + {sha}) && st.used <= st'.used
  {
  }

  /** One deletion. */
  method DeleteSession(store: SessionStore, sha: string)
    requires store.Valid()
    modifies store
    ensures store.Valid() && old(store.steps) < store.steps
    ensures ActionsSince(old(store.steps), store.steps) == [Drop(sha)]
    ensures sha !in store.st.rows && (sha in old(store.st.used) ==> Dead(store.st, sha))
    ensures old(store.script) == [] ==> store.st.rows == old(store.st.rows) - {sha}
    ensures Outlived(old(store.st), store.st)
  {
    hide Replay, OwnActions, Ok;
    ghost var past := store.steps;
    NoneYet(past);
    var was := store.Take(Drop(sha));
    OneOwn(past, past, store.steps, Drop(sha));
  }

  /** The sessions of a user in the state after `k` steps. */
  ghost function ListedAt(st: Sessions, steps: seq<Step>, k: nat, user: string): set<string>
    requires k <= |steps|
  {
    set sha | sha in At(st, steps, k).rows && At(st, steps, k).rows[sha].userId == user
  }

  /** Every listed session but the kept one is deleted; of the kept one, nothing is written. */
  method KillOtherSessions(store: SessionStore, user: string, keep: string)
    returns (revoked: nat, ghost listed: set<string>, ghost listedAt: nat)
    requires store.Valid()
    modifies store
    ensures store.Valid() && old(store.steps) <= store.steps
    ensures |old(store.steps)| <= listedAt <= |store.steps|
    ensures listed == ListedAt(store.origin, store.steps, listedAt, user)
    ensures AllDead(store.st, listed - {keep})
    ensures Deletions(ActionsSince(old(store.steps), store.steps), listed - {keep})
    ensures revoked == |listed - {keep}|
  {
    hide Replay, OwnActions, Deletions, ListedAt;
    ghost var past := store.steps;
    var sessions := ListSessions(store, user);
    listed, listedAt := sessions, |store.steps|;
    ghost var atList := store.steps;
    revoked := DeleteAll(store, sessions - {keep});
    SinceBoth(past, atList, store.steps);
    assert ActionsSince(past, store.steps) == ActionsSince(atList, store.steps);
    ListingStands(store.origin, atList, store.steps, user);
  }

  method KillAllSessions(store: SessionStore, user: string)
    returns (revoked: nat, ghost listed: set<string>, ghost listedAt: nat)
    requires store.Valid()
    modifies store
    ensures store.Valid() && old(store.steps) <= store.steps
    ensures |old(store.steps)| <= listedAt <= |store.steps|
    ensures listed == ListedAt(store.origin, store.steps, listedAt, user)
    ensures AllDead(store.st, listed)
    ensures Deletions(ActionsSince(old(store.steps), store.steps), listed) && revoked == |listed|
  {
    hide Replay, OwnActions, Deletions, ListedAt;
    ghost var past := store.steps;
    var sessions := ListSessions(store, user);
    listed, listedAt := sessions, |store.steps|;
    ghost var atList := store.steps;
    revoked := DeleteAll(store, sessions);
    SinceBoth(past, atList, store.steps);
    assert ActionsSince(past, store.steps) == ActionsSince(atList, store.steps);
    ListingStands(store.origin, atList, store.steps, user);
  }

  method ListSessions(store: SessionStore, user: string) returns (shas: set<string>)
    requires store.Valid()
    modifies store
    ensures store.Valid() && old(store.steps) <= store.steps
    ensures ActionsSince(old(store.steps), store.steps) == []
    ensures shas == ListedAt(store.origin, store.steps, |store.steps|, user) && shas <= store.st.used
  {
    hide Replay, OwnActions;
    ghost var past := store.steps;
    NoneYet(past);
    shas := store.QueryUser(user);
    OthersOnly(past, past, store.steps);
    AtEnd(store.origin, store.steps);
  }

  /** The loop of both kills: row after row, while others go on. */
  method DeleteAll(store: SessionStore, shas: set<string>) returns (revoked: nat)
    requires store.Valid() && shas <= store.st.used
    modifies store
    ensures store.Valid() && old(store.steps) <= store.steps
    ensures AllDead(store.st, shas)
    ensures Deletions(ActionsSince(old(store.steps), store.steps), shas) && revoked == |shas|
  {
    hide Replay, OwnActions, ActionsSince, Deletions, Dead, Ok, Outlived, AllDead;
    NoneDead(store.st);
    ghost var past := store.steps;
    NothingDeleted(past);
    revoked := 0;
    var left := shas;
    ghost var gone: set<string> := {};
    while left != {}
      invariant store.Valid() && past <= store.steps
      invariant gone !! left && gone + left == shas && shas <= store.st.used
      invariant AllDead(store.st, gone)
      invariant Deletions(ActionsSince(past, store.steps), gone)
      invariant revoked == |gone|
      decreases left
    {
      var sha :| sha in left;
      ghost var before, was := store.steps, store.st;
      DeleteSession(store, sha);
      OneMoreDead(was, store.st, gone, sha);
      SinceBoth(past, before, store.steps);
      OneMoreDeletion(ActionsSince(past, before), gone, sha);
      left, gone := left - {sha}, gone + {sha};
      revoked := revoked + 1;
    }
  }

  lemma ListingStands(origin: Sessions, atList: seq<Step>, steps: seq<Step>, user: string)
    requires atList <= steps
    ensures ListedAt(origin, steps, |atList|, user) == ListedAt(origin, atList, |atList|, user)
  {
    AtPrefix(origin, atList, steps, |atList|);
  }

  lemma NothingDeleted(past: seq<Step>)
    ensures Deletions(ActionsSince(past, past), {})
  {
  }

  lemma OneMoreDeletion(actions: seq<Action>, gone: set<string>, sha: string)
    requires Deletions(actions, gone) && sha !in gone
    ensures Deletions(actions + [Drop(sha)], gone + {sha})
  {
  }
}
