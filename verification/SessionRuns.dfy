/** What holds of sessions over every history, whatever resolves, writes and kills are interleaved. */
module SessionRuns {
  import opened Strings
  import opened Json
  import opened Store
  import opened Sessions

  /** The state after the first `k` steps. */
  function At(st: Sessions, steps: seq<Step>, k: nat): Sessions
    requires k <= |steps|
  {
    Replay(st, steps[..k])
  }

  lemma AtNext(st: Sessions, steps: seq<Step>, k: nat)
    requires k < |steps|
    ensures At(st, steps, k + 1) == Perform(At(st, steps, k), CallerOf(steps[k]), steps[k].action)
  {
    assert steps[..k + 1][..k] == steps[..k];
  }

  lemma AtPrefix(st: Sessions, steps: seq<Step>, more: seq<Step>, k: nat)
    requires steps <= more && k <= |steps|
    ensures At(st, more, k) == At(st, steps, k)
  {
    assert more[..k] == steps[..k];
  }

  lemma {:induction false} AlwaysOk(st: Sessions, steps: seq<Step>, k: nat)
    requires Ok(st) && k <= |steps|
    ensures Ok(At(st, steps, k))
  {
    hide Ok, Perform;
    if k > 0 {
      AlwaysOk(st, steps, k - 1);
      hide Replay;
      AtNext(st, steps, k - 1);
      StepKeeps(At(st, steps, k - 1), CallerOf(steps[k - 1]), steps[k - 1].action);
    } else {
      assert steps[..0] == [];
    }
  }

  lemma StepFollows(st: Sessions, steps: seq<Step>, k: nat)
    requires Ok(st) && k < |steps|
    ensures Follows(At(st, steps, k), At(st, steps, k + 1))
  {
    hide Ok, Perform, Follows;
    AlwaysOk(st, steps, k);
    AtNext(st, steps, k);
    StepKeeps(At(st, steps, k), CallerOf(steps[k]), steps[k].action);
  }

  /** Dead is forever, whatever is interleaved: no guarded write brings a deleted row back. */
  lemma {:induction false} DeadForever(st: Sessions, steps: seq<Step>, i: nat, j: nat, sha: string)
    requires Ok(st) && i <= j <= |steps| && Dead(At(st, steps, i), sha)
    ensures Dead(At(st, steps, j), sha)
    decreases j - i
  {
    hide Ok, At, Dead;
    if i < j {
      DeadForever(st, steps, i, j - 1, sha);
      StepFollows(st, steps, j - 1);
    }
  }

  /** A row that is there at both ends was there all along. */
  lemma {:induction false} ThereBetween(st: Sessions, steps: seq<Step>, i: nat, k: nat, j: nat, sha: string)
    requires Ok(st) && i <= k <= j <= |steps|
    requires sha in At(st, steps, i).used && sha in At(st, steps, j).rows
    ensures sha in At(st, steps, k).rows && sha in At(st, steps, k).used
  {
    hide At, Ok;
    UsedStays(st, steps, i, k, sha);
    if Dead(At(st, steps, k), sha) { DeadForever(st, steps, k, j, sha); }
  }

  lemma {:induction false} UsedStays(st: Sessions, steps: seq<Step>, i: nat, j: nat, sha: string)
    requires Ok(st) && i <= j <= |steps| && sha in At(st, steps, i).used
    ensures sha in At(st, steps, j).used
    decreases j - i
  {
    hide Ok, At;
    if i < j {
      UsedStays(st, steps, i, j - 1, sha);
      StepFollows(st, steps, j - 1);
    }
  }

  /** A session that is gone was deleted: nothing else takes a row away. */
  lemma {:induction false} GoneIsDropped(st: Sessions, steps: seq<Step>, i: nat, j: nat, sha: string) returns (k: nat)
    requires i <= j <= |steps| && sha in At(st, steps, i).rows && sha !in At(st, steps, j).rows
    ensures i <= k < j && steps[k].action == Drop(sha)
    decreases j - i
  {
    hide At;
    if sha in At(st, steps, j - 1).rows {
      k := j - 1;
      AtNext(st, steps, k);
      StepFrame(At(st, steps, k), CallerOf(steps[k]), steps[k].action, sha);
    } else {
      k := GoneIsDropped(st, steps, i, j - 1, sha);
    }
  }

  // ---- real use ----------------------------------------------------------------------------------------

  /** A step at which a session is really used: its mint, or a resolve that succeeds. */
  predicate UsedBy(st: Sessions, s: Step, sha: string, t: int) {
    || Passes(st, CallerOf(s), s.action, sha, t)
    || (s.action.Mint? && s.action.sha == sha && MintLands(st, sha, s.action.session)
        && t == s.action.session.lastSeenAt)
  }

  ghost predicate ActiveAt(st: Sessions, steps: seq<Step>, n: nat, sha: string, t: int)
    requires n <= |steps|
  {
    exists k: nat :: k < n && UsedBy(At(st, steps, k), steps[k], sha, t)
  }

  lemma SeenChangesByUse(st: Sessions, s: Step, sha: string)
    requires sha in Perform(st, CallerOf(s), s.action).rows
    ensures var seen := Perform(st, CallerOf(s), s.action).rows[sha].lastSeenAt;
            (sha in st.rows && st.rows[sha].lastSeenAt == seen) || UsedBy(st, s, sha, seen)
  {
    hide Judge, GuardHolds;
  }

  /** What is stored as last seen is an instant of real use, in every history that starts empty. */
  lemma {:induction false} LastSeenIsActivity(st: Sessions, steps: seq<Step>, n: nat, sha: string)
    requires st.rows == map[] && n <= |steps| && sha in At(st, steps, n).rows
    ensures ActiveAt(st, steps, n, sha, At(st, steps, n).rows[sha].lastSeenAt)
  {
    assert steps[..0] == [];
    if n > 0 {
      AtNext(st, steps, n - 1);
      var before, seen := At(st, steps, n - 1), At(st, steps, n).rows[sha].lastSeenAt;
      hide At, Perform, UsedBy;
      SeenChangesByUse(before, steps[n - 1], sha);
      if sha in before.rows && before.rows[sha].lastSeenAt == seen {
        LastSeenIsActivity(st, steps, n - 1, sha);
      }
    }
  }

  /** Last seen only grows while the row lives, and by a granularity at least when it changes. */
  lemma {:induction false} LastSeenIncreases(st: Sessions, steps: seq<Step>, i: nat, j: nat, sha: string)
    requires Ok(st) && i <= j <= |steps| && sha in At(st, steps, i).rows && sha in At(st, steps, j).rows
    ensures var a, b := At(st, steps, i).rows[sha], At(st, steps, j).rows[sha];
            SameSession(a, b) && (a.lastSeenAt == b.lastSeenAt || b.lastSeenAt - a.lastSeenAt >= SLIDE_GRANULARITY_MS)
    decreases j - i
  {
    hide Ok, At;
    if i < j {
      AlwaysOk(st, steps, i);
      InUsed(At(st, steps, i), sha);
      ThereBetween(st, steps, i, j - 1, j, sha);
      StepFollows(st, steps, j - 1);
      LastSeenIncreases(st, steps, i, j - 1, sha);
    }
  }

  lemma InUsed(st: Sessions, sha: string)
    requires Ok(st) && sha in st.rows
    ensures sha in st.used
  {
  }

  // ---- no gap of inactivity ------------------------------------------------------------------------------

  /** Some real use lies within the idle limit before `x`. */
  ghost predicate RecentlyUsed(st: Sessions, steps: seq<Step>, n: nat, sha: string, x: int)
    requires n <= |steps|
  {
    exists t :: ActiveAt(st, steps, n, sha, t) && x - IDLE_MS <= t < x
  }

  /** Between `from` and `to` the session was never unused for longer than the idle limit. */
  ghost predicate Covered(st: Sessions, steps: seq<Step>, n: nat, sha: string, from: int, to: int)
    requires n <= |steps|
  {
    forall x :: from < x <= to ==> RecentlyUsed(st, steps, n, sha, x)
  }

  lemma CoverStays(st: Sessions, steps: seq<Step>, i: nat, j: nat, sha: string, from: int, to: int)
    requires i <= j <= |steps| && Covered(st, steps, i, sha, from, to)
    ensures Covered(st, steps, j, sha, from, to)
  {
    hide UsedBy, At;
    forall x | from < x <= to ensures RecentlyUsed(st, steps, j, sha, x) {
      assert RecentlyUsed(st, steps, i, sha, x);
      var t :| ActiveAt(st, steps, i, sha, t) && x - IDLE_MS <= t < x;
      assert ActiveAt(st, steps, j, sha, t);
    }
  }

  lemma CoverGrows(st: Sessions, steps: seq<Step>, n: nat, sha: string, from: int, to: int, t: int)
    requires n <= |steps| && Covered(st, steps, n, sha, from, to) && t <= to && ActiveAt(st, steps, n, sha, t)
    ensures Covered(st, steps, n, sha, from, t + IDLE_MS)
  {
    hide ActiveAt;
    forall x | from < x <= t + IDLE_MS ensures RecentlyUsed(st, steps, n, sha, x) {
      if x <= to { assert RecentlyUsed(st, steps, n, sha, x); }
    }
  }

  /** Up to an idle limit past what is stored, a living session has no gap. */
  lemma {:induction false} StoredCovered(st: Sessions, steps: seq<Step>, n: nat, sha: string)
    requires Ok(st) && st.rows == map[] && n <= |steps| && sha in At(st, steps, n).rows
    ensures var row := At(st, steps, n).rows[sha];
            Covered(st, steps, n, sha, row.issuedAt, row.lastSeenAt + IDLE_MS)
  {
    assert steps[..0] == [];
    if n > 0 {
      var row := At(st, steps, n).rows[sha];
      LastSeenIsActivity(st, steps, n, sha);
      if sha in At(st, steps, n - 1).rows {
        StoredCovered(st, steps, n - 1, sha);
        hide At, Ok, Covered, ActiveAt;
        var before := At(st, steps, n - 1).rows[sha];
        CoverStays(st, steps, n - 1, n, sha, before.issuedAt, before.lastSeenAt + IDLE_MS);
        StepFollows(st, steps, n - 1);
        CoverGrows(st, steps, n, sha, row.issuedAt, before.lastSeenAt + IDLE_MS, row.lastSeenAt);
      } else {
        AtNext(st, steps, n - 1);
        MintedFresh(At(st, steps, n - 1), steps[n - 1], sha);
        hide At, ActiveAt;
        CoverGrows(st, steps, n, sha, row.issuedAt, row.issuedAt, row.lastSeenAt);
      }
    }
  }

  lemma MintedFresh(st: Sessions, s: Step, sha: string)
    requires sha !in st.rows && sha in Perform(st, CallerOf(s), s.action).rows
    ensures var row := Perform(st, CallerOf(s), s.action).rows[sha]; row.lastSeenAt == row.issuedAt
  {
    hide Judge, GuardHolds;
  }

  /** A resolve of `sha` by `c` at `now`: it read its row at step `b` and its account at step `m`. */
  ghost predicate Span(st: Sessions, steps: seq<Step>, c: Caller, b: nat, m: nat, sha: string, now: int) {
    && b < m < |steps| && sha in At(st, steps, b).rows
    && CallerOf(steps[b]) == c && steps[b].action == Begin(sha, now)
    && CallerOf(steps[m]) == c && steps[m].action == Meet
    && ReadStands(steps, c, b, m)
  }

  /** Nothing replaces the read of `b` before step `m`. */
  ghost predicate ReadStands(steps: seq<Step>, c: Caller, b: nat, m: nat)
    requires m <= |steps|
  {
    forall k :: b < k < m && CallerOf(steps[k]) == c ==> !steps[k].action.Begin? && !steps[k].action.Meet?
  }

  /** What the resolve concludes from its two reads. */
  function Verdict(st: Sessions, steps: seq<Step>, b: nat, m: nat, sha: string, now: int): Option<Fail>
    requires b < m < |steps| && sha in At(st, steps, b).rows
  {
    var row := At(st, steps, b).rows[sha];
    Judge(row, AccountOf(At(st, steps, m), row.userId), now)
  }

  /** The row a resolve in flight holds is the one that was stored when it began. */
  lemma {:induction false} InFlightRead(st: Sessions, steps: seq<Step>, c: Caller, b: nat, k: nat)
    requires b < k <= |steps| && CallerOf(steps[b]) == c && steps[b].action.Begin?
    requires ReadStands(steps, c, b, k) && steps[b].action.sha in At(st, steps, b).rows
    ensures var sha, now := steps[b].action.sha, steps[b].action.now;
            CallOf(At(st, steps, k), c) == Some(RowRead(sha, now, At(st, steps, b).rows[sha]))
    decreases k
  {
    hide At, Judge, GuardHolds;
    AtNext(st, steps, k - 1);
    if k > b + 1 {
      InFlightRead(st, steps, c, b, k - 1);
      if CallerOf(steps[k - 1]) != c {
        OthersLeaveCalls(At(st, steps, k - 1), c, CallerOf(steps[k - 1]), steps[k - 1].action);
      }
    }
  }

  /** The call `k` of `c` after `n` steps began at step `b`, and if it slides was judged at step `m`. */
  ghost predicate Traced(st: Sessions, steps: seq<Step>, n: nat, c: Caller, k: Call, b: nat, m: nat)
    requires n <= |steps|
  {
    && b < n && CallerOf(steps[b]) == c && steps[b].action == Begin(k.sha, k.now)
    && k.sha in At(st, steps, b).rows && k.row == At(st, steps, b).rows[k.sha]
    && (k.RowRead? ==> ReadStands(steps, c, b, n))
    && (!k.RowRead? ==> m < n && Span(st, steps, c, b, m, k.sha, k.now) && NothingBegun(steps, c, m, n)
                        && Verdict(st, steps, b, m, k.sha, k.now).None?)
  }

  /** The caller begins no other resolve between its second read and step `n`. */
  ghost predicate NothingBegun(steps: seq<Step>, c: Caller, m: nat, n: nat)
    requires n <= |steps|
  {
    forall k :: m < k < n && CallerOf(steps[k]) == c ==> !steps[k].action.Begin?
  }

  /** What a caller's step makes of its own call. */
  predicate CallMoves(st: Sessions, c: Caller, a: Action, k: Call) {
    if a.Begin? then a.sha in st.rows && k == RowRead(a.sha, a.now, st.rows[a.sha])
    else
      && c in st.calls && k.sha == st.calls[c].sha && k.now == st.calls[c].now && k.row == st.calls[c].row
      && (k.RowRead? <==> st.calls[c].RowRead? && !a.Meet?)
      && (!k.RowRead? && st.calls[c].RowRead? ==> Judge(k.row, AccountOf(st, k.row.userId), k.now).None?)
  }

  lemma StepMovesCall(st: Sessions, c: Caller, a: Action)
    requires c in Perform(st, c, a).calls
    ensures CallMoves(st, c, a, Perform(st, c, a).calls[c])
  {
    hide Judge, GuardHolds;
  }

  /** Every resolve in flight began at some step, and one that slides was judged on its reads. */
  lemma {:induction false} CallIsTraced(st: Sessions, steps: seq<Step>, n: nat, c: Caller) returns (b: nat, m: nat)
    requires st.calls == map[] && n <= |steps| && c in At(st, steps, n).calls
    ensures Traced(st, steps, n, c, At(st, steps, n).calls[c], b, m)
  {
    assert steps[..0] == [] && At(st, steps, 0) == st;
    hide Replay, Judge, Perform, At, Traced;
    AtNext(st, steps, n - 1);
    var before, s, k := At(st, steps, n - 1), steps[n - 1], At(st, steps, n).calls[c];
    if CallerOf(s) != c {
      OthersLeaveCalls(before, c, CallerOf(s), s.action);
      b, m := CallIsTraced(st, steps, n - 1, c);
      TraceStays(st, steps, n, c, k, b, m);
    } else {
      StepMovesCall(before, c, s.action);
      if s.action.Begin? {
        b, m := n - 1, n - 1;
        TraceStarts(st, steps, n, c, k);
      } else {
        b, m := CallIsTraced(st, steps, n - 1, c);
        if before.calls[c].RowRead? && !k.RowRead? {
          TraceJudged(st, steps, n, c, k, b, m);
          m := n - 1;
        } else {
          TraceGoesOn(st, steps, n, c, k, b, m);
        }
      }
    }
  }

  lemma TraceStays(st: Sessions, steps: seq<Step>, n: nat, c: Caller, k: Call, b: nat, m: nat)
    requires 0 < n <= |steps| && Traced(st, steps, n - 1, c, k, b, m) && CallerOf(steps[n - 1]) != c
    ensures Traced(st, steps, n, c, k, b, m)
  {
    hide At, Judge;
  }

  lemma TraceStarts(st: Sessions, steps: seq<Step>, n: nat, c: Caller, k: Call)
    requires 0 < n <= |steps| && CallerOf(steps[n - 1]) == c && steps[n - 1].action.Begin?
    requires CallMoves(At(st, steps, n - 1), c, steps[n - 1].action, k)
    ensures Traced(st, steps, n, c, k, n - 1, n - 1)
  {
    hide At, Judge;
  }

  lemma TraceJudged(st: Sessions, steps: seq<Step>, n: nat, c: Caller, k: Call, b: nat, m: nat)
    requires 0 < n <= |steps| && CallerOf(steps[n - 1]) == c && !steps[n - 1].action.Begin? && !k.RowRead?
    requires c in At(st, steps, n - 1).calls && At(st, steps, n - 1).calls[c].RowRead?
    requires Traced(st, steps, n - 1, c, At(st, steps, n - 1).calls[c], b, m)
    requires CallMoves(At(st, steps, n - 1), c, steps[n - 1].action, k)
    ensures Traced(st, steps, n, c, k, b, n - 1)
  {
    hide At, Judge;
  }

  lemma TraceGoesOn(st: Sessions, steps: seq<Step>, n: nat, c: Caller, k: Call, b: nat, m: nat)
    requires 0 < n <= |steps| && CallerOf(steps[n - 1]) == c && !steps[n - 1].action.Begin?
    requires CallMoves(At(st, steps, n - 1), c, steps[n - 1].action, k)
    requires Traced(st, steps, n - 1, c, At(st, steps, n - 1).calls[c], b, m)
    requires k.RowRead? <==> At(st, steps, n - 1).calls[c].RowRead?
    ensures Traced(st, steps, n, c, k, b, m)
  {
    hide At, Judge;
  }

  /** A run starts with no session and no resolve in flight. */
  ghost predicate Empty(st: Sessions) { st.rows == map[] && st.calls == map[] }

  /** What entitles a request: an active account of the row's version, a full session, and both windows open. */
  predicate Entitled(row: Session, account: Option<Account>, now: int) {
    && account.Some? && account.value.active && account.value.sessionVersion == row.sessionVersion
    && !row.pending && now <= row.absoluteExpiresAt && now <= row.lastSeenAt + 30 * 60 * 1000
  }

  lemma JudgedIsEntitled(row: Session, account: Option<Account>, now: int)
    ensures Judge(row, account, now).None? <==> Entitled(row, account, now)
  {
  }

  /**
   * Main result on the idle window: in every history that starts empty, a resolve succeeds
   * only if the row and the account as its two reads found them entitle it, and then the
   * session was never unused for longer than the idle limit between its mint and that instant.
   */
  lemma LiveIsRecentlyUsed(st: Sessions, steps: seq<Step>, n: nat, sha: string, now: int)
    returns (b: nat, m: nat)
    requires Empty(st) && n < |steps| && Passes(At(st, steps, n), CallerOf(steps[n]), steps[n].action, sha, now)
    ensures m <= n && Span(st, steps, CallerOf(steps[n]), b, m, sha, now)
    ensures NothingBegun(steps, CallerOf(steps[n]), m, n)
    ensures var row := At(st, steps, b).rows[sha]; Entitled(row, AccountOf(At(st, steps, m), row.userId), now)
    ensures Verdict(st, steps, b, m, sha, now).None?
    ensures Covered(st, steps, b, sha, At(st, steps, b).rows[sha].issuedAt, now)
    ensures now <= At(st, steps, b).rows[sha].absoluteExpiresAt
  {
    var c := CallerOf(steps[n]);
    var k := At(st, steps, n).calls[c];
    b, m := CallIsTraced(st, steps, n, c);
    if k.RowRead? { m := n; }
    hide At;
    var row := At(st, steps, b).rows[sha];
    JudgedIsEntitled(row, AccountOf(At(st, steps, m), row.userId), now);
    StoredCovered(st, steps, b, sha);
  }

  // ---- revoked by the account ------------------------------------------------------------------------

  ghost predicate PassAt(st: Sessions, steps: seq<Step>, k: nat, sha: string, t: int) {
    k < |steps| && Passes(At(st, steps, k), CallerOf(steps[k]), steps[k].action, sha, t)
  }

  /** The account shuts out rows of this version and below: it is gone, disabled, or of a higher version. */
  predicate Shut(st: Sessions, user: string, version: int) {
    user in st.accounts ==> !st.accounts[user].active || st.accounts[user].sessionVersion > version
  }

  /** A write that undoes this: the account active again, and of such a version. */
  predicate Undoes(a: Action, user: string, version: int) {
    a.SetAccount? && a.user == user && a.account.active && a.account.sessionVersion <= version
  }

  lemma StepKeepsShut(st: Sessions, s: Step, user: string, version: int)
    requires Shut(st, user, version) && !Undoes(s.action, user, version)
    ensures Shut(Perform(st, CallerOf(s), s.action), user, version)
  {
    hide Judge, GuardHolds;
  }

  lemma {:induction false} ShutStays(st: Sessions, steps: seq<Step>, k: nat, m: nat, user: string, version: int)
    requires k <= m <= |steps| && Shut(At(st, steps, k), user, version)
    requires forall i :: k <= i < m ==> !Undoes(steps[i].action, user, version)
    ensures Shut(At(st, steps, m), user, version)
    decreases m - k
  {
    hide At, Shut, Undoes;
    if k < m {
      ShutStays(st, steps, k, m - 1, user, version);
      AtNext(st, steps, m - 1);
      StepKeepsShut(At(st, steps, m - 1), steps[m - 1], user, version);
    }
  }

  /**
   * Main result on revoking by the account: once it is disabled, or of a higher version than the
   * row, no resolve of the row that reads the account from then on passes, in any history, until
   * a write of the account undoes that. `b` and `m` are the reads of the resolve that passes.
   */
  lemma ShutOutUntilUndone(st: Sessions, steps: seq<Step>, n: nat, sha: string, now: int)
    returns (b: nat, m: nat)
    requires Empty(st) && PassAt(st, steps, n, sha, now)
    ensures m <= n && Span(st, steps, CallerOf(steps[n]), b, m, sha, now)
    ensures NothingBegun(steps, CallerOf(steps[n]), m, n)
    ensures var row := At(st, steps, b).rows[sha];
            forall k: nat :: k <= m && Shut(At(st, steps, k), row.userId, row.sessionVersion) ==>
              exists i :: k <= i < m && Undoes(steps[i].action, row.userId, row.sessionVersion)
  {
    b, m := LiveIsRecentlyUsed(st, steps, n, sha, now);
    hide At, Verdict, Passes, Covered;
    var row := At(st, steps, b).rows[sha];
    forall k: nat | k <= m && Shut(At(st, steps, k), row.userId, row.sessionVersion)
      ensures exists i :: k <= i < m && Undoes(steps[i].action, row.userId, row.sessionVersion)
    {
      if forall i :: k <= i < m ==> !Undoes(steps[i].action, row.userId, row.sessionVersion) {
        ShutStays(st, steps, k, m, row.userId, row.sessionVersion);
      }
    }
  }

  // ---- idled out ---------------------------------------------------------------------------------------

  /** Nothing newer than `seen` is stored for the session, or held by a resolve of it. */
  ghost predicate SeenAt(st: Sessions, sha: string, seen: int) {
    && sha in st.used && (sha in st.rows ==> st.rows[sha].lastSeenAt == seen)
    && forall c :: c in st.calls && st.calls[c].sha == sha ==> st.calls[c].row.lastSeenAt <= seen
  }

  lemma UnusedKeepsSeen(st: Sessions, s: Step, sha: string, seen: int)
    requires SeenAt(st, sha, seen) && forall t :: !Passes(st, CallerOf(s), s.action, sha, t)
    ensures SeenAt(Perform(st, CallerOf(s), s.action), sha, seen)
  {
    UsedGrows(st, s);
    hide Perform, Passes, Judge;
    var st' := Perform(st, CallerOf(s), s.action);
    if sha in st'.rows { SeenChangesByUse(st, s, sha); }
    forall c | c in st'.calls && st'.calls[c].sha == sha ensures st'.calls[c].row.lastSeenAt <= seen {
      if c == CallerOf(s) {
        StepMovesCall(st, c, s.action);
      } else {
        OthersLeaveCalls(st, c, CallerOf(s), s.action);
      }
    }
  }

  lemma UsedGrows(st: Sessions, s: Step)
    ensures st.used <= Perform(st, CallerOf(s), s.action).used
  {
    hide Judge, GuardHolds;
  }

  lemma {:induction false} UnusedStaysSeen(st: Sessions, steps: seq<Step>, k: nat, j: nat, sha: string, seen: int)
    requires k <= j <= |steps| && SeenAt(At(st, steps, k), sha, seen)
    requires forall i, t :: k <= i < j ==> !PassAt(st, steps, i, sha, t)
    ensures SeenAt(At(st, steps, j), sha, seen)
    decreases j - k
  {
    if k < j {
      UnusedStaysSeen(st, steps, k, j - 1, sha, seen);
      AtNext(st, steps, j - 1);
      var before, s := At(st, steps, j - 1), steps[j - 1];
      forall t ensures !Passes(before, CallerOf(s), s.action, sha, t) {
        assert !PassAt(st, steps, j - 1, sha, t);
      }
      UnusedKeepsSeen(before, s, sha, seen);
    }
  }

  lemma PassIsInWindow(st: Sessions, s: Step, sha: string, t: int, seen: int)
    requires Ok(st) && SeenAt(st, sha, seen) && Passes(st, CallerOf(s), s.action, sha, t)
    ensures t <= seen + IDLE_MS
  {
    assert CallOk(st, st.calls[CallerOf(s)]);
  }

  lemma StoredIsSeen(st: Sessions, sha: string)
    requires Ok(st) && sha in st.rows
    ensures SeenAt(st, sha, st.rows[sha].lastSeenAt)
  {
    forall c | c in st.calls && st.calls[c].sha == sha ensures st.calls[c].row.lastSeenAt <= st.rows[sha].lastSeenAt {
      assert CallOk(st, st.calls[c]);
    }
  }

  /** The first resolve that succeeds from state `k` on is within the idle limit of what state `k` stored. */
  lemma {:induction false} FirstPassIsInWindow(st: Sessions, steps: seq<Step>, k: nat, j: nat, sha: string, t: int)
    returns (i: nat, u: int)
    requires Ok(st) && k <= j < |steps| && sha in At(st, steps, k).rows && PassAt(st, steps, j, sha, t)
    ensures k <= i <= j && PassAt(st, steps, i, sha, u) && u <= At(st, steps, k).rows[sha].lastSeenAt + IDLE_MS
    decreases j
  {
    if i0: nat, t0 :| k <= i0 < j && PassAt(st, steps, i0, sha, t0) {
      i, u := FirstPassIsInWindow(st, steps, k, i0, sha, t0);
    } else {
      var seen := At(st, steps, k).rows[sha].lastSeenAt;
      AlwaysOk(st, steps, k);
      AlwaysOk(st, steps, j);
      hide At, Ok, SeenAt;
      StoredIsSeen(At(st, steps, k), sha);
      UnusedStaysSeen(st, steps, k, j, sha, seen);
      hide Passes;
      PassIsInWindow(At(st, steps, j), steps[j], sha, t, seen);
      i, u := j, t;
    }
  }

  /** No resolve of the session that is in flight at `k`, or begins later, is for an instant up to `bound`. */
  ghost predicate BeginsAfter(st: Sessions, steps: seq<Step>, k: nat, sha: string, bound: int)
    requires k <= |steps|
  {
    && CallsAfter(At(st, steps, k), sha, bound)
    && forall j :: k <= j < |steps| && steps[j].action.Begin? && steps[j].action.sha == sha ==>
                     steps[j].action.now > bound
  }

  ghost predicate CallsAfter(st: Sessions, sha: string, bound: int) {
    forall c :: c in st.calls && st.calls[c].sha == sha ==> st.calls[c].now > bound
  }

  lemma StepKeepsCallsAfter(st: Sessions, s: Step, sha: string, bound: int)
    requires CallsAfter(st, sha, bound)
    requires s.action.Begin? && s.action.sha == sha ==> s.action.now > bound
    ensures CallsAfter(Perform(st, CallerOf(s), s.action), sha, bound)
  {
    hide Judge, GuardHolds;
  }

  lemma {:induction false} CallsStayAfter(st: Sessions, steps: seq<Step>, k: nat, j: nat, sha: string, bound: int)
    requires k <= j <= |steps| && BeginsAfter(st, steps, k, sha, bound)
    ensures CallsAfter(At(st, steps, j), sha, bound)
    decreases j - k
  {
    hide At, CallsAfter;
    if k < j {
      CallsStayAfter(st, steps, k, j - 1, sha, bound);
      AtNext(st, steps, j - 1);
      StepKeepsCallsAfter(At(st, steps, j - 1), steps[j - 1], sha, bound);
    }
  }

  /**
   * An idled-out session is over: from a state on in which every resolve of it, in flight or
   * to come, is for an instant past the idle limit, none succeeds again.
   */
  lemma IdledOutIsOver(st: Sessions, steps: seq<Step>, k: nat, j: nat, sha: string, t: int)
    requires Ok(st) && k <= j < |steps| && sha in At(st, steps, k).rows
    requires BeginsAfter(st, steps, k, sha, At(st, steps, k).rows[sha].lastSeenAt + IDLE_MS)
    ensures !PassAt(st, steps, j, sha, t)
  {
    hide At, CallsAfter;
    var bound := At(st, steps, k).rows[sha].lastSeenAt + IDLE_MS;
    if PassAt(st, steps, j, sha, t) {
      var i, u := FirstPassIsInWindow(st, steps, k, j, sha, t);
      CallsStayAfter(st, steps, k, i, sha, bound);
      PassIsOfCall(st, steps, i, sha, u, bound);
    }
  }

  lemma PassIsOfCall(st: Sessions, steps: seq<Step>, i: nat, sha: string, u: int, bound: int)
    requires PassAt(st, steps, i, sha, u) && CallsAfter(At(st, steps, i), sha, bound)
    ensures u > bound
  {
  }

  /** A resolve that was in flight revives a session another one found idle: it counts as use when it began. */
  lemma LateSlideRevives(st: Sessions, c: Caller, sha: string, now: int)
    requires SlideLands(st, c) && st.calls[c].sha == sha && !st.rows[sha].pending
    requires now <= st.calls[c].now + IDLE_MS
    requires now - st.rows[sha].lastSeenAt > IDLE_MS && now <= st.rows[sha].absoluteExpiresAt
    requires AccountOf(st, st.rows[sha].userId) == Some(Account(true, st.rows[sha].sessionVersion))
    ensures Judge(st.rows[sha], AccountOf(st, st.rows[sha].userId), now) == Some(Idle)
    ensures var st' := Perform(st, c, Slide);
            sha in st'.rows && Judge(st'.rows[sha], AccountOf(st', st'.rows[sha].userId), now).None?
  {
  }

  const NOTHING := Sessions(map[], map[], {}, map[])

  /** A session as it is minted for an account in good standing, to last for longer than it may idle. */
  predicate Fresh(row: Session) {
    row.lastSeenAt == row.issuedAt && !row.pending && row.issuedAt + 2 * IDLE_MS < row.absoluteExpiresAt
  }

  function GivesAccount(row: Session): Action { SetAccount(row.userId, Account(true, row.sessionVersion)) }

  /** Used at the last moment by one; found idle by the next, before the first has written; and asked for again. */
  function Revival(sha: string, row: Session): seq<Step> {
    var late := row.issuedAt + IDLE_MS;
    [Foreign(0, Mint(sha, row)), Foreign(0, GivesAccount(row)),
     Foreign(1, Begin(sha, late)), Foreign(1, Meet),
     Foreign(2, Begin(sha, late + 1)), Foreign(2, Meet),
     Foreign(1, Slide),
     Foreign(3, Begin(sha, late + 1)), Foreign(3, Meet)]
  }

  /** It happens, from an empty store on: the same instant is idle for one resolve and passes for the next. */
  lemma InFlightRevives(sha: string, row: Session)
    requires Fresh(row)
    ensures var steps, now := Revival(sha, row), row.issuedAt + IDLE_MS + 1;
            && Span(NOTHING, steps, Other(2), 4, 5, sha, now)
            && Verdict(NOTHING, steps, 4, 5, sha, now) == Some(Idle)
            && PassAt(NOTHING, steps, 8, sha, now)
  {
    var late := row.issuedAt + IDLE_MS;
    RevivalMeets(sha, row);
    hide At, Replay, Perform;
    var one := map[Other(1) := Sliding(sha, late, row)];
    WritesSlide(Revival(sha, row), 6, 1, sha, late, row, one, row);
    Begins(Revival(sha, row), 7, 3, sha, late + 1, row.(lastSeenAt := late), one - {Other(1)});
  }

  lemma RevivalMeets(sha: string, row: Session)
    requires Fresh(row)
    ensures var steps, late := Revival(sha, row), row.issuedAt + IDLE_MS;
            && At(NOTHING, steps, 4).rows == map[sha := row]
            && At(NOTHING, steps, 5).accounts == map[row.userId := Account(true, row.sessionVersion)]
            && At(NOTHING, steps, 6) == Standing(sha, row, map[Other(1) := Sliding(sha, late, row)])
  {
    var steps, late := Revival(sha, row), row.issuedAt + IDLE_MS;
    hide At, Replay, Perform;
    MintedFirst(steps, sha, row);
    Begins(steps, 2, 1, sha, late, row, map[]);
    Meets(steps, 3, 1, sha, late, row, map[Other(1) := RowRead(sha, late, row)], row);
    var one := map[Other(1) := Sliding(sha, late, row)];
    Begins(steps, 4, 2, sha, late + 1, row, one);
    Meets(steps, 5, 2, sha, late + 1, row, one[Other(2) := RowRead(sha, late + 1, row)], row);
    assert one[Other(2) := RowRead(sha, late + 1, row)] - {Other(2)} == one;
  }

  /** One session and its account, and the resolves in flight. */
  function Standing(sha: string, row: Session, calls: map<Caller, Call>): Sessions {
    Sessions(map[sha := row], map[row.userId := Account(true, row.sessionVersion)], {sha}, calls)
  }

  lemma AtStart(st: Sessions, steps: seq<Step>)
    ensures At(st, steps, 0) == st
  {
  }

  lemma MintedFirst(steps: seq<Step>, sha: string, row: Session)
    requires |steps| > 2 && steps[0] == Foreign(0, Mint(sha, row)) && steps[1] == Foreign(0, GivesAccount(row))
    requires row.lastSeenAt == row.issuedAt
    ensures At(NOTHING, steps, 2) == Standing(sha, row, map[])
  {
    hide At, Replay;
    AtStart(NOTHING, steps);
    AtNext(NOTHING, steps, 0);
    AtNext(NOTHING, steps, 1);
  }

  lemma Begins(steps: seq<Step>, k: nat, id: nat, sha: string, now: int, row: Session, calls: map<Caller, Call>)
    requires k < |steps| && steps[k] == Foreign(id, Begin(sha, now))
    requires At(NOTHING, steps, k) == Standing(sha, row, calls)
    ensures At(NOTHING, steps, k + 1) == Standing(sha, row, calls[Other(id) := RowRead(sha, now, row)])
  {
    hide At, Replay;
    AtNext(NOTHING, steps, k);
  }

  lemma Meets(steps: seq<Step>, k: nat, id: nat, sha: string, now: int, row: Session, calls: map<Caller, Call>,
              was: Session)
    requires k < |steps| && steps[k] == Foreign(id, Meet)
    requires At(NOTHING, steps, k) == Standing(sha, row, calls)
    requires Other(id) in calls && calls[Other(id)] == RowRead(sha, now, was) && was.userId == row.userId
    ensures var passes := Judge(was, Some(Account(true, row.sessionVersion)), now).None? && Slides(was, now);
            At(NOTHING, steps, k + 1)
            == Standing(sha, row, if passes then calls[Other(id) := Sliding(sha, now, was)] else calls - {Other(id)})
  {
    hide At, Replay, Judge;
    AtNext(NOTHING, steps, k);
  }

  lemma WritesSlide(steps: seq<Step>, k: nat, id: nat, sha: string, now: int, row: Session, calls: map<Caller, Call>,
                    was: Session)
    requires k < |steps| && steps[k] == Foreign(id, Slide)
    requires At(NOTHING, steps, k) == Standing(sha, row, calls)
    requires Other(id) in calls && calls[Other(id)] == Sliding(sha, now, was)
    ensures At(NOTHING, steps, k + 1)
            == if row.lastSeenAt == was.lastSeenAt
               then Standing(sha, row.(lastSeenAt := now), calls - {Other(id)})
               else Standing(sha, row, calls[Other(id) := SlideLost(sha, now, was)])
  {
    hide At, Replay;
    AtNext(NOTHING, steps, k);
  }

  // ---- the lag -----------------------------------------------------------------------------------------

  /** Step `k` lands a slide of the session to `t`. */
  ghost predicate SlidAt(st: Sessions, steps: seq<Step>, k: nat, sha: string, t: int) {
    k < |steps| && steps[k].action.Slide? && SlideLands(At(st, steps, k), CallerOf(steps[k]))
    && At(st, steps, k).calls[CallerOf(steps[k])].sha == sha && At(st, steps, k).calls[CallerOf(steps[k])].now == t
  }

  ghost predicate Slid(st: Sessions, steps: seq<Step>, k: nat, sha: string) { exists t :: SlidAt(st, steps, k, sha, t) }

  ghost predicate SlidBetween(st: Sessions, steps: seq<Step>, i: nat, j: nat, sha: string) {
    exists k: nat :: i <= k < j && Slid(st, steps, k, sha)
  }

  /** No slide of the session that landed in between is for an instant after `bound`. */
  ghost predicate SlidesUpTo(st: Sessions, steps: seq<Step>, i: nat, j: nat, sha: string, bound: int) {
    forall k: nat, t :: i <= k < j && SlidAt(st, steps, k, sha, t) ==> t <= bound
  }

  /** A step that lands a slide stores its instant; any other step leaves what is stored. */
  lemma SlideStores(st: Sessions, steps: seq<Step>, p: nat, sha: string)
    requires p < |steps| && Ok(At(st, steps, p)) && sha in At(st, steps, p).rows && sha in At(st, steps, p + 1).rows
    ensures var b, b' := At(st, steps, p).rows[sha].lastSeenAt, At(st, steps, p + 1).rows[sha].lastSeenAt;
            if Slid(st, steps, p, sha) then SlidAt(st, steps, p, sha, b') && b' >= b + SLIDE_GRANULARITY_MS
            else b' == b
  {
    hide Judge, GuardHolds, Replay;
    AtNext(st, steps, p);
    hide At;
    var now, c := At(st, steps, p), CallerOf(steps[p]);
    if c in now.calls {
      assert CallOk(now, now.calls[c]);
      assert SlideLands(now, c) && steps[p].action.Slide? && now.calls[c].sha == sha ==>
          SlidAt(st, steps, p, sha, now.calls[c].now);
    }
  }

  /** What is stored after `j` steps, seen from `i`: the newest slide since, or what was stored then. */
  ghost predicate Newest(st: Sessions, steps: seq<Step>, i: nat, j: nat, sha: string)
    requires i <= j <= |steps| && sha in At(st, steps, i).rows && sha in At(st, steps, j).rows
  {
    var a, b := At(st, steps, i).rows[sha].lastSeenAt, At(st, steps, j).rows[sha].lastSeenAt;
    && SlidesUpTo(st, steps, i, j, sha, b)
    && if SlidBetween(st, steps, i, j, sha)
       then b >= a + SLIDE_GRANULARITY_MS && exists k: nat :: i <= k < j && SlidAt(st, steps, k, sha, b)
       else b == a
  }

  lemma {:induction false} NewestSlide(st: Sessions, steps: seq<Step>, i: nat, j: nat, sha: string)
    requires Ok(st) && i <= j <= |steps| && sha in At(st, steps, i).rows && sha in At(st, steps, j).rows
    ensures Newest(st, steps, i, j, sha)
    decreases j - i
  {
    hide Ok, At, SlidAt;
    if i < j {
      AlwaysOk(st, steps, i);
      InUsed(At(st, steps, i), sha);
      ThereBetween(st, steps, i, j - 1, j, sha);
      NewestSlide(st, steps, i, j - 1, sha);
      AlwaysOk(st, steps, j - 1);
      SlideStores(st, steps, j - 1, sha);
      hide Slid;
      NewestSlideStep(st, steps, i, j - 1, sha);
    }
  }

  lemma NewestSlideStep(st: Sessions, steps: seq<Step>, i: nat, p: nat, sha: string)
    requires i <= p < |steps| && sha in At(st, steps, i).rows && sha in At(st, steps, p).rows
    requires sha in At(st, steps, p + 1).rows && Newest(st, steps, i, p, sha)
    requires var b, b' := At(st, steps, p).rows[sha].lastSeenAt, At(st, steps, p + 1).rows[sha].lastSeenAt;
             if Slid(st, steps, p, sha) then SlidAt(st, steps, p, sha, b') && b' >= b + SLIDE_GRANULARITY_MS
             else b' == b
    ensures Newest(st, steps, i, p + 1, sha)
  {
    hide At, SlideLands;
    if Slid(st, steps, p, sha) {
      var b' := At(st, steps, p + 1).rows[sha].lastSeenAt;
      assert SlidAt(st, steps, p, sha, b') && SlidBetween(st, steps, i, p + 1, sha);
    } else {
      assert forall t :: !SlidAt(st, steps, p, sha, t);
    }
  }

  /**
   * One resolve: who made it, for which instant, the steps that read the row and the account,
   * and the step that wrote the slide. A resolve that writes none ends with its second read.
   */
  datatype Use = Use(c: Caller, now: int, began: nat, met: nat, wrote: nat)

  ghost predicate Resolves(st: Sessions, steps: seq<Step>, sha: string, u: Use) {
    && Span(st, steps, u.c, u.began, u.met, sha, u.now)
    && if Verdict(st, steps, u.began, u.met, sha, u.now).None? && Slides(At(st, steps, u.began).rows[sha], u.now)
       then WritesAt(steps, u.c, u.met, u.wrote) else u.wrote == u.met
  }

  ghost predicate WritesAt(steps: seq<Step>, c: Caller, m: nat, w: nat) {
    && m < w < |steps| && CallerOf(steps[w]) == c && steps[w].action == Slide
    && SlideStands(steps, c, m, w)
  }

  /** The resolve judged at step `m` does nothing else before step `w`. */
  ghost predicate SlideStands(steps: seq<Step>, c: Caller, m: nat, w: nat)
    requires w <= |steps|
  {
    forall k :: m < k < w && CallerOf(steps[k]) == c ==> !steps[k].action.Begin? && !steps[k].action.Slide?
  }

  ghost predicate Succeeds(st: Sessions, steps: seq<Step>, sha: string, u: Use) {
    Resolves(st, steps, sha, u) && Verdict(st, steps, u.began, u.met, sha, u.now).None?
  }

  lemma {:induction false} InFlightSlide(st: Sessions, steps: seq<Step>, sha: string, u: Use, k: nat)
    requires Succeeds(st, steps, sha, u) && Slides(At(st, steps, u.began).rows[sha], u.now)
    requires u.met < k <= u.wrote
    ensures CallOf(At(st, steps, k), u.c) == Some(Sliding(sha, u.now, At(st, steps, u.began).rows[sha]))
    decreases k
  {
    hide Replay, Judge, GuardHolds;
    AtNext(st, steps, k - 1);
    hide At;
    var before, s := At(st, steps, k - 1), steps[k - 1];
    if k == u.met + 1 {
      InFlightRead(st, steps, u.c, u.began, u.met);
    } else {
      InFlightSlide(st, steps, sha, u, k - 1);
      if CallerOf(s) != u.c { OthersLeaveCalls(before, u.c, CallerOf(s), s.action); }
    }
  }

  /**
   * Main result on the lag: after a resolve that succeeds, and as long as the row is there, what
   * is stored lags by a granularity or more exactly if another slide of the session landed
   * between its read and its write, and every one that landed since is that old.
   */
  lemma LagExact(st: Sessions, steps: seq<Step>, sha: string, u: Use, n: nat)
    requires Ok(st) && Succeeds(st, steps, sha, u) && u.wrote < n <= |steps| && sha in At(st, steps, n).rows
    ensures u.now - At(st, steps, n).rows[sha].lastSeenAt >= SLIDE_GRANULARITY_MS
            <==> SlidBetween(st, steps, u.began, u.wrote, sha)
                 && SlidesUpTo(st, steps, u.began, n, sha, u.now - SLIDE_GRANULARITY_MS)
  {
    var b, w := u.began, u.wrote;
    AlwaysOk(st, steps, b);
    hide Ok, At;
    InUsed(At(st, steps, b), sha);
    ThereBetween(st, steps, b, w, n, sha);
    NewestSlide(st, steps, b, w, sha);
    NewestSlide(st, steps, b, n, sha);
    LastSeenIncreases(st, steps, w, n, sha);
    if Slides(At(st, steps, b).rows[sha], u.now) {
      InFlightSlide(st, steps, sha, u, w);
      hide Judge, Span;
      if At(st, steps, w).rows[sha].lastSeenAt == At(st, steps, b).rows[sha].lastSeenAt {
        assert SlidAt(st, steps, w, sha, u.now);
      }
    }
  }

  /** Without such an overlap the lag is less than a granularity. */
  lemma QuietLag(st: Sessions, steps: seq<Step>, sha: string, u: Use, n: nat)
    requires Ok(st) && Succeeds(st, steps, sha, u) && u.wrote < n <= |steps| && sha in At(st, steps, n).rows
    requires !SlidBetween(st, steps, u.began, u.wrote, sha)
    ensures u.now - At(st, steps, n).rows[sha].lastSeenAt < SLIDE_GRANULARITY_MS
  {
    hide Succeeds, At, Ok, SlidBetween;
    LagExact(st, steps, sha, u, n);
  }

  /**
   * Of two resolves that read the same row the later one may lose its guard to the earlier one,
   * and then it succeeds without a write.
   */
  lemma LostSlideLags(st: Sessions, c: Caller, d: Caller, sha: string)
    requires SlideLands(st, c) && SlideLands(st, d) && c != d
    requires st.calls[c].sha == st.calls[d].sha == sha && st.calls[c].now > st.calls[c].row.lastSeenAt
    requires st.calls[d].now - st.calls[c].now >= SLIDE_GRANULARITY_MS
    ensures var lost := Perform(Perform(st, c, Slide), d, Slide);
            && Passes(lost, d, Reread, sha, st.calls[d].now) && sha in lost.rows
            && st.calls[d].now - lost.rows[sha].lastSeenAt >= SLIDE_GRANULARITY_MS
  {
  }

  /** Two resolves read one row, for instants a granularity apart; the earlier instant is written first. */
  function Overlap(sha: string, row: Session): seq<Step> {
    var t := row.issuedAt + SLIDE_GRANULARITY_MS;
    [Foreign(0, Mint(sha, row)), Foreign(0, GivesAccount(row)),
     Foreign(1, Begin(sha, t)), Foreign(2, Begin(sha, t + SLIDE_GRANULARITY_MS)),
     Foreign(1, Meet), Foreign(2, Meet),
     Foreign(1, Slide), Foreign(2, Slide), Foreign(2, Reread)]
  }

  /** It happens, from an empty store on: a resolve succeeds, and what is stored lags by the granularity. */
  lemma OverlapLagsFurther(sha: string, row: Session)
    requires Fresh(row)
    ensures var steps, now := Overlap(sha, row), row.issuedAt + 2 * SLIDE_GRANULARITY_MS;
            && Succeeds(NOTHING, steps, sha, Use(Other(2), now, 3, 5, 7))
            && PassAt(NOTHING, steps, 8, sha, now) && sha in At(NOTHING, steps, 9).rows
            && now - At(NOTHING, steps, 9).rows[sha].lastSeenAt == SLIDE_GRANULARITY_MS
  {
    hide At, Replay, PassAt;
    OverlapMeets(sha, row);
    OverlapEnds(sha, row);
  }

  lemma OverlapEnds(sha: string, row: Session)
    requires Fresh(row)
    ensures var steps, now := Overlap(sha, row), row.issuedAt + 2 * SLIDE_GRANULARITY_MS;
            && PassAt(NOTHING, steps, 8, sha, now) && sha in At(NOTHING, steps, 9).rows
            && now - At(NOTHING, steps, 9).rows[sha].lastSeenAt == SLIDE_GRANULARITY_MS
  {
    hide At, Replay, Passes;
    var steps, now := Overlap(sha, row), row.issuedAt + 2 * SLIDE_GRANULARITY_MS;
    OverlapWrites(sha, row);
    RereadPasses(At(NOTHING, steps, 8), Other(2), sha, now);
    AtNext(NOTHING, steps, 8);
  }

  lemma OverlapWrites(sha: string, row: Session)
    requires Fresh(row)
    ensures var steps, t := Overlap(sha, row), row.issuedAt + SLIDE_GRANULARITY_MS;
            At(NOTHING, steps, 8)
            == Standing(sha, row.(lastSeenAt := t), map[Other(2) := SlideLost(sha, t + SLIDE_GRANULARITY_MS, row)])
  {
    var steps, t := Overlap(sha, row), row.issuedAt + SLIDE_GRANULARITY_MS;
    var now := t + SLIDE_GRANULARITY_MS;
    OverlapMeets(sha, row);
    hide At, Replay, Perform, Judge;
    var both := map[Other(1) := Sliding(sha, t, row), Other(2) := Sliding(sha, now, row)];
    WritesSlide(steps, 6, 1, sha, t, row, both, row);
    var one := map[Other(2) := Sliding(sha, now, row)];
    assert both - {Other(1)} == one;
    WritesSlide(steps, 7, 2, sha, now, row.(lastSeenAt := t), one, row);
    assert one[Other(2) := SlideLost(sha, now, row)] == map[Other(2) := SlideLost(sha, now, row)];
  }

  lemma RereadPasses(st: Sessions, c: Caller, sha: string, now: int)
    requires c in st.calls && st.calls[c].SlideLost? && st.calls[c].sha == sha && st.calls[c].now == now
    requires sha in st.rows
    ensures Passes(st, c, Reread, sha, now)
  {
  }

  lemma OverlapMeets(sha: string, row: Session)
    requires Fresh(row)
    ensures var steps, t := Overlap(sha, row), row.issuedAt + SLIDE_GRANULARITY_MS;
            && At(NOTHING, steps, 3).rows == map[sha := row]
            && At(NOTHING, steps, 5).accounts == map[row.userId := Account(true, row.sessionVersion)]
            && At(NOTHING, steps, 6)
               == Standing(sha, row, map[Other(1) := Sliding(sha, t, row),
                                         Other(2) := Sliding(sha, t + SLIDE_GRANULARITY_MS, row)])
  {
    var steps, t := Overlap(sha, row), row.issuedAt + SLIDE_GRANULARITY_MS;
    var u := t + SLIDE_GRANULARITY_MS;
    hide At, Replay, Perform;
    MintedFirst(steps, sha, row);
    Begins(steps, 2, 1, sha, t, row, map[]);
    Begins(steps, 3, 2, sha, u, row, map[Other(1) := RowRead(sha, t, row)]);
    var read := map[Other(1) := RowRead(sha, t, row), Other(2) := RowRead(sha, u, row)];
    Meets(steps, 4, 1, sha, t, row, read, row);
    Meets(steps, 5, 2, sha, u, row, read[Other(1) := Sliding(sha, t, row)], row);
    assert read[Other(1) := Sliding(sha, t, row)][Other(2) := Sliding(sha, u, row)]
        == map[Other(1) := Sliding(sha, t, row), Other(2) := Sliding(sha, u, row)];
  }

  // ---- steady use --------------------------------------------------------------------------------------

  /** What has nothing to do with idling: an active account of the same version, no pre-session, not expired. */
  ghost predicate GoodStanding(st: Sessions, steps: seq<Step>, sha: string, u: Use)
    requires Span(st, steps, u.c, u.began, u.met, sha, u.now)
  {
    var row := At(st, steps, u.began).rows[sha];
    && !row.pending && u.now <= row.absoluteExpiresAt
    && AccountOf(At(st, steps, u.met), row.userId) == Some(Account(true, row.sessionVersion))
  }

  ghost predicate SteadyAt(st: Sessions, steps: seq<Step>, sha: string, uses: seq<Use>, i: nat)
    requires i < |uses|
  {
    var u := uses[i];
    && Resolves(st, steps, sha, u) && GoodStanding(st, steps, sha, u)
    && !SlidBetween(st, steps, u.began, u.wrote, sha)
    && if i == 0 then u.now - At(st, steps, u.began).rows[sha].lastSeenAt <= IDLE_MS
       else uses[i - 1].wrote < u.began && u.now - uses[i - 1].now <= IDLE_MS - SLIDE_GRANULARITY_MS
  }

  /** Resolves that do not overlap, each within the idle limit less one granularity of the one before. */
  ghost predicate Steady(st: Sessions, steps: seq<Step>, sha: string, uses: seq<Use>) {
    forall i: nat :: i < |uses| ==> SteadyAt(st, steps, sha, uses, i)
  }

  /**
   * A session that is used steadily never idles out, whatever else goes on: every resolve
   * passes its checks, and is the use it was meant to be if the row is still there.
   */
  lemma {:induction false} SteadyUseNeverIdlesOut(st: Sessions, steps: seq<Step>, sha: string, uses: seq<Use>, i: nat)
    requires Ok(st) && Steady(st, steps, sha, uses) && i < |uses|
    ensures Succeeds(st, steps, sha, uses[i])
    ensures sha in At(st, steps, uses[i].wrote).rows ==> PassAt(st, steps, uses[i].wrote, sha, uses[i].now)
  {
    hide Ok, At, SlidBetween;
    assert SteadyAt(st, steps, sha, uses, i);
    var u := uses[i];
    if i > 0 {
      SteadyUseNeverIdlesOut(st, steps, sha, uses, i - 1);
      assert SteadyAt(st, steps, sha, uses, i - 1);
      hide Succeeds, Resolves;
      QuietLag(st, steps, sha, uses[i - 1], u.began);
    }
    UndisturbedPasses(st, steps, sha, u);
  }

  lemma UndisturbedPasses(st: Sessions, steps: seq<Step>, sha: string, u: Use)
    requires Ok(st) && Succeeds(st, steps, sha, u) && !SlidBetween(st, steps, u.began, u.wrote, sha)
    ensures sha in At(st, steps, u.wrote).rows ==> PassAt(st, steps, u.wrote, sha, u.now)
  {
    hide Ok, At, SlidBetween;
    if Slides(At(st, steps, u.began).rows[sha], u.now) {
      InFlightSlide(st, steps, sha, u, u.wrote);
      if sha in At(st, steps, u.wrote).rows { NewestSlide(st, steps, u.began, u.wrote, sha); }
    } else {
      InFlightRead(st, steps, u.c, u.began, u.met);
    }
  }
}
