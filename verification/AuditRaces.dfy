/** Reading while others append: what the walks, the verdicts and the probes amount to then. */
module AuditRaces {
  import opened Strings
  import opened AuditChain
  import opened Store
  import opened AuditReader
  import opened AuditPaging
  import opened ChainVerifier

  // ---- the walk ----------------------------------------------------------------------------------------

  lemma WalkedNext(views: seq<Db>, project: string, now: int, n: nat)
    requires n < |views|
    ensures Walked(views[..n + 1], project, now)
            == Partition(views[n], project, now + 1 - n) + Walked(views[..n], project, now)
  {
    hide Partition;
    assert views[..n + 1][..n] == views[..n];
  }

  /** A walk that has got down to month `lo`: a stretch of the chain that ends after `h` entries. */
  ghost predicate WalkSoFar(w: World, all: seq<ChainEntry>, h: nat, lo: int, entries: seq<ChainEntry>) {
    && h <= |all| && entries == all[Min(h, UpTo(w, all, lo))..h]
    && (entries == [] <==> h <= UpTo(w, all, lo))
  }

  /** One more month of a walk, on a chain that may have grown since the month before. */
  lemma WalkStep(w: World, db: Db, project: string, log: seq<ChainEntry>, all: seq<ChainEntry>, h: nat, month: int,
                 entries: seq<ChainEntry>)
    returns (h': nat)
    requires Holds(w, db, project, log) && log <= all && MonthsOrdered(w, all) && h <= |log|
    requires WalkSoFar(w, all, h, month, entries)
    ensures h <= h' <= |log| && WalkSoFar(w, all, h', month - 1, Partition(db, project, month) + entries)
  {
    hide Holds, UpTo, MonthsOrdered, Partition;
    UpToPrefix(w, log, all, month);
    UpToPrefix(w, log, all, month - 1);
    UpToMonotone(w, all, month - 1, month);
    PartitionIsSlice(w, db, project, log, month);
    MonthSliceIs(w, log, month);
    var hi, lo := UpTo(w, log, month), UpTo(w, log, month - 1);
    assert Partition(db, project, month) == log[lo..hi] == all[lo..hi];
    h' := if entries == [] then hi else h;
  }

  ghost predicate WalkRead(w: World, project: string, views: seq<Db>, logs: seq<seq<ChainEntry>>,
                           all: seq<ChainEntry>, least: nat, now: int, n: nat, h: nat)
    requires n <= |views| == |logs|
  {
    && least <= h <= (if n == 0 then least else |logs[n - 1]|)
    && WalkSoFar(w, all, h, now + 1 - n, Walked(views[..n], project, now))
  }

  lemma WalkReadStep(w: World, project: string, views: seq<Db>, logs: seq<seq<ChainEntry>>,
                     all: seq<ChainEntry>, least: nat, now: int, k: nat, g: nat)
    returns (h: nat)
    requires GrowsTo(w, project, views, logs, all) && k < |views| && least <= |logs[0]|
    requires WalkRead(w, project, views, logs, all, least, now, k, g)
    ensures WalkRead(w, project, views, logs, all, least, now, k + 1, h)
  {
    hide GrowsTo, Holds, MonthsOrdered, IdsIncrease, UpTo, Walked, Partition, WalkSoFar;
    GrownAt(w, project, views, logs, all, k);
    WalkedNext(views, project, now, k);
    h := WalkStep(w, views[k], project, logs[k], all, g, now + 1 - k, Walked(views[..k], project, now));
  }

  lemma WalkReadStarts(w: World, project: string, views: seq<Db>, logs: seq<seq<ChainEntry>>,
                       all: seq<ChainEntry>, least: nat, now: int)
    requires |views| == |logs| && least <= UpTo(w, all, now + 1)
    ensures WalkRead(w, project, views, logs, all, least, now, 0, least)
  {
    hide UpTo, Walked, WalkSoFar;
    NothingWalked(w, views, project, all, least, now);
  }

  lemma {:induction false} WalkIsStretch(w: World, project: string, views: seq<Db>, logs: seq<seq<ChainEntry>>,
                                         all: seq<ChainEntry>, least: nat, now: int, n: nat)
    returns (h: nat)
    requires GrowsTo(w, project, views, logs, all) && n <= |views|
    requires least <= UpTo(w, all, now + 1) && (views != [] ==> least <= |logs[0]|)
    ensures WalkRead(w, project, views, logs, all, least, now, n, h)
    decreases n
  {
    hide GrowsTo, WalkRead, UpTo;
    GrownLength(w, project, views, logs, all);
    if n == 0 {
      h := least;
      WalkReadStarts(w, project, views, logs, all, least, now);
    } else {
      var g := WalkIsStretch(w, project, views, logs, all, least, now, n - 1);
      h := WalkReadStep(w, project, views, logs, all, least, now, n - 1, g);
    }
  }

  lemma NothingWalked(w: World, views: seq<Db>, project: string, all: seq<ChainEntry>, h: nat, now: int)
    requires h <= UpTo(w, all, now + 1)
    ensures WalkSoFar(w, all, h, now + 1, Walked(views[..0], project, now))
  {
    hide UpTo;
  }

  /**
   * Main result on the walk: whatever is appended meanwhile, it brings back a stretch of the
   * chain without a gap, which ends where the chain stood at some moment of the walk.
   */
  lemma WalkedStretch(w: World, project: string, views: seq<Db>, logs: seq<seq<ChainEntry>>, all: seq<ChainEntry>,
                      least: nat, now: int, want: int)
    returns (lo: nat, h: nat)
    requires GrowsTo(w, project, views, logs, all) && WithinWalk(w, all, now)
    requires 0 < want <= least <= |all| && (views != [] ==> least <= |logs[0]|)
    requires Stops(views, project, now, want)
    ensures views != [] && least <= h <= |logs[|views| - 1]| <= |all| && lo <= h - want
    ensures Walked(views, project, now) == all[lo..h]
  {
    hide GrowsTo, MonthsOrdered, IdsIncrease, UpTo, Walked;
    InMonthOrder(w, project, views, logs, all);
    NothingBelowWalk(w, all, now, now);
    h := WalkIsStretch(w, project, views, logs, all, least, now, |views|);
    assert views[..|views|] == views;
    lo := Min(h, UpTo(w, all, now + 1 - |views|));
    EmptyWalk(project, now);
    if views != [] { GrownAt(w, project, views, logs, all, |views| - 1); }
  }

  lemma EmptyWalk(project: string, now: int)
    ensures Walked([], project, now) == []
  {
  }

  // ---- the two whole-chain reads -----------------------------------------------------------------------

  /** Reading everything: the head as it was, and a stretch of at least as many entries that may end later. */
  lemma ChronologyIsStretch(w: World, project: string, views: seq<Db>, logs: seq<seq<ChainEntry>>,
                            all: seq<ChainEntry>, now: int, entries: seq<ChainEntry>, head: Option<ChainHead>)
    returns (lo: nat, h: nat)
    requires GrowsTo(w, project, views, logs, all) && WithinWalk(w, all, now) && views != [] && logs[0] != []
    requires ReadsChronology(views, project, now, entries, head)
    ensures head == HeadFor(logs[0]) && |logs[0]| <= h <= |logs[|logs| - 1]| <= |all| && lo <= h - |logs[0]|
    ensures entries == all[lo..h]
  {
    hide MonthsOrdered, IdsIncrease, WithinWalk, Stops, Walked;
    GrownAt(w, project, views, logs, all, 0);
    HeadIsOfLog(w, views[0], project, logs[0]);
    GrowsToTail(w, project, views, logs, all, 1);
    hide GrowsTo;
    lo, h := WalkedStretch(w, project, views[1..], logs[1..], all, |logs[0]|, now, |logs[0]|);
  }

  lemma HeadIsOfLog(w: World, db: Db, project: string, log: seq<ChainEntry>)
    requires Holds(w, db, project, log)
    ensures HeadOf(db, project) == HeadFor(log) && CountOf(HeadOf(db, project)) == |log|
  {
    hide Linked;
  }

  /** The newest `n`: so many entries up to where the chain stood at some moment of the walk. */
  lemma TailIsStretch(w: World, project: string, views: seq<Db>, logs: seq<seq<ChainEntry>>, all: seq<ChainEntry>,
                      now: int, n: nat, total: nat, tail: seq<ChainEntry>)
    returns (lo: nat, h: nat)
    requires GrowsTo(w, project, views, logs, all) && WithinWalk(w, all, now)
    requires 0 < n <= total <= |all| && (views != [] ==> total <= |logs[0]|)
    requires ReadsTail(views, project, now, n, total, tail)
    ensures views != [] && total <= h <= |logs[|views| - 1]| <= |all| && tail == all[h - n..h]
    ensures lo < h && Walked(views, project, now) == all[lo..h] && Stops(views, project, now, n)
  {
    hide GrowsTo, MonthsOrdered, IdsIncrease, WithinWalk, Stops, Walked;
    lo, h := WalkedStretch(w, project, views, logs, all, total, now, n);
  }

  /**
   * A reader fetches the head first and the entries later. The verdict on what it got, against
   * the head it has, is clean exactly when nothing of it was appended after the head was read.
   */
  lemma AppendDuringReadShows(sha: Digest, log: seq<ChainEntry>, n: nat, lo: nat, h: nat, v: Verdict)
    requires Collisionless(sha) && HeldEntries(log) && Linked(sha, "", log) && 0 < n && n + lo <= h <= |log|
    requires IsVerdict(sha, log[lo..h], HeadHash(HeadFor(log[..n])), v)
    ensures Code(v) == 0 <==> h == n
    ensures lo == 0 && n < h ==> v == HeadMismatch(Tip("", log[..h]), Tip("", log[..n]))
  {
    hide IntactAt, Collisionless;
    NoHeadRepeats(sha, log, n, h);
    assert Tip("", log[lo..h]) == Tip("", log[..h]);
    assert log == log[..h] + log[h..];
    LinkedSplits(sha, "", log[..h], log[h..]);
    if lo == 0 {
      assert log[lo..h] == log[..h];
      TipHasNoNewline(sha, log[..h]);
    }
  }

  /** Reading everything is the walk after the read of the head. */
  lemma ChronologyIsWalk(w: World, project: string, views: seq<Db>, log: seq<ChainEntry>, now: int,
                         entries: seq<ChainEntry>, head: Option<ChainHead>)
    requires views != [] && Holds(w, views[0], project, log) && log != []
    requires ReadsChronology(views, project, now, entries, head)
    ensures entries == Walked(views[1..], project, now) && Stops(views[1..], project, now, |log|)
  {
    hide Walked, Stops;
    HeadIsOfLog(w, views[0], project, log);
  }

  /** Read everything, verify it against the head that was read: clean exactly when no append was read with it. */
  lemma RacedVerdict(w: World, project: string, views: seq<Db>, logs: seq<seq<ChainEntry>>, all: seq<ChainEntry>,
                     now: int, entries: seq<ChainEntry>, again: Option<ChainHead>, n: nat, v: Verdict)
    returns (lo: nat, h: nat)
    requires WorldOk(w) && GrowsTo(w, project, views, logs, all) && WithinWalk(w, all, now) && views != []
    requires ReadsChronology(views, project, now, entries, again) && 0 < n <= |logs[0]|
    requires IsVerdict(w.sha, entries, HeadHash(HeadFor(all[..n])), v)
    ensures |logs| == |views| && n <= |logs[0]| <= h <= |logs[|logs| - 1]| <= |all| && (Code(v) == 0 <==> h == n)
    ensures lo < h && entries == all[lo..h] == Walked(views[1..], project, now)
    ensures Stops(views[1..], project, now, |logs[0]|)
    ensures Code(v) == 0 ==> entries == all[..n]
  {
    hide WithinWalk, ReadsChronology, IsVerdict, Collisionless, Linked, GrowsTo, HeldEntries, Code, Walked, Stops;
    GrownAt(w, project, views, logs, all, 0);
    assert logs[0] != [];
    ChronologyIsWalk(w, project, views, logs[0], now, entries, again);
    hide Holds, MonthsOrdered;
    lo, h := ChronologyIsStretch(w, project, views, logs, all, now, entries, again);
    var log := logs[|views| - 1];
    LastIsChain(w, project, views, logs, all);
    assert log[lo..h] == all[lo..h] && log[..n] == all[..n];
    AppendDuringReadShows(w.sha, log, n, lo, h, v);
  }

  lemma LastIsChain(w: World, project: string, views: seq<Db>, logs: seq<seq<ChainEntry>>, all: seq<ChainEntry>)
    requires GrowsTo(w, project, views, logs, all) && views != []
    ensures |logs| == |views|
    ensures var log := logs[|views| - 1]; HeldEntries(log) && Linked(w.sha, "", log) && log <= all
  {
    hide Linked, MonthsOrdered, IdsIncrease, HeldEntries;
  }

  // ---- the probe ---------------------------------------------------------------------------------------

  /** What a process remembers of a chain: a prefix of it, and the hash that ends it. */
  ghost predicate Remembers(log: seq<ChainEntry>, memo: Option<Prefix>) {
    memo.Some? ==> 0 < memo.value.count <= |log| && memo.value.hash == Tip("", log[..memo.value.count])
  }

  /** What is remembered of a chain is remembered of every chain it grows into. */
  lemma RemembersOn(log: seq<ChainEntry>, more: seq<ChainEntry>, memo: Option<Prefix>)
    requires Remembers(log, memo) && log <= more
    ensures Remembers(more, memo)
  {
    if memo.Some? { assert more[..memo.value.count] == log[..memo.value.count]; }
  }

  /** The answer of a probe whose last walk ended after `h` entries, when the head counted `n`. */
  ghost predicate ProbeEnds(all: seq<ChainEntry>, n: nat, h: nat, memo': Option<Prefix>, v: ChainVerification)
    requires n <= |all|
  {
    && v.count == n && (v.verified <==> h == n)
    && memo' == if h == n then Some(Prefix(n, Tip("", all[..n]))) else None
  }

  /** The last walk of a call: the reads from `q` on, which brought back the entries from `lo` up to `h`. */
  ghost predicate LastWalk(views: seq<Db>, project: string, now: int, all: seq<ChainEntry>, q: nat, lo: nat, h: nat) {
    && q <= |views| && lo < h <= |all| && Walked(views[q..], project, now) == all[lo..h]
    && exists want :: 0 < want && Stops(views[q..], project, now, want)
  }

  lemma IsLastWalk(views: seq<Db>, project: string, now: int, all: seq<ChainEntry>, q: nat, lo: nat, h: nat, want: int)
    requires q <= |views| && lo < h <= |all| && Walked(views[q..], project, now) == all[lo..h]
    requires 0 < want && Stops(views[q..], project, now, want)
    ensures LastWalk(views, project, now, all, q, lo, h)
  {
    hide Walked, Stops;
  }

  lemma ChronologyReads(views: seq<Db>, project: string, now: int, entries: seq<ChainEntry>, head: Option<ChainHead>)
    requires ReadsChronology(views, project, now, entries, head)
    ensures views != []
  {
    hide Walked, Stops;
  }

  lemma LastWalkOfRest(views: seq<Db>, project: string, now: int, all: seq<ChainEntry>, p: nat, q: nat, lo: nat, h: nat)
    requires p <= |views| && LastWalk(views[p..], project, now, all, q, lo, h)
    ensures LastWalk(views, project, now, all, p + q, lo, h)
  {
    hide Walked, Stops;
    assert views[p..][q..] == views[p + q..];
  }

  lemma RestartEnds(w: World, project: string, views: seq<Db>, logs: seq<seq<ChainEntry>>, all: seq<ChainEntry>,
                    now: int, n: nat, memo': Option<Prefix>, v: ChainVerification)
    returns (lo: nat, h: nat)
    requires WorldOk(w) && GrowsTo(w, project, views, logs, all) && WithinWalk(w, all, now)
    requires 0 < n <= |all| && (views != [] ==> n <= |logs[0]|)
    requires Restarts(w.sha, views, project, now, HeadFor(all[..n]).value, memo', v)
    ensures views != [] && |logs[0]| <= h <= |logs[|logs| - 1]| <= |all| && ProbeEnds(all, n, h, memo', v)
    ensures LastWalk(views, project, now, all, 1, lo, h)
  {
    hide GrowsTo, WithinWalk, IsVerdict, WorldOk, Code, ReadsChronology, LastWalk, Walked, Stops;
    var head := HeadFor(all[..n]).value;
    var entries: seq<ChainEntry>, again :| ReadsChronology(views, project, now, entries, again)
      && IsVerdict(w.sha, entries, Some(head.hash), v.message)
      && v == ChainVerification(head.count, Code(v.message) == 0, v.message)
      && memo' == (if entries == [] then None
                   else Remembered(v.message, Prefix(|entries|, entries[|entries| - 1].hash)));
    assert views != [] by { ChronologyReads(views, project, now, entries, again); }
    GrownLength(w, project, views, logs, all);
    lo, h := RacedVerdict(w, project, views, logs, all, now, entries, again, n, v.message);
    IsLastWalk(views, project, now, all, 1, lo, h, |logs[0]|);
  }

  /** A remembered prefix that still anchors the tail anchors all of it: nothing was read past the head. */
  lemma AnchoredIsCurrent(sha: Digest, log: seq<ChainEntry>, n: nat, h: nat, cached: Prefix, tail: seq<ChainEntry>)
    requires Collisionless(sha) && HeldEntries(log) && Linked(sha, "", log)
    requires 0 < cached.count <= n <= h <= |log| && cached.hash == Tip("", log[..cached.count])
    requires tail == log[h - (n - cached.count + 1)..h] && Anchored(sha, cached, n, tail)
    ensures h == n
  {
    hide IntactAt, Collisionless, EntryHash;
    var i := h - (n - cached.count + 1);
    assert tail[0] == log[i] && Tip("", log[..i + 1]) == log[i].hash;
    NoHeadRepeats(sha, log, i + 1, cached.count);
  }

  lemma ResumeEnds(sha: Digest, log: seq<ChainEntry>, cached: Prefix, tail: seq<ChainEntry>, memo': Option<Prefix>,
                   v: ChainVerification)
    requires Collisionless(sha) && HeldEntries(log) && Linked(sha, "", log) && 0 < cached.count <= |log|
    requires cached.hash == Tip("", log[..cached.count]) && tail == log[cached.count - 1..]
    requires Resumes(sha, HeadFor(log).value, cached, tail, memo', v)
    ensures v.count == |log| && v.verified && memo' == Some(Prefix(|log|, Tip("", log)))
  {
    hide IntactAt, Collisionless;
    var prefix, suffix := log[..cached.count], tail[1..];
    assert log == prefix + suffix;
    LinkedSplits(sha, "", prefix, suffix);
    ResumedIsFull(sha, prefix, suffix, Some(Tip("", log)), v.message);
    assert IsVerdict(sha, log, Some(Tip("", log)), Intact(|log|));
    VerdictUnique(sha, log, Some(Tip("", log)), v.message, Intact(|log|));
  }

  /** And a tail that ends where the head said anchors the prefix: giving it up means more was read. */
  lemma CurrentIsAnchored(sha: Digest, log: seq<ChainEntry>, n: nat, cached: Prefix, tail: seq<ChainEntry>)
    requires Linked(sha, "", log) && 0 < cached.count <= n <= |log| && cached.hash == Tip("", log[..cached.count])
    requires tail == log[cached.count - 1..n]
    ensures Anchored(sha, cached, n, tail)
  {
    hide EntryHash;
    assert IntactAt(sha, "", log, cached.count - 1) && tail[0] == log[cached.count - 1];
  }

  /** The prefix that a probe remembers and its head covers. */
  predicate Usable(memo: Option<Prefix>, n: nat) { memo.Some? && memo.value.count <= n }

  /**
   * Main result on a probe, whatever is appended while it reads. Its last walk starts at read `q`
   * and brings back the chain up to its entry `h`: the probe fails exactly when that is past the
   * head it had fetched. It remembers the whole chain or nothing, and it never recovers: giving
   * up a remembered prefix to read everything once more ends in failure every time.
   */
  lemma ProbeUnderAppends(w: World, project: string, views: seq<Db>, logs: seq<seq<ChainEntry>>, all: seq<ChainEntry>,
                          now: int, memo: Option<Prefix>, memo': Option<Prefix>, v: ChainVerification)
    returns (q: nat, lo: nat, h: nat)
    requires WorldOk(w) && GrowsTo(w, project, views, logs, all) && WithinWalk(w, all, now) && views != []
    requires logs[0] != [] && Remembers(all, memo)
    requires ProbeReads(w.sha, views, project, now, memo, memo', v)
    ensures 1 <= q && LastWalk(views, project, now, all, q, lo, h)
    ensures |logs[0]| <= h <= |logs[|logs| - 1]| <= |all| && ProbeEnds(all, |logs[0]|, h, memo', v)
    ensures if Usable(memo, |logs[0]|) then v.verified <==> q == 1 else q == 2
    ensures Remembers(all, memo')
  {
    hide GrowsTo, WithinWalk, WorldOk, Restarts, Resumes, EntryHash, ReadsTail, Holds, MonthsOrdered, IdsIncrease,
         Tip, LastWalk;
    GrownAt(w, project, views, logs, all, 0);
    HeadIsOfLog(w, views[0], project, logs[0]);
    var n, head := |logs[0]|, HeadOf(views[0], project);
    assert all[..n] == logs[0];
    if memo.None? || memo.value.count > n {
      q, lo, h := RestartedProbe(w, project, views, logs, all, now, 1, memo', v);
    } else {
      var p: nat, tail :| 1 <= p <= |views|
        && ReadsTail(views[1..p], project, now, n - memo.value.count + 1, n, tail)
        && if Anchored(w.sha, memo.value, n, tail)
           then p == |views| && Resumes(w.sha, head.value, memo.value, tail, memo', v)
           else Restarts(w.sha, views[p..], project, now, head.value, memo', v);
      if Anchored(w.sha, memo.value, n, tail) {
        assert views[1..p] == views[1..];
        q, h := 1, n;
        lo := ResumedProbe(w, project, views, logs, all, now, memo.value, tail, memo', v);
      } else {
        q, lo, h := RestartedProbe(w, project, views, logs, all, now, p, memo', v);
        GivenUpIsPast(w, project, views, logs, all, now, memo.value, p, tail);
      }
    }
    GrownAt(w, project, views, logs, all, |views| - 1);
  }

  /** A probe that reads everything from read `p` on, the head once more first. */
  lemma RestartedProbe(w: World, project: string, views: seq<Db>, logs: seq<seq<ChainEntry>>, all: seq<ChainEntry>,
                       now: int, p: nat, memo': Option<Prefix>, v: ChainVerification)
    returns (q: nat, lo: nat, h: nat)
    requires WorldOk(w) && GrowsTo(w, project, views, logs, all) && WithinWalk(w, all, now)
    requires |logs| == |views| && 1 <= p <= |views| && logs[0] != [] && |logs[0]| <= |all|
    requires Restarts(w.sha, views[p..], project, now, HeadFor(all[..|logs[0]|]).value, memo', v)
    ensures p < |views| && q == p + 1 && LastWalk(views, project, now, all, q, lo, h)
    ensures |logs[0]| <= |logs[p]| <= h <= |logs[|logs| - 1]| <= |all| && ProbeEnds(all, |logs[0]|, h, memo', v)
  {
    hide GrowsTo, WithinWalk, WorldOk, Restarts, LastWalk, ProbeEnds;
    GrowsToTail(w, project, views, logs, all, p);
    lo, h := RestartEnds(w, project, views[p..], logs[p..], all, now, |logs[0]|, memo', v);
    LastWalkOfRest(views, project, now, all, p, 1, lo, h);
    q := p + 1;
  }

  lemma GrowsToFront(w: World, project: string, views: seq<Db>, logs: seq<seq<ChainEntry>>, all: seq<ChainEntry>,
                     p: nat)
    requires GrowsTo(w, project, views, logs, all) && p <= |views|
    ensures |logs| == |views| && GrowsTo(w, project, views[..p], logs[..p], all)
  {
    hide Holds, MonthsOrdered, IdsIncrease;
  }

  /** A prefix that was remembered rightly is given up only when the tail was read past the head. */
  lemma GivenUpIsPast(w: World, project: string, views: seq<Db>, logs: seq<seq<ChainEntry>>, all: seq<ChainEntry>,
                      now: int, cached: Prefix, p: nat, tail: seq<ChainEntry>)
    requires WorldOk(w) && GrowsTo(w, project, views, logs, all) && WithinWalk(w, all, now)
    requires |logs| == |views| && 1 <= p < |views|
    requires 0 < cached.count <= |logs[0]| <= |all| && cached.hash == Tip("", all[..cached.count])
    requires ReadsTail(views[1..p], project, now, |logs[0]| - cached.count + 1, |logs[0]|, tail)
    requires !Anchored(w.sha, cached, |logs[0]|, tail)
    ensures |logs[0]| < |logs[p]|
  {
    hide GrowsTo, WithinWalk, ReadsTail, Anchored, Collisionless, IdsIncrease, MonthsOrdered, Linked, HeldEntries,
         Holds, Stops, Walked;
    var n := |logs[0]|;
    LastIsChain(w, project, views, logs, all);
    GrownAt(w, project, views, logs, all, p);
    GrowsToFront(w, project, views, logs, all, p);
    GrowsToTail(w, project, views[..p], logs[..p], all, 1);
    assert views[..p][1..] == views[1..p] && logs[..p][1..] == logs[1..p];
    var lo, h := TailIsStretch(w, project, views[1..p], logs[1..p], all, now, n - cached.count + 1, n, tail);
    assert logs[1..p][|views[1..p]| - 1] == logs[p - 1];
    if h == n {
      var log := logs[|views| - 1];
      GrownAt(w, project, views, logs, all, |views| - 1);
      assert log[..cached.count] == all[..cached.count] && log[cached.count - 1..n] == all[cached.count - 1..n];
      CurrentIsAnchored(w.sha, log, n, cached, tail);
    }
  }

  lemma ResumedProbe(w: World, project: string, views: seq<Db>, logs: seq<seq<ChainEntry>>, all: seq<ChainEntry>,
                     now: int, cached: Prefix, tail: seq<ChainEntry>, memo': Option<Prefix>, v: ChainVerification)
    returns (lo: nat)
    requires WorldOk(w) && GrowsTo(w, project, views, logs, all) && WithinWalk(w, all, now)
    requires views != [] && |logs| == |views|
    requires 0 < cached.count <= |logs[0]| <= |all| && cached.hash == Tip("", all[..cached.count])
    requires ReadsTail(views[1..], project, now, |logs[0]| - cached.count + 1, |logs[0]|, tail)
    requires Anchored(w.sha, cached, |logs[0]|, tail)
    requires Resumes(w.sha, HeadFor(logs[0]).value, cached, tail, memo', v)
    ensures ProbeEnds(all, |logs[0]|, |logs[0]|, memo', v)
    ensures LastWalk(views, project, now, all, 1, lo, |logs[0]|)
  {
    hide WithinWalk, Collisionless, Resumes, Anchored, ReadsTail, IdsIncrease, MonthsOrdered, Linked, HeldEntries,
         GrowsTo, LastWalk;
    var n := |logs[0]|;
    GrownAt(w, project, views, logs, all, 0);
    FirstIsChain(w, project, views, logs, all);
    lo := CurrentTail(w, project, views, logs, all, now, cached, tail);
    assert logs[0] == all[..n] && logs[0][..cached.count] == all[..cached.count] && logs[0][cached.count - 1..] == tail;
    ResumeEnds(w.sha, logs[0], cached, tail, memo', v);
  }

  lemma FirstIsChain(w: World, project: string, views: seq<Db>, logs: seq<seq<ChainEntry>>, all: seq<ChainEntry>)
    requires GrowsTo(w, project, views, logs, all) && views != []
    ensures |logs| == |views| && HeldEntries(logs[0]) && Linked(w.sha, "", logs[0]) && logs[0] <= all
  {
    hide Linked, MonthsOrdered, IdsIncrease, HeldEntries;
  }

  /** A tail that still starts with the entry that was remembered ends where the head said the chain ends. */
  lemma CurrentTail(w: World, project: string, views: seq<Db>, logs: seq<seq<ChainEntry>>, all: seq<ChainEntry>,
                    now: int, cached: Prefix, tail: seq<ChainEntry>)
    returns (lo: nat)
    requires WorldOk(w) && GrowsTo(w, project, views, logs, all) && WithinWalk(w, all, now)
    requires views != [] && |logs| == |views|
    requires 0 < cached.count <= |logs[0]| <= |all| && cached.hash == Tip("", all[..cached.count])
    requires ReadsTail(views[1..], project, now, |logs[0]| - cached.count + 1, |logs[0]|, tail)
    requires Anchored(w.sha, cached, |logs[0]|, tail)
    ensures tail == all[cached.count - 1..|logs[0]|] && LastWalk(views, project, now, all, 1, lo, |logs[0]|)
  {
    hide WithinWalk, Collisionless, Anchored, ReadsTail, IdsIncrease, MonthsOrdered, Linked, HeldEntries, GrowsTo,
         Holds, Stops, Walked;
    var n := |logs[0]|;
    LastIsChain(w, project, views, logs, all);
    GrowsToTail(w, project, views, logs, all, 1);
    var h;
    lo, h := TailIsStretch(w, project, views[1..], logs[1..], all, now, n - cached.count + 1, n, tail);
    var log := logs[|views| - 1];
    assert log[..cached.count] == all[..cached.count] && log[h - (n - cached.count + 1)..h] == tail;
    AnchoredIsCurrent(w.sha, log, n, h, cached, tail);
  }

  // ---- a first page that ends early ----------------------------------------------------------------------

  /**
   * It happens: the head counts one entry, another lands in the month after while the page is
   * read, and the page of just that one says there is no more.
   */
  lemma FirstPageCutShort(w: World, project: string, before: Db, after: Db, log: seq<ChainEntry>, now: int, limit: nat)
    requires |log| == 2 && MonthsOrdered(w, log) && limit >= 2
    requires Holds(w, before, project, log[..1]) && Holds(w, after, project, log)
    requires MonthOf(w, log[0]) == now - 1 && MonthOf(w, log[1]) == now
    ensures PageReads(w, [before, after, after], project, now, limit, None, [log[1]], false)
    ensures CutShort(w, log, 1, limit, [log[1]], false)
  {
    hide Holds, MonthsOrdered, NewestOf, UpTo, Paged, Partition;
    HeadIsOfLog(w, before, project, log[..1]);
    var views := [after, after];
    assert [before, after, after][1..] == views;
    PagedStep(views, project, now, limit + 1, None, 0);
    PagedStep(views, project, now, limit + 1, None, 1);
    NothingPaged(views, project, now, limit + 1, None);
    assert views[..2] == views && views[..0 + 1] == views[..1];
    NewestOfIs(w, after, project, log, 2, now + 1, limit + 1, None);
    NewestOfIs(w, after, project, log, 2, now, limit + 1, None);
    UpToCuts(w, log, now + 1);
    UpToCuts(w, log, now);
    UpToCuts(w, log, now - 1);
    assert Paged(views, project, now, limit + 1, None) == [log[1]];
  }

  // ---- a probe that loses the race -----------------------------------------------------------------------

  /** The two entries of a month, as the walk of a reader in that month brings them back. */
  lemma WalkOfOneMonth(w: World, project: string, db: Db, log: seq<ChainEntry>, now: int)
    requires |log| == 2 && MonthsOrdered(w, log) && Holds(w, db, project, log)
    requires MonthOf(w, log[0]) == MonthOf(w, log[1]) == now
    ensures Stops([db, db], project, now, 2) && Walked([db, db], project, now) == log
  {
    hide Holds, MonthsOrdered, UpTo, Partition, Walked;
    var views := [db, db];
    assert views[..2] == views && views[..1] == [db] && views[..0] == [];
    EmptyWalk(project, now);
    WalkedNext(views, project, now, 0);
    WalkedNext(views, project, now, 1);
    PartitionIsSlice(w, db, project, log, now + 1);
    PartitionIsSlice(w, db, project, log, now);
    UpToCuts(w, log, now + 1);
    UpToCuts(w, log, now);
    UpToCuts(w, log, now - 1);
  }

  /**
   * It happens: the head counts one entry, another lands in the same month before the walk, and a
   * probe of this intact chain says that its head does not match.
   */
  lemma ProbeLosesRace(w: World, project: string, before: Db, after: Db, log: seq<ChainEntry>, now: int)
    requires WorldOk(w) && |log| == 2 && MonthsOrdered(w, log)
    requires Holds(w, before, project, log[..1]) && Holds(w, after, project, log)
    requires MonthOf(w, log[0]) == MonthOf(w, log[1]) == now
    ensures var m := HeadMismatch(Tip("", log), Tip("", log[..1]));
            ProbeReads(w.sha, [before, after, after, after], project, now, None, None, ChainVerification(1, false, m))
  {
    hide Holds, MonthsOrdered, Walked, Stops, Collisionless, HeldEntries, Linked, MonthOf;
    HeadIsOfLog(w, before, project, log[..1]);
    HeadIsOfLog(w, after, project, log);
    WalkOfOneMonth(w, project, after, log, now);
    assert [before, after, after, after][1..] == [after, after, after] && [after, after, after][1..] == [after, after];
    assert ReadsChronology([after, after, after], project, now, log, HeadFor(log));
    HeldIsLinked(w, after, project, log);
    NoHeadRepeats(w.sha, log, 1, 2);
    assert log[..2] == log;
    TipHasNoNewline(w.sha, log);
  }

  lemma HeldIsLinked(w: World, db: Db, project: string, log: seq<ChainEntry>)
    requires Holds(w, db, project, log)
    ensures HeldEntries(log) && Linked(w.sha, "", log)
  {
    hide HeldEntries, Linked;
  }
}
