/**
 * The readiness probe: verify a project's chain, re-hashing only what was not verified
 * before, and answer what a full verification would have answered.
 */
module ChainVerifier {
  import opened Strings
  import opened AuditChain
  import opened Store
  import opened AuditReader

  /** How far a chain has been verified: so many entries, the last of them with this hash. */
  datatype Prefix = Prefix(count: nat, hash: string)

  datatype ChainVerification = ChainVerification(count: nat, verified: bool, message: Verdict)

  /** The remembered prefix is still what is stored: it links from genesis to the remembered hash. */
  ghost predicate Unchanged(sha: Digest, es: seq<ChainEntry>, p: Prefix) {
    p.count <= |es| ==> 0 < p.count && Linked(sha, "", es[..p.count]) && Tip("", es[..p.count]) == p.hash
  }

  /** The answer of a full verification of `es` under `head`. */
  ghost predicate Answers(sha: Digest, es: seq<ChainEntry>, head: Option<ChainHead>, v: ChainVerification) {
    && IsVerdict(sha, es, HeadHash(head), v.message)
    && v.count == |es|
    && v.verified == (Code(v.message) == 0 || es == [])
  }

  // ---- resuming behind a verified prefix ---------------------------------------------------------

  /** What `suffix` looks like to a reader who trusts that everything before it ended in `hash`. */
  ghost predicate IsResumedVerdict(sha: Digest, hash: string, suffix: seq<ChainEntry>, total: nat,
                                   head: Option<string>, v: Verdict) {
    match v
    case BrokenAt(id) =>
      exists i :: 0 <= i < |suffix| && !IntactAt(sha, hash, suffix, i) && suffix[i].content.id == id
                  && forall k :: 0 <= k < i ==> IntactAt(sha, hash, suffix, k)
    case HeadMismatch(computed, h) =>
      Linked(sha, hash, suffix) && head == Some(h) && h != Tip(hash, suffix)
      && computed == (if Tip(hash, suffix) == "" then "(empty)" else Tip(hash, suffix))
    case Intact(n) =>
      Linked(sha, hash, suffix) && n == total && (head.Some? ==> head.value == Tip(hash, suffix))
  }

  method VerifySuffix(sha: Digest, hash: string, suffix: seq<ChainEntry>, total: nat, head: string) returns (v: Verdict)
    ensures IsResumedVerdict(sha, hash, suffix, total, Some(head), v)
  {
    var prevHash := hash;
    for i := 0 to |suffix|
      invariant prevHash == Tip(hash, suffix[..i])
      invariant forall k :: 0 <= k < i ==> IntactAt(sha, hash, suffix, k)
    {
      var e := suffix[i];
      if e.prevHash != prevHash || e.hash != EntryHash(sha, prevHash, e.content) { return BrokenAt(e.content.id); }
      prevHash := e.hash;
    }
    assert suffix[..|suffix|] == suffix;
    if prevHash != head { return HeadMismatch(if prevHash == "" then "(empty)" else prevHash, head); }
    return Intact(total);
  }

  lemma ResumedCheck(sha: Digest, prefix: seq<ChainEntry>, suffix: seq<ChainEntry>, i: nat)
    requires Linked(sha, "", prefix) && i < |prefix + suffix|
    ensures IntactAt(sha, "", prefix + suffix, i)
            <==> (i >= |prefix| ==> IntactAt(sha, Tip("", prefix), suffix, i - |prefix|))
  {
    hide EntryHash;
    if i < |prefix| {
      assert (prefix + suffix)[..i] == prefix[..i];
      assert IntactAt(sha, "", prefix, i);
    } else {
      assert (prefix + suffix)[..i] == prefix + suffix[..i - |prefix|];
    }
  }

  lemma BrokenSuffix(sha: Digest, prefix: seq<ChainEntry>, suffix: seq<ChainEntry>, head: Option<string>, i: nat)
    requires Linked(sha, "", prefix) && i < |suffix| && !IntactAt(sha, Tip("", prefix), suffix, i)
    requires forall k :: 0 <= k < i ==> IntactAt(sha, Tip("", prefix), suffix, k)
    ensures IsVerdict(sha, prefix + suffix, head, BrokenAt(suffix[i].content.id))
  {
    hide IntactAt;
    forall k | 0 <= k < |prefix| + i ensures IntactAt(sha, "", prefix + suffix, k) {
      ResumedCheck(sha, prefix, suffix, k);
    }
    ResumedCheck(sha, prefix, suffix, |prefix| + i);
    assert (prefix + suffix)[|prefix| + i] == suffix[i];
  }

  /** Behind a prefix that links from genesis, the resumed verdict is the full one. */
  lemma ResumedIsFull(sha: Digest, prefix: seq<ChainEntry>, suffix: seq<ChainEntry>, head: Option<string>, v: Verdict)
    requires Linked(sha, "", prefix)
    requires IsResumedVerdict(sha, Tip("", prefix), suffix, |prefix + suffix|, head, v)
    ensures IsVerdict(sha, prefix + suffix, head, v)
  {
    hide IntactAt;
    if v.BrokenAt? {
      var i: nat :| i < |suffix| && !IntactAt(sha, Tip("", prefix), suffix, i) && suffix[i].content.id == v.badUlid
                    && forall k :: 0 <= k < i ==> IntactAt(sha, Tip("", prefix), suffix, k);
      BrokenSuffix(sha, prefix, suffix, head, i);
    } else {
      LinkedSplits(sha, "", prefix, suffix);
    }
  }

  /**
   * Resuming behind entry number `c` and starting over agree exactly when the entries up to
   * `c` still link from genesis: a change further down that leaves entry `c` alone is what a
   * resumed verification does not see.
   */
  lemma ResumingAgreesIff(sha: Digest, es: seq<ChainEntry>, c: nat, head: Option<string>, full: Verdict,
                          resumed: Verdict)
    requires 0 < c <= |es|
    requires forall i, j :: 0 <= i < j < |es| ==> es[i].content.id != es[j].content.id
    requires IsVerdict(sha, es, head, full)
    requires IsResumedVerdict(sha, es[c - 1].hash, es[c..], |es|, head, resumed)
    ensures full == resumed <==> Linked(sha, "", es[..c])
  {
    hide IntactAt;
    assert es == es[..c] + es[c..];
    if Linked(sha, "", es[..c]) {
      ResumedIsFull(sha, es[..c], es[c..], head, resumed);
      VerdictUnique(sha, es, head, full, resumed);
    } else {
      PrefixBreaks(sha, es, c, head, full);
    }
  }

  lemma PrefixBreaks(sha: Digest, es: seq<ChainEntry>, c: nat, head: Option<string>, full: Verdict)
    requires c <= |es| && IsVerdict(sha, es, head, full) && !Linked(sha, "", es[..c])
    ensures full.BrokenAt? && exists i :: 0 <= i < c && es[i].content.id == full.badUlid
  {
    hide EntryHash;
    var j :| 0 <= j < c && !IntactAt(sha, "", es[..c], j);
    assert es[..c][..j] == es[..j];
    assert !IntactAt(sha, "", es, j);
  }

  // ---- the probe -------------------------------------------------------------------------------------

  /** The stored entries are what the head counts, and what was verified of them is unchanged. */
  ghost predicate Resumable(sha: Digest, es: seq<ChainEntry>, head: Option<ChainHead>, memo: Option<Prefix>) {
    && |es| == (if head.Some? then head.value.count else 0)
    && (memo.Some? ==> Unchanged(sha, es, memo.value))
  }

  /** One probe of `es` under `head`: the full answer, and what is remembered of it. */
  ghost predicate ProbeStep(sha: Digest, es: seq<ChainEntry>, head: Option<ChainHead>, memo: Option<Prefix>,
                            memo': Option<Prefix>, v: ChainVerification) {
    Resumable(sha, es, head, memo) ==>
      && Answers(sha, es, head, v)
      && Resumable(sha, es, head, memo')
      && (if es == [] then memo' == memo
          else memo' == if v.verified then Some(Prefix(v.count, head.value.hash)) else None)
  }

  function MemoOf(memo: map<string, Prefix>, project: string): Option<Prefix> {
    if project in memo then Some(memo[project]) else None
  }

  /** The remembered prefix can be built on: the entry at its end is there, and hashes to what is remembered. */
  predicate Anchored(sha: Digest, cached: Prefix, total: nat, tail: seq<ChainEntry>) {
    && tail != [] && tail[0].hash == cached.hash && EntryHash(sha, tail[0].prevHash, tail[0].content) == cached.hash
    && |tail| == total - cached.count + 1
  }

  function Remembered(v: Verdict, p: Prefix): Option<Prefix> { if Code(v) == 0 then Some(p) else None }

  /** What a resumed probe concludes from the tail it read. */
  ghost predicate Resumes(sha: Digest, head: ChainHead, cached: Prefix, tail: seq<ChainEntry>,
                          memo': Option<Prefix>, v: ChainVerification)
    requires tail != []
  {
    && IsResumedVerdict(sha, cached.hash, tail[1..], head.count, Some(head.hash), v.message)
    && v == ChainVerification(head.count, Code(v.message) == 0, v.message)
    && memo' == Remembered(v.message, Prefix(head.count, head.hash))
  }

  /** What a full probe concludes from what it read under the head it has. */
  ghost predicate Restarts(sha: Digest, views: seq<Db>, project: string, now: int, head: ChainHead,
                           memo': Option<Prefix>, v: ChainVerification) {
    exists entries: seq<ChainEntry>, again :: ReadsChronology(views, project, now, entries, again)
      && IsVerdict(sha, entries, Some(head.hash), v.message)
      && v == ChainVerification(head.count, Code(v.message) == 0, v.message)
      && memo' == (if entries == [] then None
                   else Remembered(v.message, Prefix(|entries|, entries[|entries| - 1].hash)))
  }

  /** What a probe amounts to, by what each of its reads saw. */
  ghost predicate ProbeReads(sha: Digest, views: seq<Db>, project: string, now: int, memo: Option<Prefix>,
                             memo': Option<Prefix>, v: ChainVerification) {
    views != [] &&
    var head := HeadOf(views[0], project);
    var total := CountOf(head);
    if total == 0 then
      && |views| == 1 && memo' == memo && IsVerdict(sha, [], HeadHash(head), v.message)
      && v == ChainVerification(0, true, v.message)
    else if memo.None? || memo.value.count > total then Restarts(sha, views[1..], project, now, head.value, memo', v)
    else exists p: nat, tail :: 1 <= p <= |views|
           && ReadsTail(views[1..p], project, now, total - memo.value.count + 1, total, tail)
           && if Anchored(sha, memo.value, total, tail)
              then p == |views| && Resumes(sha, head.value, memo.value, tail, memo', v)
              else Restarts(sha, views[p..], project, now, head.value, memo', v)
  }

  /** Verify everything there is under the head that was read, and say what to remember. */
  method VerifyAll(w: World, store: ReadStore, project: string, now: int, head: ChainHead)
    returns (memo: Option<Prefix>, v: ChainVerification)
    modifies store
    ensures old(store.seen) <= store.seen
    ensures Restarts(w.sha, Views(old(store.seen), store.seen), project, now, head, memo, v)
    ensures old(store.script) == [] ==> Still(old(store.db), Views(old(store.seen), store.seen))
  {
    hide IsVerdict, ReadsChronology, Code;
    var entries, again := ReadAuditChronological(store, project, now);
    var verification := VerifyChain(w.sha, entries, Some(head.hash));
    memo := if Code(verification) == 0 && entries != []
            then Some(Prefix(|entries|, entries[|entries| - 1].hash)) else None;
    v := ChainVerification(head.count, Code(verification) == 0, verification);
  }

  /** Try to build on the remembered prefix: `None` if its end is not what was remembered. */
  method VerifyNew(w: World, store: ReadStore, project: string, now: int, head: ChainHead, cached: Prefix)
    returns (done: Option<(Option<Prefix>, ChainVerification)>, ghost tail: seq<ChainEntry>)
    requires cached.count <= head.count
    modifies store
    ensures old(store.seen) <= store.seen
    ensures ReadsTail(Views(old(store.seen), store.seen), project, now, head.count - cached.count + 1, head.count, tail)
    ensures done.Some? <==> Anchored(w.sha, cached, head.count, tail)
    ensures done.Some? ==> Resumes(w.sha, head, cached, tail, done.value.0, done.value.1)
    ensures old(store.script) == [] ==>
              store.script == [] && store.db == old(store.db)
              && Still(old(store.db), Views(old(store.seen), store.seen))
  {
    hide EntryHash, IsResumedVerdict, ReadsTail, Code;
    var read := ReadAuditTail(store, project, now, head.count - cached.count + 1, head.count);
    tail := read;
    if read == [] || read[0].hash != cached.hash
       || EntryHash(w.sha, read[0].prevHash, read[0].content) != cached.hash
       || |read| != head.count - cached.count + 1
    {
      return None, tail;
    }
    var message := VerifySuffix(w.sha, cached.hash, read[1..], head.count, head.hash);
    var memo := if Code(message) == 0 then Some(Prefix(head.count, head.hash)) else None;
    return Some((memo, ChainVerification(head.count, Code(message) == 0, message))), tail;
  }

  /** Per project, how far this process has verified. */
  class ProbeMemo {
    var verified: map<string, Prefix>

    constructor ()
      ensures verified == map[]
    {
      verified := map[];
    }

    method Remember(project: string, memo: Option<Prefix>)
      modifies this
      ensures MemoOf(verified, project) == memo && verified - {project} == old(verified) - {project}
    {
      verified := if memo.Some? then verified[project := memo.value] else verified - {project};
    }

    method VerifyProjectChain(w: World, store: ReadStore, project: string, now: int) returns (v: ChainVerification)
      modifies this, store
      ensures old(store.seen) < store.seen
      ensures ProbeReads(w.sha, Views(old(store.seen), store.seen), project, now,
                         MemoOf(old(verified), project), MemoOf(verified, project), v)
      ensures verified - {project} == old(verified) - {project}
      ensures old(store.script) == [] ==> Still(old(store.db), Views(old(store.seen), store.seen))
    {
      hide IsVerdict, ReadsTail, Code, Resumes, Restarts, Anchored, Views, Still;
      ghost var past := store.seen;
      var head := store.GetHead(project);
      ghost var seen1 := store.seen;
      OneView(past, store.db);
      if head.None? || head.value.count == 0 {
        var verdict := VerifyChain(w.sha, [], HeadHash(head));
        return ChainVerification(0, true, verdict);
      }
      if project in verified && verified[project].count <= head.value.count {
        var done, tail := VerifyNew(w, store, project, now, head.value, verified[project]);
        FirstView(past, seen1, store.seen, store.seen);
        if old(store.script) == [] { StillTwice(old(store.db), past, seen1, store.seen); }
        if done.Some? {
          Remember(project, done.value.0);
          return done.value.1;
        }
      }
      ghost var seen2 := store.seen;
      var memo;
      memo, v := VerifyAll(w, store, project, now, head.value);
      Remember(project, memo);
      FirstView(past, seen1, seen2, store.seen);
      if old(store.script) == [] { StillTwice(old(store.db), past, seen2, store.seen); }
    }
  }

  lemma OneView(past: seq<Db>, db: Db)
    ensures Views(past, past + [db]) == [db] && Still(db, [db])
  {
  }

  lemma FirstView(past: seq<Db>, seen1: seq<Db>, seen2: seq<Db>, now: seq<Db>)
    requires past <= seen1 <= seen2 <= now && |seen1| == |past| + 1
    ensures |Views(past, now)| == |now| - |past| && Views(past, now)[0] == seen1[|past|]
    ensures Views(past, now)[1..|seen2| - |past|] == Views(seen1, seen2)
    ensures Views(past, now)[|seen2| - |past|..] == Views(seen2, now)
    ensures seen2 == seen1 ==> Views(past, now)[1..] == Views(seen1, now)
  {
    ViewsBetween(past, seen1, seen2, now);
  }

  // ---- a probe of a store that stands still ----------------------------------------------------------

  /** What a full read yields then: everything reachable, when the head counts just that. */
  ghost predicate ChronologyIs(es: seq<ChainEntry>, head: Option<ChainHead>, entries: seq<ChainEntry>) {
    head.Some? && head.value.count == |es| ==> entries == es
  }

  /** And a tail read: the newest `n` of what is reachable, when there are so many. */
  ghost predicate TailIs(es: seq<ChainEntry>, n: int, total: int, tail: seq<ChainEntry>) {
    0 < n <= total && n <= |es| ==> tail == es[|es| - n..]
  }

  /** While nothing changes, a probe is one step on what is reachable: the full answer, and what to remember of it. */
  lemma StillProbe(sha: Digest, db: Db, views: seq<Db>, project: string, now: int, memo: Option<Prefix>,
                   memo': Option<Prefix>, v: ChainVerification)
    requires Still(db, views) && ProbeReads(sha, views, project, now, memo, memo', v)
    ensures ProbeStep(sha, Reachable(db, project, now), HeadOf(db, project), memo, memo', v)
  {
    hide Reachable, Resumable, ProbeStep, EntryHash, IsVerdict, IsResumedVerdict, TailIs, ChronologyIs, ReadsTail,
         ReadsChronology, Code, Resumes, Restarts;
    var es, head := Reachable(db, project, now), HeadOf(db, project);
    var total := CountOf(head);
    assert views[0] == db;
    if total == 0 {
      EmptyStep(sha, es, head, memo, v.message);
    } else if memo.None? || memo.value.count > total {
      StillRestart(sha, db, views[1..], project, now, head.value, memo, memo', v);
    } else {
      var p: nat, tail :| 1 <= p <= |views|
        && ReadsTail(views[1..p], project, now, total - memo.value.count + 1, total, tail)
        && if Anchored(sha, memo.value, total, tail)
           then p == |views| && Resumes(sha, head.value, memo.value, tail, memo', v)
           else Restarts(sha, views[p..], project, now, head.value, memo', v);
      if Anchored(sha, memo.value, total, tail) {
        assert Still(db, views[1..p]);
        TailOfStill(db, views[1..p], project, now, total - memo.value.count + 1, total, tail);
        ResumedStep(sha, es, head, memo.value, tail, memo', v);
      } else {
        StillRestart(sha, db, views[p..], project, now, head.value, memo, memo', v);
      }
    }
  }

  lemma TailOfStill(db: Db, views: seq<Db>, project: string, now: int, n: int, total: int, tail: seq<ChainEntry>)
    requires Still(db, views) && ReadsTail(views, project, now, n, total, tail)
    ensures TailIs(Reachable(db, project, now), n, total, tail)
  {
    hide Reachable, ReadsTail;
    StillTail(db, views, project, now, n, total, tail);
  }

  lemma StillRestart(sha: Digest, db: Db, views: seq<Db>, project: string, now: int, head: ChainHead,
                     memo: Option<Prefix>, memo': Option<Prefix>, v: ChainVerification)
    requires Still(db, views) && Restarts(sha, views, project, now, head, memo', v)
    requires HeadOf(db, project) == Some(head) && head.count > 0
    ensures ProbeStep(sha, Reachable(db, project, now), HeadOf(db, project), memo, memo', v)
  {
    hide Reachable, ProbeStep, IsVerdict, ReadsChronology, Code;
    var entries: seq<ChainEntry>, again :| ReadsChronology(views, project, now, entries, again)
      && IsVerdict(sha, entries, Some(head.hash), v.message)
      && v == ChainVerification(head.count, Code(v.message) == 0, v.message)
      && memo' == (if entries == [] then None
                   else Remembered(v.message, Prefix(|entries|, entries[|entries| - 1].hash)));
    StillChronology(db, views, project, now, entries, again);
    FullStep(sha, Reachable(db, project, now), Some(head), memo, entries, v.message);
  }

  lemma EmptyStep(sha: Digest, es: seq<ChainEntry>, head: Option<ChainHead>, memo: Option<Prefix>, message: Verdict)
    requires CountOf(head) == 0 && IsVerdict(sha, [], HeadHash(head), message)
    ensures ProbeStep(sha, es, head, memo, memo, ChainVerification(0, true, message))
  {
  }

  lemma FullStep(sha: Digest, es: seq<ChainEntry>, head: Option<ChainHead>, memo: Option<Prefix>,
                 entries: seq<ChainEntry>, message: Verdict)
    requires head.Some? && head.value.count > 0 && ChronologyIs(es, head, entries)
    requires IsVerdict(sha, entries, HeadHash(head), message)
    ensures ProbeStep(sha, es, head, memo,
                      if Code(message) == 0 && entries != []
                      then Some(Prefix(|entries|, entries[|entries| - 1].hash)) else None,
                      ChainVerification(head.value.count, Code(message) == 0, message))
  {
    assert es[..|es|] == es;
  }

  lemma ResumedStep(sha: Digest, es: seq<ChainEntry>, head: Option<ChainHead>, cached: Prefix,
                    tail: seq<ChainEntry>, memo': Option<Prefix>, v: ChainVerification)
    requires head.Some? && cached.count <= head.value.count && Anchored(sha, cached, head.value.count, tail)
    requires TailIs(es, head.value.count - cached.count + 1, head.value.count, tail)
    requires Resumes(sha, head.value, cached, tail, memo', v)
    ensures ProbeStep(sha, es, head, Some(cached), memo', v)
  {
    hide IntactAt, IsVerdict, EntryHash;
    if Resumable(sha, es, head, Some(cached)) && es != [] {
      var prefix, suffix := es[..cached.count], tail[1..];
      assert es == prefix + suffix;
      ResumedIsFull(sha, prefix, suffix, HeadHash(head), v.message);
      assert (Code(v.message) == 0) == v.message.Intact?;
      if v.message.Intact? {
        LinkedSplits(sha, "", prefix, suffix);
        assert es[..|es|] == es;
      }
    }
  }

  // ---- over a run of appends and probes --------------------------------------------------------------

  /** Probes of a chain that only grows, by whatever entries, starting with an empty memo. */
  ghost predicate ProbeRun(sha: Digest, chains: seq<seq<ChainEntry>>, heads: seq<Option<ChainHead>>,
                           memos: seq<Option<Prefix>>, answers: seq<ChainVerification>) {
    && |heads| == |chains| == |answers| && |memos| == |chains| + 1 && memos[0] == None
    && (forall i, j :: 0 <= i <= j < |chains| ==> chains[i] <= chains[j])
    && (forall k :: 0 <= k < |chains| ==> |chains[k]| == if heads[k].Some? then heads[k].value.count else 0)
    && (forall k :: 0 <= k < |chains| ==> ProbeStep(sha, chains[k], heads[k], memos[k], memos[k + 1], answers[k]))
  }

  lemma GrowthKeepsMemo(sha: Digest, es: seq<ChainEntry>, es': seq<ChainEntry>, p: Prefix)
    requires Unchanged(sha, es, p) && p.count <= |es| && es <= es'
    ensures Unchanged(sha, es', p)
  {
    hide Linked;
    assert es'[..p.count] == es[..p.count];
  }

  lemma {:induction false} MemoIsPrefix(sha: Digest, chains: seq<seq<ChainEntry>>, heads: seq<Option<ChainHead>>,
                                        memos: seq<Option<Prefix>>, answers: seq<ChainVerification>, k: nat)
    requires ProbeRun(sha, chains, heads, memos, answers) && k < |chains|
    ensures Resumable(sha, chains[k], heads[k], memos[k]) && (memos[k].Some? ==> memos[k].value.count <= |chains[k]|)
  {
    hide Unchanged, IsVerdict;
    if k > 0 {
      MemoIsPrefix(sha, chains, heads, memos, answers, k - 1);
      assert ProbeStep(sha, chains[k - 1], heads[k - 1], memos[k - 1], memos[k], answers[k - 1]);
      assert chains[k - 1] <= chains[k];
      if memos[k].Some? { GrowthKeepsMemo(sha, chains[k - 1], chains[k], memos[k].value); }
    }
  }

  /**
   * Main result on the probe: over every run of appends and probes, each probe answers what
   * a full verification at that moment answers, whatever the appended entries are.
   */
  lemma EveryProbeIsFull(sha: Digest, chains: seq<seq<ChainEntry>>, heads: seq<Option<ChainHead>>,
                         memos: seq<Option<Prefix>>, answers: seq<ChainVerification>, k: nat, full: Verdict)
    requires ProbeRun(sha, chains, heads, memos, answers) && k < |chains|
    requires IsVerdict(sha, chains[k], HeadHash(heads[k]), full)
    ensures answers[k].message == full && (answers[k].verified <==> Code(full) == 0 || chains[k] == [])
  {
    hide Resumable;
    MemoIsPrefix(sha, chains, heads, memos, answers, k);
    assert ProbeStep(sha, chains[k], heads[k], memos[k], memos[k + 1], answers[k]);
    VerdictUnique(sha, chains[k], HeadHash(heads[k]), full, answers[k].message);
  }
}
