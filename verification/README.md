# Verified model of the change-control portal's protocols

A Dafny model of five parts of the repository, and proofs of what they guarantee.

1. **The audit chain.** Every project has one hash-chained log. Many writers append to it at
   once; each reads the chain head, prepares an entry hashed over its predecessor, and commits
   entry, head and its own writes in one conditional batch. Readers walk month partitions,
   page by the id of the last entry seen, and verify incrementally from a memo.
2. **Settlement and sessions** over the same kind of store: compare-and-set protocols that
   race with cancels, revocations and each other.
3. **Catalog agreement.** A comparison of two operation definitions that ignores presentation,
   and the recursive validator whose verdicts it has to preserve.
4. **Drift proposals.** A non-reentrant runner that collapses queued versions, and the
   reconciler that brings stored proposals in line with a fresh set.
5. **The importer.** A heredoc-aware line scanner that has to invert its printer, and a label
   allocator whose output the next tool has to accept.

`dafny verify dfyconfig.toml` checks everything. No file needs another tool.

## How the pieces are modelled

| files | what |
|---|---|
| `Strings`, `Sorting`, `Json`, `JsonProofs`, `JsonReader` | code-unit order, stable sorting, JSON values, their canonical text, and a reader of JSON after RFC 8259 that gives them back |
| `AuditChain`, `HashedText`, `Store` | entries, hashes, verification; what the hash is taken over; rows, heads, the all-or-nothing batch, `recordIn` |
| `AuditProtocol`, `AuditClock`, `AuditHistory` | writers as steps of a state machine; runs, runs under a clock that never steps back, and pages and probes read while a run goes on |
| `AsyncStore`, `AsyncHistory`, `AuditWriters` | a store that others keep changing, what its history says about one caller, and the two retry loops over it |
| `Cooling`, `CoolingRuns`, `CoolingCalls` | the settle of one request, what every history of settles and cancels keeps, the retry loop |
| `Ulid`, `AuditReader`, `AuditPaging`, `ChainVerifier`, `AuditRaces` | ids and time, the month walk, pages, the incremental probe, and all of them while others append |
| `Sessions`, `SessionRuns`, `SessionCalls` | resolves and writes as steps of a state machine, what every history keeps, and the calls themselves |
| `Manifests`, `CatalogSkew`, `CatalogAgreement` | the validator, the comparison, and why the second protects the first |
| `HclText`, `Payloads`, `PayloadProofs`, `PayloadGuard`, `PayloadAttach` | the scanner, its printer, the stateful guard, what is published |
| `Labels`, `Discovery`, `GenImports`, `ImporterChain` | labels, the record loop, the import blocks, and the tools one after another |
| `DriftRunner`, `DriftReconcile` | the runner and the reconciler |

*Concurrency.* A synchronous segment between two awaits is one step. `AuditProtocol` has the
writers as interleaved steps and proves what every run keeps. The methods that contain loops
over awaited calls take a store object with a `script`: before each call takes effect, the
others complete the steps the script lists for it. A contract that holds for every script holds
for every interleaving, and `AsyncStore.CommitIsForeignStep` shows that a committed step of the
protocol is one of these steps. The history of a store is a ghost sequence of events, refused
submissions included, and the store is always the replay of it; what a call sent out, lost and
blamed is read off the history, not off what the call says about itself. Readers take a store
whose every read may find a later state; their contracts say what each result is of the states
that were read, and `AuditRaces` and `AuditHistory` say what it is of the chain.

*Assumptions.* The digest is an injective function into non-empty strings without a newline.
The id factory returns ids that increase in the order of the calls; where ids have to carry
time, each id carries the later of its seed and its predecessor. `Date.parse` and the calendar
are functions; the month index is monotone where chain order needs it. Token hashes are fresh.
The instants that resolves and settles of different callers go by need not be in any order.

## What the proofs turned up

Where a promise does not hold of the code as it stands, the code is kept, a concrete case is
given, and the exact condition is proved.

* Members that are `undefined` are hashed as `null` in memory and dropped on disk, so the hash of
  an entry that carries one does not survive a reload (`JsonProofs.TextSurvivesReload`).
* The diagnosis behind `transactWithAudit` compares attribute values with `===`, the store
  structurally: a guard on an object or array that holds is reported as the one that failed
  (`AuditWriters.DiagnosisExact`).
* A verification fetches the head before the entries. It comes out clean exactly when nothing it
  read was appended after the head was (`AuditRaces.AppendDuringReadShows`); a probe of an intact
  chain fails exactly when its last walk read past the head it had (`AuditRaces.ProbeUnderAppends`,
  `AuditRaces.ProbeLosesRace`). Falling back to a full verification does not help it: a probe that
  gives up a prefix it remembered rightly always fails, since it keeps the head it had.
* The first page of a chain stops at a month boundary once it has as many entries as the head it
  read first counted. If the chain outgrew that head meanwhile, the page can say there is no more
  while older entries remain. It does so exactly when some month boundary has entries below it,
  and above it at least as many as the head counted and at most as many as fit the page
  (`AuditPaging.FirstPageIs`, `AuditPaging.PageIsExact`, `AuditRaces.FirstPageCutShort`). A head
  that counts more than a page rules this out, and so does a chain that stands still. Pages below
  a cursor are not affected.
* A resumed verification agrees with a full one exactly when the verified prefix still links
  (`ChainVerifier.ResumingAgreesIff`).
* `deepEqual` reads inherited properties: an own `__proto__` on one side only can go unnoticed,
  and the comparison is not transitive (`CatalogSkew.DeepEqualExact`,
  `CatalogSkew.DeepEqualIsNotTransitive`). No enforced field is reached that way.
* Against a bundled operation without parameters, a served `params` that is no list passes
  (`CatalogAgreement.ParamsNeedNotBeAList`).
* Block texts are byte-for-byte slices exactly when newline is the document's only line end:
  `splitlines` also ends lines at other characters (`HclText.LinesVerbatimIff`).
* The stored `lastSeenAt` of a session lags a successful resolve by the documented granularity or
  more exactly when another slide of the session landed between its read and its write, and every
  one that landed since is for an instant at least that old (`SessionRuns.LagExact`,
  `SessionRuns.OverlapLagsFurther`).
* A session that one request found idle passes again only through a resolve for an instant within
  the idle limit that was still in flight (`SessionRuns.FirstPassIsInWindow`,
  `SessionRuns.InFlightRevives`).
* A settle guards only the status; it keeps concurrent events exactly when it read them
  (`Cooling.EventsKeptIff`).
* Of several generated proposals of one digest the last counts, where the comment says the first
  (`DriftReconcile.LastOccurrenceWins`); a submit that overtakes the reconciler's read is undone
  where the batch writes the row, unless a digest that was new to the read has a row by then and
  the whole batch is refused (`DriftReconcile.OvertakenIff`).
* The runner would stall for good if a pass ever rejected (`DriftRunner.RejectionStalls`); the
  pass in the source catches everything, so it does not.

## Model

| member | source | states |
|---|---|---|
| JsonProofs.CanonicalIffSame | ccp/api/src/domain/audit.ts:73-80 | two values have the same canonical text exactly when they are equal up to member order: the text does not depend on insertion order, and it is injective |
| JsonProofs.TextUnique | ccp/api/src/domain/audit.ts:74-80 | a value's text can be read back out of any larger text in one way only |
| JsonProofs.TextSurvivesReload | ccp/api/src/domain/audit.ts:74-80 | the canonical text survives writing and reading the value exactly when no member is undefined |
| JsonReader.CanonicalIsJson | ccp/api/src/domain/audit.ts:73-80 | the canonical text is the JSON of its value: a reader after the grammar of RFC 8259 gets that value back, undefined as null and members strictly by key, in front of anything that cannot prolong a number |
| JsonReader.EscapeIsShortest | ccp/api/src/domain/audit.ts:75 | each character is written by the shortest of all the texts that stand for it, with lower-case digits |
| Json.SortSorts | ccp/api/src/domain/audit.ts:78 | keys come out strictly ascending and lossless when they are distinct |
| AuditChain.HashedTextIffSame | ccp/api/src/domain/audit.ts:83-108 | the hashed text and the ten hashed fields of an entry determine each other |
| AuditChain.PreimageSplits | ccp/api/src/domain/audit.ts:111-115 | a preimage has one previous hash and one entry text |
| AuditChain.HashIffSame | ccp/api/src/domain/audit.ts:111-115 | equal hashes mean equal predecessor and content, and conversely |
| HashedText.HashedIsJson | ccp/api/src/domain/audit.ts:82-115 | the hash of an entry is that of its predecessor, a newline and a JSON object with each field under its own name, undefined ones absent, nothing else, members by key |
| AuditChain.VerifyChain | ccp/api/src/domain/audit.ts:141-154 | answers with the first entry that does not link or hash, else compares the tip with the head |
| AuditChain.VerdictUnique | ccp/api/src/domain/audit.ts:141-154 | there is one such verdict for a list and a head |
| AuditChain.LinkedSplits | ccp/api/src/domain/audit.ts:141-154 | a chain verifies exactly when a prefix does and the rest does from the prefix's tip |
| AuditChain.HeadPinsHistory | ccp/api/src/domain/audit.ts:136-154 | two chains that end in the same head are equal in length, links, hashes and every hashed field |
| AuditChain.TamperingShows | ccp/api/src/domain/audit.ts:6-15 | against a chain's head, a list of entries gets code 0 exactly when it is that chain |
| AuditChain.NoHeadRepeats | ccp/api/src/domain/audit.ts:269-275 | tips of different prefixes differ: a head hash never comes back |
| Store.HeadCountsRows | ccp/api/src/domain/audit.ts:269-275 | the head's count is the number of entries stored for the project |
| Store.AcceptedLands | ccp/api/src/store/memoryStore.ts:450-497 | of an accepted batch every row met its write's condition; a put leaves just its item, a delete no row, an update each attribute removed, set or as it was; every other row stays |
| AuditProtocol.ReadHeadIsCurrent | ccp/api/src/domain/audit.ts:273-275 | a head that still compares equal is the head that was read, whatever happened meanwhile |
| AuditProtocol.CommitIsAtomicAppend | ccp/api/src/domain/audit.ts:292-297 | a batch that commits is an append on the current head under a newer id |
| AuditProtocol.AppendKeepsChain | ccp/api/src/domain/audit.ts:250-277 | an append on the stored head extends the stored chain by one entry and keeps it verified, ordered and counted |
| AuditProtocol.OtherChainsStay | ccp/api/src/domain/audit.ts:250-277 | a batch in one project leaves every other project's chain alone |
| AuditProtocol.StepKeeps | ccp/api/src/domain/audit.ts:285-311 | every step of every writer keeps all chains, and histories only grow |
| AuditProtocol.EveryRunVerifies | ccp/api/src/domain/audit.ts:145-146 | in every state of every interleaving, the stored entries verify clean against the head, count and order included |
| AuditProtocol.HistoryOnlyGrows | ccp/api/src/domain/audit.ts:9-15 | over every run a chain is only ever extended, and every row stored for it stays stored unchanged: no fork, rewrite or loss |
| AsyncStore.CommitIsForeignStep | ccp/api/src/domain/audit.ts:292-297 | a committed step of the protocol is one of the steps a caller may meet on the shared store |
| AsyncStore.QuietHeadAccepts | ccp/api/src/domain/audit.ts:269-276 | if nobody appended since the head was read, the append's conditions hold |
| AsyncStore.OwnStepKeeps | ccp/api/src/domain/audit.ts:269-276 | landing a prepared append keeps every chain of the store |
| AsyncStore.SharedStore.Transact | ccp/api/src/store/memoryStore.ts:422-497 | all conditions are checked against one state, and then everything is applied or nothing; either way the submission is on record; what landed is in the rows, write by write |
| AsyncStore.SharedStore.Interfere | ccp/api/src/store/memoryStore.ts:422-497 | whatever others do, minting ids included, keeps the store consistent and logs growing |
| AsyncHistory.GrowthIsAppends | ccp/api/src/domain/audit.ts:269-276 | a chain grows by exactly the appends that land on it |
| AuditWriters.Attempt | ccp/api/src/domain/audit.ts:291-300 | one round: a refusal means an own condition was false or another caller appended since the head was read |
| AuditWriters.Record | ccp/api/src/domain/audit.ts:285-311 | as many submissions as lost rounds and one more on success, exactly one entry then; each lost round is paid for by an append of another caller that landed on the same chain, so contention takes eight of them |
| AuditWriters.DiagnosisExact | ccp/api/src/domain/audit.ts:371-382 | the diagnosis agrees with the store's own check except where a composite guard holds |
| AuditWriters.FailedDomainCondition | ccp/api/src/domain/audit.ts:371-382 | names a conditional write whose condition was false in a state met by the walk, after every write before it was seen to hold; none only if each was seen to hold |
| AuditWriters.TransactWithAudit | ccp/api/src/domain/audit.ts:402-443 | all domain writes and one entry in one step, or nothing; every submission is of the caller's batch, a value-guarded one is sent out once; lost rounds are paid for by foreign appends or own false conditions on record; an unguarded batch whose conditions hold throughout fails only after eight foreign appends; a named cause was false after the last refusal, and the true one when nothing intervened; when it is done, every row of the batch is what its write leaves, the others are as before, and the entry recounts the input |
| AuditWriters.BlameIsTrue | ccp/api/src/domain/audit.ts:357-370 | a blamed condition was the first false one if nothing followed the refusal, and no unguarded batch that holds throughout is blamed |
| Ulid.UlidTimeMs | ccp/api/src/domain/audit.ts:57-71 | the value of the first ten digits, exactly for strings of 26 Crockford characters |
| Ulid.DigitIff | ccp/api/src/domain/audit.ts:57-68 | a character has the value of the place at which the Crockford alphabet has its upper case, the three odd ones that upper-case to S or ST included, and no other has one |
| Ulid.DecodeEncode | ccp/api/src/domain/audit.ts:57-71 | decoding a timestamp inverts encoding it |
| Ulid.EncodingKeepsOrder | ccp/api/src/domain/audit.ts:33-43 | encoded timestamps are ordered as the timestamps are |
| Ulid.OrderIsNumeric | ccp/api/src/domain/audit.ts:33-43 | string order of canonical digits is numeric order |
| Ulid.IdOrderIsTimeOrder | ccp/api/src/domain/audit.ts:33-37 | ids are ordered no differently from the times they carry |
| AuditReader.MonthsBackward.constructor | ccp/api/src/domain/auditQuery.ts:36-50 | the walk starts one month ahead of the reader, over a year's end as well |
| AuditReader.MonthsBackward.Next | ccp/api/src/domain/auditQuery.ts:50-58 | each step yields the month before the last one, none twice and none skipped |
| AuditReader.QueryIds | ccp/api/src/store/memoryStore.ts:315-344 | a partition's sort keys, each once, ascending |
| AuditReader.OneOrder | ccp/api/src/store/memoryStore.ts:315-344 | a set of sort keys has one ascending order |
| AuditReader.CollectBackward | ccp/api/src/domain/auditQuery.ts:100-113 | whole partitions, each as its own read found it, until enough is collected, in chronological order |
| AuditReader.WalkHoldsNewest | ccp/api/src/domain/auditQuery.ts:248-262 | on a store that stands still, a walk that wants no more than is reachable holds the newest entries of it |
| AuditReader.ReadAuditChronological | ccp/api/src/domain/auditQuery.ts:91-114 | the head its first read found, and the walk of the others |
| AuditReader.StillChronology | ccp/api/src/domain/auditQuery.ts:91-114 | on a store that stands still: everything reachable, oldest first, when the head counts just that |
| AuditReader.ReadAuditTail | ccp/api/src/domain/auditQuery.ts:248-262 | the last n entries of the walk, whatever its reads found |
| AuditReader.StillTail | ccp/api/src/domain/auditQuery.ts:248-262 | on a store that stands still: the newest n entries in chronological order |
| AuditPaging.PartitionIsSlice | ccp/api/src/domain/auditQuery.ts:61-67 | a month partition is a stretch of the chain |
| AuditPaging.ReachableIsChain | ccp/api/src/domain/auditQuery.ts:91-114 | the walk reaches exactly the chain, in chain order, also for a reader one month behind the newest entry |
| AuditPaging.LocateCursor | ccp/api/src/domain/auditQuery.ts:152-167 | the month in which a read found the id, the decoded one first; none only if every read of the guess and the walk missed it |
| AuditPaging.QueryNewest | ccp/api/src/domain/auditQuery.ts:222-227 | at most limit rows of a partition strictly below the cursor, newest first |
| AuditPaging.ReadAuditPage | ccp/api/src/domain/auditQuery.ts:189-242 | the head, the cursor's month and the walk, each as its own read found it; the walk ends as soon as it has one entry more than the limit or, without a cursor, what the head counted, and not before; that one more says there is more |
| AuditPaging.PageBelowCursor | ccp/api/src/domain/auditQuery.ts:189-242 | below a cursor in the chain the page is exactly that of the chain, whatever is appended while it is read |
| AuditPaging.PageIsExact | ccp/api/src/domain/auditQuery.ts:169-242 | the same with an unknown cursor (an empty page) and without one: the first page of the chain as it stood during the read exactly when no month boundary of that chain ends it early, which a head above the limit or the lack of appends rules out |
| AuditPaging.FirstPageIs | ccp/api/src/domain/auditQuery.ts:214-239 | a walk without a cursor that ended above month lo gives the first page exactly when it passed the limit there or left nothing below; else what lies above the boundary, and no word of the rest |
| AuditPaging.PagesAreTheChain | ccp/api/src/domain/auditQuery.ts:169-188 | following the last id of each page yields, at every page, the newest entries of the chain as of the first one, no gap or repeat, and the whole of it exactly when there is no more |
| AuditClock.StampedChainIsOrdered | ccp/api/src/domain/auditQuery.ts:116-134 | an id decodes to its own entry's partition, and the chain visits the months in order |
| AuditClock.EveryRunReadsBack | ccp/api/src/domain/audit.ts:257-266 | over every run whose append clock never steps back, a reader within the walk reads back exactly the chain |
| AuditHistory.PagesOverEveryRun | ccp/api/src/domain/auditQuery.ts:169-188 | over any run of the protocol, for calls whose every read meets a later state, the pages are the newest entries of the chain as of the first call, no gap or repeat; the last one rightly says whether that is all, except exactly a lone first page with such a month boundary |
| AuditHistory.ProbeOverEveryRun | ccp/api/src/domain/auditQuery.ts:306-358 | a probe whose reads meet later and later states of a run verifies exactly when its last walk, from read q on, ended where its head says, and remembers a prefix of the chain |
| ChainVerifier.VerifySuffix | ccp/api/src/domain/auditQuery.ts:334-346 | the verdict on a suffix for a reader who trusts what came before |
| ChainVerifier.ResumedIsFull | ccp/api/src/domain/auditQuery.ts:284-305 | behind a prefix that links from genesis, the resumed verdict is the full one, for any suffix |
| ChainVerifier.ResumingAgreesIff | ccp/api/src/domain/auditQuery.ts:284-305 | resumed and full verdict agree exactly when the prefix still links |
| ChainVerifier.ProbeMemo.VerifyProjectChain | ccp/api/src/domain/auditQuery.ts:306-358 | resumes behind the remembered prefix when its end re-hashes, else starts over, by what each read found; other projects' memos stay |
| ChainVerifier.StillProbe | ccp/api/src/domain/auditQuery.ts:306-358 | on a store that stands still it answers what a full verification answers and remembers the whole chain, or nothing after a failure |
| ChainVerifier.EveryProbeIsFull | ccp/api/src/domain/auditQuery.ts:284-305 | over every run of appends and probes each probe gives the full verdict, bad appended data included |
| AuditRaces.WalkedStretch | ccp/api/src/domain/auditQuery.ts:91-114 | while others append, a walk brings back a stretch of the chain without a gap that ends where it stood at some moment of the walk |
| AuditRaces.AppendDuringReadShows | ccp/api/src/domain/auditQuery.ts:95-113 | the verdict on what was read, against the head read before, is clean exactly when nothing of it was appended after the head was read |
| AuditRaces.ProbeUnderAppends | ccp/api/src/domain/auditQuery.ts:284-358 | while others append, the last walk, from read q on, brings back the chain up to entry h, and the probe fails exactly when that is past the head it had; giving up a remembered prefix means failure; the whole chain or nothing is remembered |
| AuditRaces.ProbeLosesRace | ccp/api/src/domain/auditQuery.ts:352-357 | a concrete probe that says of an intact chain that its head does not match |
| AuditPaging.CutShortIsNoPage | ccp/api/src/domain/auditQuery.ts:219-239 | a first page that ends early is not the first page of that chain, the chain did grow meanwhile, and what the head counted fitted the page |
| AuditRaces.FirstPageCutShort | ccp/api/src/domain/auditQuery.ts:219-233 | a concrete first page that says there is no more while an older entry remains |
| Sessions.StepKeeps | ccp/api/src/auth/sessions.ts:96-180 | no step brings a deleted row back; a stored last-seen only moves by a slide that met its guard, by a granularity at least and the idle limit at most |
| Sessions.StepFrame | ccp/api/src/auth/sessions.ts:48-270 | a row appears by its mint alone, goes by its deletion alone, and changes only by a guarded write of named fields or a slide to the instant of the call |
| SessionRuns.DeadForever | ccp/api/src/auth/sessions.ts:127-147 | once a minted row is gone it is gone in every later state of every history |
| SessionRuns.GoneIsDropped | ccp/api/src/auth/sessions.ts:232-270 | in every history a session that is gone was deleted by some step |
| SessionRuns.LastSeenIsActivity | ccp/api/src/auth/sessions.ts:115-123 | the stored last-seen instant is always that of the mint or of a resolve that succeeded |
| SessionRuns.LastSeenIncreases | ccp/api/src/auth/sessions.ts:119-122 | it only grows, and by a granularity at least when it changes, though the store checks nothing but equality |
| SessionCalls.SlideIdleWindow | ccp/api/src/auth/sessions.ts:159-180 | one write that lands exactly under its guard; a lost guard costs one more read, and survives exactly while the row is there |
| SessionCalls.ResolveSession | ccp/api/src/auth/sessions.ts:96-125 | the answer that the row and the account deserve as the steps of its reads found them, live or the first reason that applies, and of whether the row outlived the slide; its steps are exactly those reads and that slide; a row deleted before the call resolves to nothing; the lag it leaves, exactly |
| SessionRuns.LiveIsRecentlyUsed | ccp/api/src/auth/sessions.ts:110-114 | in every history a resolve succeeds only if its two reads entitle it: the account there, active and of the row's version, the session full and within both windows; and then the session was never unused for longer than the idle limit since its mint |
| SessionRuns.ShutOutUntilUndone | ccp/api/src/auth/sessions.ts:104-108 | once an account is gone, disabled or of a higher version than the row, no resolve of the row that reads the account from then on passes, in any history, until a write of the account undoes that |
| SessionRuns.FirstPassIsInWindow | ccp/api/src/auth/sessions.ts:111 | the first success after any state is within the idle limit of what that state stores |
| SessionRuns.IdledOutIsOver | ccp/api/src/auth/sessions.ts:111 | once every resolve in flight or to come is past the idle limit, none succeeds again |
| SessionRuns.InFlightRevives | ccp/api/src/auth/sessions.ts:119-122 | a history from an empty store in which one resolve finds a session idle and the next one passes for the same instant, since one that was in flight wrote its slide in between |
| SessionRuns.LagExact | ccp/api/src/auth/sessions.ts:34-41 | after a successful resolve the stored instant lags by the granularity or more exactly if another slide landed between its read and its write and all since are that old |
| SessionRuns.QuietLag | ccp/api/src/auth/sessions.ts:34-41 | without such an overlap it lags by less, whatever else goes on |
| SessionRuns.SteadyUseNeverIdlesOut | ccp/api/src/auth/sessions.ts:34-41 | a session used at least every idle limit less one granularity never idles out, in any history in which its own slides do not overlap |
| SessionRuns.OverlapLagsFurther | ccp/api/src/auth/sessions.ts:148-158 | a history from an empty store in which a resolve loses its slide to an overlapping one and succeeds, and the stored instant lags by the granularity |
| SessionCalls.PutSessionFieldGuarded | ccp/api/src/auth/sessions.ts:207-229 | writes exactly when the guard holds on a living row, changes only the named fields, and reports the row otherwise |
| SessionCalls.MintSession | ccp/api/src/auth/sessions.ts:48-74 | exactly one new row, under a fresh hash, with its lifetimes |
| SessionCalls.KillOtherSessions | ccp/api/src/auth/sessions.ts:261-270 | every listed session but the kept one is dead, its only writes are those deletions, and it counts them |
| SessionCalls.KillAllSessions | ccp/api/src/auth/sessions.ts:232-238 | every listed session is dead |
| CoolingCalls.SettleRound | ccp/api/src/domain/cooling.ts:63-77 | one round lands settle and entry together, or finds the request out of cooling, or lost to a foreign append, unless the row is gone or in cooling again |
| CoolingCalls.SettleCooling | ccp/api/src/domain/cooling.ts:41-83 | nothing before the window has elapsed; as many submissions as lost rounds and one more on a win, which is one entry and one step of the history; otherwise the row returned is the stored one, out of cooling; contention takes eight foreign appends unless the row went away; its win is a settle as the histories have them |
| Cooling.SettleLeaves | ccp/api/src/domain/cooling.ts:29-65 | row and entry tell of the same settle: a request planned for a window awaits its deployment, any other is applied; event, label and audit status agree, and nothing else of the row changes |
| Cooling.SettleHoldsIffCooling | ccp/api/src/domain/cooling.ts:66-68 | the settle's guard holds exactly while the row is in cooling |
| CoolingRuns.OneSettleEntry | ccp/api/src/domain/cooling.ts:33-83 | over every history of settles, cancels and other steps the chain holds one settle entry of the request exactly when a settle won, never two, and the request is then out of cooling for good |
| CoolingRuns.LeavesOnce | ccp/api/src/domain/cooling.ts:33-40 | a request leaves cooling at most once, and a settle that wins is that step |
| CoolingRuns.NeverEarly | ccp/api/src/domain/cooling.ts:20-22 | no settle wins before the earliestApplyAt that is stored with the request |
| Cooling.EventsKeptIff | ccp/api/src/domain/cooling.ts:50 | a settle keeps the stored events exactly when they are the ones it had read |
| Manifests.ParamOutOfBounds | ccp/api/src/manifests.ts:103-145 | true exactly when the value is not in bounds: some scalar in it, entry keys as strings included, breaks the allowlist, a limit, the length or the pattern, or some list or map in it has a wrong size or tag keys that fold together |
| Manifests.CollidingFolds | ccp/api/src/manifests.ts:125-131 | true exactly when two keys have the same case fold |
| Manifests.RepeatedOutOfBounds | ccp/api/src/manifests.ts:81-101 | true exactly when it is no list of the right length of records that keep the rules of the block's fields, at any depth |
| Manifests.ValidateParams | ccp/api/src/manifests.ts:47-72 | accepts exactly the records that keep every rule at every place; otherwise the code is that of the first parameter that does not |
| Manifests.AcceptsIff | ccp/api/src/manifests.ts:47-101 | accepted exactly if every definition is content with every record it applies to: the submitted one and every instance of a block that applies, at every depth |
| Manifests.TighterRefusesMore | ccp/api/src/manifests.ts:103-145 | definitions with tighter bounds, at every depth, never accept a record that looser ones refuse, for any transitive order of numbers |
| CatalogSkew.DeepEqualExact | ccp/api/src/domain/catalogSkew.ts:84-98 | structural equality up to member order exactly where own `__proto__` keys match |
| CatalogSkew.UnnoticedProto | ccp/api/src/domain/catalogSkew.ts:94-96 | the own `__proto__` values a plain object is taken to equal are the empty object and the one that holds just a null `__proto__` |
| CatalogSkew.DeepEqualIsNotTransitive | ccp/api/src/domain/catalogSkew.ts:94-96 | one object equals two that are not equal to each other |
| CatalogSkew.CompareFields | ccp/api/src/domain/catalogSkew.ts:100-117 | reports exactly the keys of either side, presentation and params aside, on which the two disagree |
| CatalogSkew.NameMapLossless | ccp/api/src/domain/catalogSkew.ts:142-154 | the name map is as large as the list exactly when every parameter has a name of its own |
| CatalogSkew.OperationSkew | ccp/api/src/domain/catalogSkew.ts:128-166 | the sorted list of exactly the paths that name a disagreement |
| CatalogAgreement.ParamAgrees | ccp/api/src/domain/catalogSkew.ts:157-164 | definitions that agree on the five enforced fields are read as the same parameter, nested blocks included |
| CatalogAgreement.ParamReadsBack | ccp/api/src/domain/catalogSkew.ts:119-127 | reading a definition written as a manifest has it gives that definition back, nested blocks included |
| CatalogAgreement.NoSkewSameParams | ccp/api/src/domain/catalogSkew.ts:137-164 | parameter lists without skew hold the same parameters, order aside |
| CatalogAgreement.NoSkewAcceptsTheSame | ccp/api/src/domain/catalogSkew.ts:119-127 | without skew both definitions accept exactly the same records; the served one is of the declared shape exactly when its params is a list |
| CatalogAgreement.NoSkewFieldsAgree | ccp/api/src/domain/catalogSkew.ts:44-53 | without skew every field that is not presentation agrees, fields yet to be invented included |
| CatalogAgreement.ParamsNeedNotBeAList | ccp/api/src/domain/catalogSkew.ts:140-141 | an operation without parameters passes against one whose params is no list |
| HclText.SplitUnlines | importer/kit/payloads.py:144 | splitting inverts joining |
| HclText.LinesVerbatimIff | importer/kit/payloads.py:144-182 | joining the split lines gives the text back exactly when newline is its only line end |
| HclText.LinesOfText | importer/kit/payloads.py:144 | splitting takes a text apart at its line ends and nowhere else, carriage return and newline being one end |
| HclText.PrintedHeader | importer/kit/payloads.py:80 | a printed header declares its address |
| HclText.HeaderIsPrinted | importer/kit/payloads.py:80 | and only a printed header does |
| HclText.OpensIff | importer/kit/payloads.py:83 | a line opens a heredoc exactly if it ends in the mark, an identifier and white space, and which kind |
| HclText.ClosesIff | importer/kit/payloads.py:160-165 | a line closes it exactly if it is the name, with white space around only for the indented kinds |
| Payloads.FindEnd | importer/kit/payloads.py:157-176 | the first closing brace no heredoc hides, none if a header or the end comes first |
| Payloads.SplitGenerated | importer/kit/payloads.py:117-194 | an address is usable exactly when one scanned header has it and its block closes; usable texts are those blocks; every other scanned address is ambiguous, with the reason its last header gives |
| PayloadProofs.ScanOrdered | importer/kit/payloads.py:149-193 | blocks come in document order and do not overlap |
| PayloadProofs.BlockIsVerbatim | importer/kit/payloads.py:117-121 | a block's text is a slice of the document |
| PayloadProofs.ScanInvertsPrint | importer/kit/payloads.py:123-143 | scanning a printed document finds exactly its blocks, decoy braces and headers in heredocs included |
| PayloadProofs.SplitInvertsPrint | importer/kit/payloads.py:117-194 | splitting a document printed from blocks of distinct addresses returns exactly those blocks and nothing ambiguous |
| PayloadGuard.ScanShifts | importer/kit/payloads.py:145-193 | lines that mean nothing to the scanner move what it finds and change nothing about it, wherever they are put in |
| PayloadGuard.GuardOfBlock | importer/kit/payloads.py:247-252 | the guard of a scanned block never fails and is that block's text in the guarded document |
| PayloadGuard.GuardKeepsOthers | importer/kit/payloads.py:247-252 | splitting again after one block is guarded finds the same headers, closing as before, and every other block's text |
| PayloadAttach.SecretBatteryHit | importer/kit/payloads.py:234-242 | true exactly when some line assigns, with any white space around the parts, a non-empty literal without an allowed prefix to a name that lower-cased is secret |
| PayloadAttach.GuardKeepsSecrecy | importer/kit/payloads.py:234-252 | the guard neither adds a secret-shaped line nor hides one |
| PayloadAttach.PublishedIsSound | importer/kit/payloads.py:310-368 | a published skeleton was scanned once and closed, holds no secret-shaped line, and splits again into one block of its own address |
| PayloadAttach.PublishedText | importer/kit/payloads.py:284-368 | a published skeleton is the slice of the document from the one header of its address to its closing brace, with the five lines that keep a stateful resource before that brace and nothing else; its import block is the one read for the address |
| PayloadAttach.AttachPayloads | importer/kit/payloads.py:296-368 | every finding a candidate names gets what the last candidate that names it deserves: its payload, guarded if stateful, or the first reason against it; the others stay; a malformed candidate refuses |
| Labels.ToLabel | importer/kit/discover.py:183-196 | a label of the pattern for every name, whatever lower-casing does |
| Labels.LabelSpellsName | importer/kit/discover.py:183-196 | no letter or digit of the lower-cased name is lost, added or moved, apart from the leading x |
| Labels.LabelIsWords | importer/kit/discover.py:183-196 | a label is the words of the name joined by underscores, capitals behind a lower-case letter or digit starting a word; unnamed without any, behind x_ if they start with a digit |
| Labels.NumberedDiffer | importer/kit/discover.py:510-512 | labels numbered differently differ |
| Labels.FreeLabel | importer/kit/discover.py:506-512 | the search ends, at the first number that is free |
| Discovery.BuildRows | importer/kit/discover.py:460-499 | a record without an id refuses; otherwise resources and ignored are those of the records, in order |
| Discovery.NothingDropped | importer/kit/discover.py:471-499 | every record has one place in exactly one of the two lists, its own entry is there, no two share a place, order is kept, and nothing else is in them |
| Discovery.RowsAre | importer/kit/discover.py:471-499 | a type and id are in the manifest exactly when some unskipped record has them |
| Discovery.RowsDistinct | importer/kit/discover.py:484-486 | no type and id are in the manifest twice |
| GenImports.LabelRows | importer/kit/discover.py:501-514 | each row, by type, lower-cased name and id, gets the first free number of its base |
| GenImports.LabelsAreUnique | importer/kit/discover.py:501-514 | labels are well formed and unique within a type |
| GenImports.LabelsIgnoreOrder | importer/kit/discover.py:501-504 | labels do not depend on the order in which captures list the resources |
| GenImports.WriteImports | importer/kit/gen-imports.py:97-120 | writes exactly when every row is complete, chosen labels match and addresses are distinct; blocks are the chosen rows by type and label, exclusions counted; a refusal names what the first offending row, or two chosen rows of one address, have wrong |
| GenImports.AddressSplits | importer/kit/gen-imports.py:117 | an address of a well-formed label has one type and one label |
| GenImports.ManifestIsAccepted | importer/kit/gen-imports.py:97-120 | a built manifest is accepted for every phase, unless a resource type has the empty name |
| ImporterChain.ImportedIsFound | importer/kit/payloads.py:5-15 | across the tools: of the blocks generated for the written imports, in any order, every imported address is found with its own block, and none is ambiguous |
| Sorting.OneSortedOrder | importer/kit/discover.py:504 | where the comparison separates the elements there is one sorted order |
| DriftRunner.NoLostWakeUp | ccp/api/src/domain/driftProposals.ts:1106-1164 | over every sequence of schedules and completions started versions are a subsequence of the scheduled ones, and an idle runner has processed the last one |
| DriftRunner.RunIsGood | ccp/api/src/domain/driftProposals.ts:1084-1164 | a pass is in flight exactly while the runner runs, and the newest version is queued or was started last |
| DriftRunner.RejectionLeavesRunning | ccp/api/src/domain/driftProposals.ts:1152-1164 | a pass that rejects leaves the runner marked as running with nothing in flight |
| DriftRunner.RejectionStalls | ccp/api/src/domain/driftProposals.ts:1152-1164 | after a pass that rejects, no version is ever processed again |
| DriftRunner.DriftGenerator.ScheduleDriftGeneration | ccp/api/src/domain/driftProposals.ts:1115-1127 | starts a pass exactly when none is in flight, and touches no other project |
| DriftRunner.DriftGenerator.PassReturned | ccp/api/src/domain/driftProposals.ts:1160-1163 | takes what was queued, or stops |
| DriftReconcile.LastOccurrenceWins | ccp/api/src/domain/driftProposals.ts:993-999 | of several proposals of one digest the last counts |
| DriftReconcile.ReconcileProposals | ccp/api/src/domain/driftProposals.ts:983-1080 | one write for each digest that needs one and no other, the tally by set sizes, bodies stored for all new digests |
| DriftReconcile.OpenIsFresh | ccp/api/src/domain/driftProposals.ts:974-982 | afterwards the open digests are the fresh ones that are not submitted, submitted rows are untouched, contents stay |
| DriftReconcile.RowsAfter | ccp/api/src/domain/driftProposals.ts:1023-1065 | every row afterwards: new with its content and version, reopened as of the version, superseded, or as it was |
| DriftReconcile.EveryRowHasBody | ccp/api/src/domain/driftProposals.ts:1017-1030 | every row has a stored body |
| DriftReconcile.TallyAddsUp | ccp/api/src/domain/driftProposals.ts:1005-1060 | new, reused and submitted add up to the fresh set |
| DriftReconcile.BatchIsTally | ccp/api/src/domain/driftProposals.ts:1002-1072 | the batch is exactly as long as the tally says |
| DriftReconcile.SecondRunChangesNothing | ccp/api/src/domain/driftProposals.ts:974-982 | reconciling the same fresh set again leaves every row as it is |
| DriftReconcile.OvertakenIff | ccp/api/src/domain/driftProposals.ts:1044-1057 | a row submitted after the read stays so exactly if the batch is refused, because a digest new to the read has a row by then, or does not write the row |

## Left out

- Real SHA-256, randomness, argon2 and clocks: functions and fresh values, as listed under the assumptions.
- Lone surrogates and the difference between code-unit and code-point order: a `char` is one unit here, and control characters are escaped as JSON.stringify does.
- Key encoding (`PROJECT#…`, `DRIFTPROP#…`): keys are values, and audit rows, heads and other rows cannot meet. Store checks on key and attribute shape are not modelled.
- An invalid or non-finite `at` (the id is then seeded from the wall clock), years outside four digits, and id factory overflow.
- Reads that race with a clock that steps back over a month: while others append, the chain is in month order.
- The wait between two rounds, as opposed to the number of rounds.
- Properties a submitted record inherits (a parameter named like a method every object has), and evaluation of patterns and number comparison, which are parameters.
- Exceptions thrown by ill-typed definitions: definitions have the declared shape, and the comparison is shown to carry that shape over.
- `parse_import_blocks`, the file reading around the scanner and the printed summaries; the reasons carry a kind instead of a sentence.
- `--id-region-suffix` and the text of the import file.
- Capture walking, id and name extraction, coverage and overrides validation in `discover.py`: a record already has its skip reason, id and name.
- Session listing, the retention sweep after a mint and the lookup of one session by hash; others deleting rows at any time stands for the sweep.
- `classifyByFields`, `shapeOf`, `pathExpressible` and `addressEligibleFor`: predicates over one verdict each.
- How a proposal row is laid out as store attributes; `AuditWriters.TransactWithAudit` is the model of submitting such a batch, and refuses one of more than 98 writes.
- `exportAuditChain`, `driftGenIdle`, routes, persistence and the app.
- AsyncStore.SharedStore.Interfere: a store whose others may do anything a well-behaved caller does, but never anything outside the seam.
- AsyncStore.SharedStore.Transact: batches that carry an audit append; keys and attributes are taken to have the shape the store asks for, so of its outright refusals only those for length and repeated keys are modelled.
- CoolingRuns.OneSettleEntry: assumes that steps other than settles put no request into cooling, move no window while it is there and write no settle entry, which the routes that are not part of this model would have to guarantee; a caller's own settles are shown to keep to it.
- SessionCalls.PutSessionFieldGuarded: guards and sets the attributes that are neither identity nor lifetime; no caller in the repository names one of the others.
- ChainVerifier.ProbeMemo.VerifyProjectChain: two probes of one process that overlap on the memo itself; what either leaves there is a prefix of the chain.
