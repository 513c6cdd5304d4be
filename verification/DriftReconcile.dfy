/** Reconciling the stored proposals with a fresh set: which rows open, stay, reopen or give way. */
module DriftReconcile {
  import opened Strings
  import opened Store

  datatype Status = Open | Submitted | Superseded

  /** A stored proposal; `content` is everything about it that its digest pins. */
  datatype Proposal = Proposal(status: Status, firstSeen: int, lastSeen: int, content: Item)

  /** A generated proposal, as the generator printed it. */
  datatype Generated = Generated(digest: string, content: Item)

  datatype ProposalWrite =
    | PutNew(digest: string, row: Proposal)
    | Reopen(digest: string, lastSeen: int)
    | Supersede(digest: string)

  type Rows = map<string, Proposal>

  // ---- the fresh set -------------------------------------------------------------------------------

  /** The proposals by digest: of several with one digest, the last. */
  function ByDigest(ps: seq<Generated>): map<string, Generated> {
    if ps == [] then map[] else ByDigest(ps[..|ps| - 1])[ps[|ps| - 1].digest := ps[|ps| - 1]]
  }

  /** The keys of an insertion-ordered map filled with `ps`. */
  function DigestOrder(ps: seq<Generated>): (ds: seq<string>)
    ensures forall d :: d in ds <==> d in ByDigest(ps)
    ensures forall i, j :: 0 <= i < j < |ds| ==> ds[i] != ds[j]
  {
    if ps == [] then []
    else
      var before, d := DigestOrder(ps[..|ps| - 1]), ps[|ps| - 1].digest;
      if d in before then before else before + [d]
  }

  /** Which of several proposals of one digest counts: the last, not the first. */
  lemma {:induction false} LastOccurrenceWins(ps: seq<Generated>, i: nat)
    requires i < |ps| && forall j :: i < j < |ps| ==> ps[j].digest != ps[i].digest
    ensures ps[i].digest in ByDigest(ps) && ByDigest(ps)[ps[i].digest] == ps[i]
  {
    if i < |ps| - 1 { LastOccurrenceWins(ps[..|ps| - 1], i); }
  }

  // ---- what the batch does ---------------------------------------------------------------------------

  /** One write that lands. Rows are never deleted, so an update finds its row. */
  function ApplyOne(rows: Rows, w: ProposalWrite): Rows {
    match w
    case PutNew(d, row) => rows[d := row]
    case Reopen(d, seen) => if d in rows then rows[d := rows[d].(status := Open, lastSeen := seen)] else rows
    case Supersede(d) => if d in rows then rows[d := rows[d].(status := Superseded)] else rows
  }

  function ApplyAll(rows: Rows, ws: seq<ProposalWrite>): Rows {
    if ws == [] then rows else ApplyOne(ApplyAll(rows, ws[..|ws| - 1]), ws[|ws| - 1])
  }

  /** The puts ask for their digest to be new; the updates ask for nothing. */
  predicate BatchHolds(rows: Rows, ws: seq<ProposalWrite>) {
    forall w :: w in ws && w.PutNew? ==> w.digest !in rows
  }

  /** The rows after the batch was submitted: everything lands, or nothing does. */
  function Landed(rows: Rows, ws: seq<ProposalWrite>): Rows {
    if BatchHolds(rows, ws) then ApplyAll(rows, ws) else rows
  }

  function WriteFor(ws: seq<ProposalWrite>, d: string): Option<ProposalWrite> {
    if ws == [] then None else if ws[|ws| - 1].digest == d then Some(ws[|ws| - 1]) else WriteFor(ws[..|ws| - 1], d)
  }

  predicate OneWriteEach(ws: seq<ProposalWrite>) { forall i, j :: 0 <= i < j < |ws| ==> ws[i].digest != ws[j].digest }

  function After(row: Option<Proposal>, w: Option<ProposalWrite>): Option<Proposal> {
    if w.None? then row
    else match w.value
      case PutNew(_, new_) => Some(new_)
      case Reopen(_, seen) => if row.Some? then Some(row.value.(status := Open, lastSeen := seen)) else None
      case Supersede(_) => if row.Some? then Some(row.value.(status := Superseded)) else None
  }

  function At(rows: Rows, d: string): Option<Proposal> { if d in rows then Some(rows[d]) else None }

  lemma {:induction false} NotWritten(ws: seq<ProposalWrite>, d: string)
    ensures WriteFor(ws, d).None? <==> forall i :: 0 <= i < |ws| ==> ws[i].digest != d
    ensures WriteFor(ws, d).Some? ==> WriteFor(ws, d).value in ws && WriteFor(ws, d).value.digest == d
  {
    if ws != [] {
      NotWritten(ws[..|ws| - 1], d);
      assert ws == ws[..|ws| - 1] + [ws[|ws| - 1]];
    }
  }

  /** With one write per digest, a row afterwards is what its write makes of it. */
  lemma {:induction false} AppliedAt(rows: Rows, ws: seq<ProposalWrite>, d: string)
    requires OneWriteEach(ws)
    ensures At(ApplyAll(rows, ws), d) == After(At(rows, d), WriteFor(ws, d))
  {
    if ws != [] {
      var front, w := ws[..|ws| - 1], ws[|ws| - 1];
      AppliedAt(rows, front, d);
      if w.digest == d {
        NotWritten(front, d);
        assert forall i :: 0 <= i < |front| ==> front[i] == ws[i];
      }
    }
  }

  // ---- the reconciler ------------------------------------------------------------------------------

  datatype Tally = Tally(open: nat, reused: nat, superseded: nat)

  /** The write a digest gets, from what was read and what was generated. */
  function Wanted(existing: Rows, generated: map<string, Generated>, version: int, d: string): Option<ProposalWrite> {
    if d in generated then
      if d !in existing then Some(PutNew(d, Proposal(Open, version, version, generated[d].content)))
      else if existing[d].status != Submitted then Some(Reopen(d, version)) else None
    else if d in existing && existing[d].status == Open then Some(Supersede(d)) else None
  }

  /** A batch that holds, for every digest, exactly the write it gets. */
  ghost predicate IsBatch(existing: Rows, generated: map<string, Generated>, version: int, ws: seq<ProposalWrite>) {
    OneWriteEach(ws) && forall d :: WriteFor(ws, d) == Wanted(existing, generated, version, d)
  }

  predicate SubmittedIn(existing: Rows, d: string) { d in existing && existing[d].status == Submitted }

  function NewOf(existing: Rows, ds: set<string>): set<string> { set d | d in ds && d !in existing }

  function ReusedOf(existing: Rows, ds: set<string>): set<string> {
    set d | d in ds && d in existing && existing[d].status != Submitted
  }

  function SubmittedOf(existing: Rows, ds: set<string>): set<string> { set d | d in ds && SubmittedIn(existing, d) }

  function OpenOf(existing: Rows, ds: set<string>): set<string> {
    set d | d in ds && d in existing && existing[d].status == Open
  }

  lemma OneMoreDigest(existing: Rows, ds: set<string>, d: string)
    requires d !in ds
    ensures NewOf(existing, ds + {d}) == NewOf(existing, ds) + (if d in existing then {} else {d})
    ensures ReusedOf(existing, ds + {d})
            == ReusedOf(existing, ds) + (if d in existing && existing[d].status != Submitted then {d} else {})
    ensures OpenOf(existing, ds + {d})
            == OpenOf(existing, ds) + (if d in existing && existing[d].status == Open then {d} else {})
    ensures d !in NewOf(existing, ds) && d !in ReusedOf(existing, ds) && d !in OpenOf(existing, ds)
  {
  }

  lemma NoDigests(existing: Rows)
    ensures NewOf(existing, {}) == {} && ReusedOf(existing, {}) == {} && OpenOf(existing, {}) == {}
  {
  }

  lemma AddedWrite(ws: seq<ProposalWrite>, w: ProposalWrite, d: string)
    ensures WriteFor(ws + [w], d) == if w.digest == d then Some(w) else WriteFor(ws, d)
  {
    assert (ws + [w])[..|ws|] == ws;
  }

  lemma AddedOnce(ws: seq<ProposalWrite>, w: ProposalWrite)
    requires OneWriteEach(ws) && WriteFor(ws, w.digest).None?
    ensures OneWriteEach(ws + [w])
  {
    NotWritten(ws, w.digest);
  }

  /** What is queued for the digests seen so far, and nothing else. */
  ghost predicate Queued(existing: Rows, generated: map<string, Generated>, version: int, seen: set<string>,
                         ws: seq<ProposalWrite>) {
    && OneWriteEach(ws)
    && forall d :: WriteFor(ws, d) == if d in seen then Wanted(existing, generated, version, d) else None
  }

  lemma QueuedGrows(existing: Rows, generated: map<string, Generated>, version: int, seen: set<string>,
                    ws: seq<ProposalWrite>, ws': seq<ProposalWrite>, d: string)
    requires Queued(existing, generated, version, seen, ws) && d !in seen
    requires var w := Wanted(existing, generated, version, d); ws' == if w.Some? then ws + [w.value] else ws
    ensures Queued(existing, generated, version, seen + {d}, ws')
  {
    hide OneWriteEach, WriteFor;
    var w := Wanted(existing, generated, version, d);
    assert w.Some? ==> w.value.digest == d;
    if w.Some? {
      AddedOnce(ws, w.value);
      forall x ensures WriteFor(ws', x) == if x == d then w else WriteFor(ws, x) { AddedWrite(ws, w.value, x); }
    }
  }

  lemma AllQueued(existing: Rows, generated: map<string, Generated>, version: int, ws: seq<ProposalWrite>)
    requires Queued(existing, generated, version, generated.Keys + existing.Keys, ws)
    ensures IsBatch(existing, generated, version, ws)
  {
    hide OneWriteEach, WriteFor;
  }

  /** How far the first loop has come once the digests `seen` are dealt with. */
  ghost predicate FreshDone(existing: Rows, generated: map<string, Generated>, version: int, stored: set<string>,
                            seen: set<string>,
                            ws: seq<ProposalWrite>, open: nat, reused: nat, bodies: set<string>) {
    && Queued(existing, generated, version, seen, ws)
    && open == |NewOf(existing, seen)| && reused == |ReusedOf(existing, seen)|
    && bodies == stored + NewOf(existing, seen)
  }

  lemma FreshNew(existing: Rows, generated: map<string, Generated>, version: int, stored: set<string>,
                 seen: set<string>,
                 ws: seq<ProposalWrite>, open: nat, reused: nat, bodies: set<string>, d: string)
    requires FreshDone(existing, generated, version, stored, seen, ws, open, reused, bodies)
    requires d !in seen && d in generated && d !in existing
    ensures FreshDone(existing, generated, version, stored, seen + {d},
                      ws + [PutNew(d, Proposal(Open, version, version, generated[d].content))],
                      open + 1, reused, bodies + {d})
  {
    hide Queued, NewOf, ReusedOf, OpenOf;
    OneMoreDigest(existing, seen, d);
    QueuedGrows(existing, generated, version, seen, ws, ws + [Wanted(existing, generated, version, d).value], d);
  }

  lemma FreshReused(existing: Rows, generated: map<string, Generated>, version: int, stored: set<string>,
                    seen: set<string>,
                    ws: seq<ProposalWrite>, open: nat, reused: nat, bodies: set<string>, d: string)
    requires FreshDone(existing, generated, version, stored, seen, ws, open, reused, bodies)
    requires d !in seen && d in generated && d in existing && existing[d].status != Submitted
    ensures FreshDone(existing, generated, version, stored, seen + {d}, ws + [Reopen(d, version)], open, reused + 1,
                      bodies)
  {
    hide Queued, NewOf, ReusedOf, OpenOf;
    OneMoreDigest(existing, seen, d);
    QueuedGrows(existing, generated, version, seen, ws, ws + [Reopen(d, version)], d);
  }

  lemma FreshSubmitted(existing: Rows, generated: map<string, Generated>, version: int, stored: set<string>,
                       seen: set<string>,
                       ws: seq<ProposalWrite>, open: nat, reused: nat, bodies: set<string>, d: string)
    requires FreshDone(existing, generated, version, stored, seen, ws, open, reused, bodies)
    requires d !in seen && d in generated && d in existing && existing[d].status == Submitted
    ensures FreshDone(existing, generated, version, stored, seen + {d}, ws, open, reused, bodies)
  {
    hide Queued, NewOf, ReusedOf, OpenOf;
    OneMoreDigest(existing, seen, d);
    QueuedGrows(existing, generated, version, seen, ws, ws, d);
  }

  /** The first loop: one fresh digest after another, its body stored before its row is queued. */
  method QueueFresh(existing: Rows, generated: map<string, Generated>, order: seq<string>, version: int,
                    stored: set<string>)
    returns (ws: seq<ProposalWrite>, open: nat, reused: nat, bodies: set<string>)
    requires forall i, j :: 0 <= i < j < |order| ==> order[i] != order[j]
    requires forall d :: d in order <==> d in generated
    ensures FreshDone(existing, generated, version, stored, generated.Keys, ws, open, reused, bodies)
  {
    hide FreshDone;
    ws, open, reused, bodies := [], 0, 0, stored;
    NothingDone(existing, generated, version, stored);
    ghost var seen: set<string> := {};
    for i := 0 to |order|
      invariant forall d :: d in seen <==> d in order[..i]
      invariant FreshDone(existing, generated, version, stored, seen, ws, open, reused, bodies)
    {
      var d := order[i];
      assert order[i] in order;
      if d !in existing {
        FreshNew(existing, generated, version, stored, seen, ws, open, reused, bodies, d);
        bodies := bodies + {d};
        ws := ws + [PutNew(d, Proposal(Open, version, version, generated[d].content))];
        open := open + 1;
      } else if existing[d].status != Submitted {
        FreshReused(existing, generated, version, stored, seen, ws, open, reused, bodies, d);
        ws := ws + [Reopen(d, version)];
        reused := reused + 1;
      } else {
        FreshSubmitted(existing, generated, version, stored, seen, ws, open, reused, bodies, d);
      }
      seen := seen + {d};
    }
    assert seen == generated.Keys;
  }

  lemma NothingDone(existing: Rows, generated: map<string, Generated>, version: int, stored: set<string>)
    ensures FreshDone(existing, generated, version, stored, {}, [], 0, 0, stored)
  {
    NoDigests(existing);
  }

  function Handled(generated: map<string, Generated>, seen: set<string>): set<string> { generated.Keys + seen }

  lemma HandledGrows(generated: map<string, Generated>, seen: set<string>, d: string)
    ensures Handled(generated, seen + {d}) == Handled(generated, seen) + {d}
    ensures d in Handled(generated, seen) <==> d in generated || d in seen
  {
  }

  /** How far the second loop has come over the rows `seen` that are not fresh. */
  ghost predicate StaleDone(existing: Rows, generated: map<string, Generated>, version: int, seen: set<string>,
                            ws: seq<ProposalWrite>, superseded: nat) {
    Queued(existing, generated, version, Handled(generated, seen), ws) && superseded == |OpenOf(existing, seen)|
  }

  lemma StaleStep(existing: Rows, generated: map<string, Generated>, version: int, seen: set<string>,
                  ws: seq<ProposalWrite>, superseded: nat, d: string)
    requires StaleDone(existing, generated, version, seen, ws, superseded) && d !in seen && d in existing
            && d !in generated
    ensures if existing[d].status == Open
            then StaleDone(existing, generated, version, seen + {d}, ws + [Supersede(d)], superseded + 1)
            else StaleDone(existing, generated, version, seen + {d}, ws, superseded)
  {
    hide Queued, NewOf, ReusedOf, OpenOf, Handled;
    OneMoreDigest(existing, seen, d);
    HandledGrows(generated, seen, d);
    var w := Wanted(existing, generated, version, d);
    QueuedGrows(existing, generated, version, Handled(generated, seen), ws, if w.Some? then ws + [w.value] else ws, d);
  }

  /** The second loop: open rows that are no longer generated give way. */
  method QueueStale(existing: Rows, generated: map<string, Generated>, version: int, queued: seq<ProposalWrite>)
    returns (ws: seq<ProposalWrite>, superseded: nat)
    requires Queued(existing, generated, version, generated.Keys, queued)
    ensures IsBatch(existing, generated, version, ws)
            && superseded == |OpenOf(existing, existing.Keys - generated.Keys)|
  {
    hide StaleDone, Queued, IsBatch, OpenOf;
    ws, superseded := queued, 0;
    StaleBegins(existing, generated, version, queued);
    var left := existing.Keys;
    ghost var seen: set<string> := {};
    while left != {}
      invariant forall d :: d in left ==> d in existing
      invariant forall d :: d in seen <==> d in existing && d !in generated && d !in left
      invariant StaleDone(existing, generated, version, seen, ws, superseded)
      decreases left
    {
      var d :| d in left;
      left := left - {d};
      if d !in generated {
        StaleStep(existing, generated, version, seen, ws, superseded, d);
        if existing[d].status == Open {
          ws := ws + [Supersede(d)];
          superseded := superseded + 1;
        }
        seen := seen + {d};
      }
    }
    StaleEnds(existing, generated, version, seen, ws, superseded);
  }

  lemma StaleBegins(existing: Rows, generated: map<string, Generated>, version: int, ws: seq<ProposalWrite>)
    requires Queued(existing, generated, version, generated.Keys, ws)
    ensures StaleDone(existing, generated, version, {}, ws, 0)
  {
    NoDigests(existing);
    assert generated.Keys + {} == generated.Keys;
  }

  lemma StaleEnds(existing: Rows, generated: map<string, Generated>, version: int, seen: set<string>,
                  ws: seq<ProposalWrite>, superseded: nat)
    requires StaleDone(existing, generated, version, seen, ws, superseded) && forall d :: d in seen <==>
              d in existing && d !in generated
    ensures IsBatch(existing, generated, version, ws)
            && superseded == |OpenOf(existing, existing.Keys - generated.Keys)|
  {
    hide Queued;
    assert seen == existing.Keys - generated.Keys;
    assert generated.Keys + seen == generated.Keys + existing.Keys;
    AllQueued(existing, generated, version, ws);
  }

  /**
   * The whole computation of one reconciliation, from what the store listed: the batch that
   * is submitted with one audit entry, the tally it reports, and the bodies stored first.
   */
  method ReconcileProposals(existing: Rows, proposals: seq<Generated>, version: int, stored: set<string>)
    returns (ws: seq<ProposalWrite>, tally: Tally, bodies: set<string>)
    ensures IsBatch(existing, ByDigest(proposals), version, ws)
    ensures tally.open == |NewOf(existing, ByDigest(proposals).Keys)|
    ensures tally.reused == |ReusedOf(existing, ByDigest(proposals).Keys)|
    ensures tally.superseded == |OpenOf(existing, existing.Keys - ByDigest(proposals).Keys)|
    ensures bodies == stored + NewOf(existing, ByDigest(proposals).Keys)
  {
    hide Queued, ByDigest, NewOf, ReusedOf, OpenOf, IsBatch;
    var generated, order := IndexByDigest(proposals);
    var queued, open, reused, superseded;
    queued, open, reused, bodies := QueueFresh(existing, generated, order, version, stored);
    ws, superseded := QueueStale(existing, generated, version, queued);
    tally := Tally(open, reused, superseded);
  }

  method IndexByDigest(proposals: seq<Generated>) returns (m: map<string, Generated>, order: seq<string>)
    ensures m == ByDigest(proposals) && order == DigestOrder(proposals)
  {
    m, order := map[], [];
    for i := 0 to |proposals|
      invariant m == ByDigest(proposals[..i]) && order == DigestOrder(proposals[..i])
    {
      assert proposals[..i + 1][..i] == proposals[..i];
      var p := proposals[i];
      if p.digest !in order { order := order + [p.digest]; }
      m := m[p.digest := p];
    }
    assert proposals[..|proposals|] == proposals;
  }

  // ---- what reconciling achieves ------------------------------------------------------------------------

  /** The batch is refused exactly where a digest that was new to the read has got a row meanwhile. */
  lemma BatchHoldsIff(existing: Rows, current: Rows, generated: map<string, Generated>, version: int,
                      ws: seq<ProposalWrite>)
    requires IsBatch(existing, generated, version, ws)
    ensures BatchHolds(current, ws) <==> NewOf(existing, generated.Keys) * current.Keys == {}
  {
    hide OneWriteEach, WriteFor;
    var clash := NewOf(existing, generated.Keys) * current.Keys;
    forall w | w in ws && w.PutNew? && w.digest in current ensures w.digest in clash {
      WriteIsFor(ws, w);
      assert Wanted(existing, generated, version, w.digest) == Some(w);
    }
    forall d | d in clash ensures !BatchHolds(current, ws) {
      NotWritten(ws, d);
      assert WriteFor(ws, d) == Wanted(existing, generated, version, d);
    }
  }

  lemma {:induction false} WriteIsFor(ws: seq<ProposalWrite>, w: ProposalWrite)
    requires OneWriteEach(ws) && w in ws
    ensures WriteFor(ws, w.digest) == Some(w)
  {
    var front, last := ws[..|ws| - 1], ws[|ws| - 1];
    if w != last {
      assert w in front && forall i :: 0 <= i < |front| ==> front[i] == ws[i];
      WriteIsFor(front, w);
    }
  }

  /**
   * Every row after a batch that meets the rows it was computed from: a new digest has its content and
   * the version twice, a known one that is not submitted is open as of the version, one that is no
   * longer generated is superseded if it was open, and the others are as they were.
   */
  lemma RowsAfter(existing: Rows, generated: map<string, Generated>, version: int, ws: seq<ProposalWrite>, d: string)
    requires IsBatch(existing, generated, version, ws)
    ensures var after := Landed(existing, ws);
            && (d in after <==> d in existing || d in generated)
            && (d in generated && d !in existing ==>
                  after[d] == Proposal(Open, version, version, generated[d].content))
            && (d in generated && d in existing && existing[d].status != Submitted ==>
                  after[d] == existing[d].(status := Open, lastSeen := version))
            && (d !in generated && d in existing && existing[d].status == Open ==>
                  after[d] == existing[d].(status := Superseded))
            && (d in existing && (existing[d].status == Submitted
                                  || (d !in generated && existing[d].status == Superseded)) ==>
                  after[d] == existing[d])
  {
    hide OneWriteEach, WriteFor, ApplyAll, BatchHolds;
    BatchHoldsIff(existing, existing, generated, version, ws);
    AppliedAt(existing, ws, d);
  }

  /**
   * Main result: when the batch meets the rows it was computed from, the open proposals are
   * the fresh ones that are not submitted, and submitted ones are left alone.
   */
  lemma OpenIsFresh(existing: Rows, generated: map<string, Generated>, version: int, ws: seq<ProposalWrite>, d: string)
    requires IsBatch(existing, generated, version, ws)
    ensures var after := Landed(existing, ws);
            && (d in after && after[d].status == Open <==> d in generated && !SubmittedIn(existing, d))
            && (SubmittedIn(existing, d) ==> d in after && after[d] == existing[d])
            && (d in after <==> d in existing || d in generated)
            && (d in existing ==>
                  after[d].content == existing[d].content && after[d].firstSeen == existing[d].firstSeen)
  {
    hide OneWriteEach, WriteFor, ApplyAll, BatchHolds;
    BatchHoldsIff(existing, existing, generated, version, ws);
    AppliedAt(existing, ws, d);
  }

  /** Every row has a stored body afterwards, if every row had one before. */
  lemma EveryRowHasBody(existing: Rows, generated: map<string, Generated>, version: int, ws: seq<ProposalWrite>,
                        stored: set<string>)
    requires IsBatch(existing, generated, version, ws) && existing.Keys <= stored
    ensures Landed(existing, ws).Keys <= stored + NewOf(existing, generated.Keys)
  {
    hide IsBatch, Landed;
    forall d | d in Landed(existing, ws) ensures d in stored + NewOf(existing, generated.Keys) {
      OpenIsFresh(existing, generated, version, ws, d);
    }
  }

  /** The tally adds up: every fresh digest is new, reused or already submitted. */
  lemma TallyAddsUp(existing: Rows, ds: set<string>)
    ensures |NewOf(existing, ds)| + |ReusedOf(existing, ds)| + |SubmittedOf(existing, ds)| == |ds|
  {
    var a, b, c := NewOf(existing, ds), ReusedOf(existing, ds), SubmittedOf(existing, ds);
    Disjoint(a, b);
    Disjoint(a + b, c);
    assert ds == a + b + c;
  }

  lemma Disjoint(a: set<string>, b: set<string>)
    requires a !! b
    ensures |a + b| == |a| + |b|
  {
  }

  /** So the batch is as long as what it opens, reuses and supersedes; the seam takes 98 writes beside the entry. */
  lemma {:induction false} BatchLength(ws: seq<ProposalWrite>, ds: set<string>)
    requires OneWriteEach(ws) && forall d :: d in ds <==> WriteFor(ws, d).Some?
    ensures |ws| == |ds|
  {
    if ws == [] {
      assert ds == {};
    } else {
      var front, w := ws[..|ws| - 1], ws[|ws| - 1];
      NotWritten(front, w.digest);
      assert forall i :: 0 <= i < |front| ==> front[i] == ws[i];
      BatchLength(front, ds - {w.digest});
    }
  }

  lemma BatchIsTally(existing: Rows, generated: map<string, Generated>, version: int, ws: seq<ProposalWrite>)
    requires IsBatch(existing, generated, version, ws)
    ensures |ws| == |NewOf(existing, generated.Keys)| + |ReusedOf(existing, generated.Keys)|
                    + |OpenOf(existing, existing.Keys - generated.Keys)|
  {
    hide OneWriteEach, WriteFor;
    var a, b, c := NewOf(existing, generated.Keys), ReusedOf(existing, generated.Keys),
                   OpenOf(existing, existing.Keys - generated.Keys);
    Disjoint(a, b);
    Disjoint(a + b, c);
    forall d ensures d in a + b + c <==> WriteFor(ws, d).Some? {
      assert WriteFor(ws, d) == Wanted(existing, generated, version, d);
    }
    BatchLength(ws, a + b + c);
  }

  /** Reconciling the same fresh set once more changes nothing. */
  lemma SecondRunChangesNothing(existing: Rows, generated: map<string, Generated>, version: int,
                                ws: seq<ProposalWrite>, again: seq<ProposalWrite>)
    requires IsBatch(existing, generated, version, ws)
    requires IsBatch(Landed(existing, ws), generated, version, again)
    ensures Landed(Landed(existing, ws), again) == Landed(existing, ws)
  {
    hide OneWriteEach, WriteFor, ApplyAll, BatchHolds;
    BatchHoldsIff(existing, existing, generated, version, ws);
    var after := Landed(existing, ws);
    BatchHoldsIff(after, after, generated, version, again);
    forall d ensures At(Landed(after, again), d) == At(after, d) {
      AppliedAt(existing, ws, d);
      AppliedAt(after, again, d);
    }
    SameRows(Landed(after, again), after);
  }

  lemma SameRows(a: Rows, b: Rows)
    requires forall d :: At(a, d) == At(b, d)
    ensures a == b
  {
    forall d ensures d in a <==> d in b { assert At(a, d) == At(b, d); }
    forall d | d in a ensures a[d] == b[d] { assert At(a, d) == At(b, d); }
  }

  /**
   * A submit that overtakes the read stays exactly if the batch is refused, because a digest
   * that was new to the read has a row by now, or does not write the row. The updates themselves
   * are unguarded, so otherwise they undo it.
   */
  lemma OvertakenIff(existing: Rows, current: Rows, generated: map<string, Generated>, version: int,
                     ws: seq<ProposalWrite>, d: string)
    requires IsBatch(existing, generated, version, ws) && d in existing && SubmittedIn(current, d)
    ensures var after := Landed(current, ws);
            d in after && (after[d].status == Submitted <==>
                             || NewOf(existing, generated.Keys) * current.Keys != {}
                             || SubmittedIn(existing, d)
                             || (existing[d].status == Superseded && d !in generated))
  {
    hide OneWriteEach, WriteFor, ApplyAll, BatchHolds;
    BatchHoldsIff(existing, current, generated, version, ws);
    AppliedAt(current, ws, d);
  }
}
