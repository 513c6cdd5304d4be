/**
 * The block scanner over generated configuration: which resource blocks a document holds,
 * which of them can be trusted, and what is attached to a candidate finding.
 */
module Payloads {
  import opened Strings
  import opened HclText

  // ---- what a scan finds -------------------------------------------------------------------------

  /** A scanned header, and the line that closes its block if one does. */
  datatype Found = Found(address: string, start: nat, end: Option<nat>)

  /** The first closing brace from line `j` on that no heredoc hides; none if a header or the end comes first. */
  function BlockEnd(lines: seq<string>, j: nat, h: Heredoc): (end: Option<nat>)
    ensures end.Some? ==> j <= end.value < |lines| && lines[end.value] == "}"
    decreases |lines| - j
  {
    if j >= |lines| then None
    else if h.Doc? then BlockEnd(lines, j + 1, if Closes(h, lines[j]) then NoDoc else h)
    else if lines[j] == "}" then Some(j)
    else if Header(lines[j]).Some? then None
    else BlockEnd(lines, j + 1, Opens(lines[j]))
  }

  function Scan(lines: seq<string>, i: nat): seq<Found>
    decreases |lines| - i
  {
    if i >= |lines| then []
    else if Header(lines[i]).None? then Scan(lines, i + 1)
    else
      var end := BlockEnd(lines, i + 1, NoDoc);
      [Found(Header(lines[i]).value, i, end)] + Scan(lines, if end.Some? then end.value + 1 else i + 1)
  }

  /** The header on line `j`, as a scan finds it. */
  function HeadFound(lines: seq<string>, j: nat): Found
    requires j < |lines| && Header(lines[j]).Some?
  {
    Found(Header(lines[j]).value, j, BlockEnd(lines, j + 1, NoDoc))
  }

  /** Where the scan goes on after the header on line `j`. */
  function After(lines: seq<string>, j: nat): (next: nat)
    requires j < |lines|
    ensures j < next <= |lines|
  {
    var end := BlockEnd(lines, j + 1, NoDoc);
    if end.Some? then end.value + 1 else j + 1
  }

  lemma ScanStep(lines: seq<string>, j: nat)
    ensures Scan(lines, j)
            == if j >= |lines| then []
               else if Header(lines[j]).None? then Scan(lines, j + 1)
               else [HeadFound(lines, j)] + Scan(lines, After(lines, j))
  {
    hide Header, BlockEnd;
  }

  lemma HeadAppended(lines: seq<string>, i: nat, end: Option<nat>, fs: seq<Found>)
    requires i < |lines| && Header(lines[i]).Some? && end == BlockEnd(lines, i + 1, NoDoc)
    ensures fs + Scan(lines, i)
            == (fs + [Found(Header(lines[i]).value, i, end)]) + Scan(lines, if end.Some? then end.value + 1 else i + 1)
  {
    hide Header, BlockEnd, Scan;
    ScanStep(lines, i);
  }

  /** What a scan finds lies after its start, and closes at a brace. */
  lemma {:induction false} ScanBounds(lines: seq<string>, i: nat, f: Found)
    requires f in Scan(lines, i)
    ensures i <= f.start < |lines|
    ensures f.end.Some? ==> f.start < f.end.value < |lines| && lines[f.end.value] == "}"
    decreases |lines| - i
  {
    hide Header, Scan, After;
    ScanStep(lines, i);
    if i < |lines| {
      if Header(lines[i]).None? {
        ScanBounds(lines, i + 1, f);
      } else if f != HeadFound(lines, i) {
        ScanBounds(lines, After(lines, i), f);
      }
    }
  }

  /** It starts at a header of its address, and ends where the block of that header does. */
  lemma {:induction false} ScanIs(lines: seq<string>, i: nat, f: Found)
    requires f in Scan(lines, i)
    ensures f.start < |lines| && Header(lines[f.start]) == Some(f.address)
    ensures f.end == BlockEnd(lines, f.start + 1, NoDoc)
    decreases |lines| - i
  {
    hide Header, Scan, After, BlockEnd;
    ScanStep(lines, i);
    if i < |lines| {
      if Header(lines[i]).None? {
        ScanIs(lines, i + 1, f);
      } else if f != HeadFound(lines, i) {
        ScanIs(lines, After(lines, i), f);
      }
    }
  }

  function BlockText(lines: seq<string>, f: Found): string
    requires f.end.Some? && f.start <= f.end.value < |lines|
  {
    Unlines(lines[f.start..f.end.value + 1])
  }

  predicate Scanned(fs: seq<Found>, address: string) { exists i :: 0 <= i < |fs| && fs[i].address == address }

  /** Entry `i` is the only one of its address, and it closes. */
  predicate OnlyAt(fs: seq<Found>, address: string, i: nat) {
    && i < |fs| && fs[i].address == address && fs[i].end.Some?
    && forall j :: 0 <= j < |fs| && fs[j].address == address ==> j == i
  }

  ghost predicate Usable(fs: seq<Found>, address: string) { exists i: nat :: OnlyAt(fs, address, i) }

  // ---- the scanner -------------------------------------------------------------------------------

  datatype Reason = Unterminated(line: nat) | Duplicate

  /** The last of the scanned headers of an address. */
  function LastFound(fs: seq<Found>, address: string): Option<Found> {
    if fs == [] then None
    else if fs[|fs| - 1].address == address then Some(fs[|fs| - 1])
    else LastFound(fs[..|fs| - 1], address)
  }

  function ReasonFor(f: Found): Reason { if f.end.None? then Unterminated(f.start + 1) else Duplicate }

  predicate IsText(lines: seq<string>, f: Found, text: string) {
    f.end.Some? && f.start <= f.end.value < |lines| && text == BlockText(lines, f)
  }

  /** The two dictionaries after what was found so far. */
  ghost predicate Sorted(lines: seq<string>, fs: seq<Found>, blocks: map<string, string>,
                         ambiguous: map<string, Reason>) {
    && (forall a :: a in ambiguous <==> Scanned(fs, a) && !Usable(fs, a))
    && (forall a :: a in ambiguous ==> LastFound(fs, a).Some? && ambiguous[a] == ReasonFor(LastFound(fs, a).value))
    && (forall a :: a in blocks ==> Scanned(fs, a))
    && (forall a, i: nat :: i < |fs| && OnlyAt(fs, a, i) ==> a in blocks && IsText(lines, fs[i], blocks[a]))
  }

  lemma OnlyAtGrows(fs: seq<Found>, f: Found, a: string, i: nat)
    ensures OnlyAt(fs + [f], a, i) <==>
            if f.address == a then i == |fs| && f.end.Some? && !Scanned(fs, a) else OnlyAt(fs, a, i)
  {
    var gs := fs + [f];
    assert gs[|fs|] == f && forall k :: 0 <= k < |fs| ==> gs[k] == fs[k];
  }

  lemma ScannedGrows(fs: seq<Found>, f: Found, a: string)
    ensures Scanned(fs + [f], a) <==> Scanned(fs, a) || f.address == a
  {
    var gs := fs + [f];
    assert gs[|fs|] == f && forall k :: 0 <= k < |fs| ==> gs[k] == fs[k];
  }

  /** One more header found, and what becomes of it. */
  lemma SortedGrows(lines: seq<string>, fs: seq<Found>, f: Found, blocks: map<string, string>,
                    ambiguous: map<string, Reason>,
                    blocks': map<string, string>, ambiguous': map<string, Reason>)
    requires Sorted(lines, fs, blocks, ambiguous)
    requires f.end.Some? ==> f.start <= f.end.value < |lines|
    requires if f.end.None? then blocks' == blocks && ambiguous' == ambiguous[f.address := ReasonFor(f)]
             else if f.address in blocks || f.address in ambiguous
             then ambiguous' == ambiguous[f.address := ReasonFor(f)] && blocks' == blocks - {f.address}
             else ambiguous' == ambiguous && blocks' == blocks[f.address := BlockText(lines, f)]
    ensures Sorted(lines, fs + [f], blocks', ambiguous')
  {
    hide OnlyAt, Scanned, BlockText, Usable;
    var gs := fs + [f];
    forall a ensures LastFound(gs, a) == if f.address == a then Some(f) else LastFound(fs, a) {
      LastAppended(fs, f, a);
    }
    forall a ensures a in ambiguous' <==> Scanned(gs, a) && !Usable(gs, a) {
      AfterOneMore(fs, f, a);
      KnownIffScanned(lines, fs, blocks, ambiguous, a);
    }
    forall a ensures a in blocks' ==> Scanned(gs, a) { ScannedGrows(fs, f, a); }
    forall a, i: nat | i < |gs| && OnlyAt(gs, a, i) ensures a in blocks' && IsText(lines, gs[i], blocks'[a]) {
      OnlyAtGrows(fs, f, a, i);
      OnlyAtIs(gs, a, i);
      KnownIffScanned(lines, fs, blocks, ambiguous, a);
      if f.address != a { OnlyAtIs(fs, a, i); }
    }
  }

  lemma LastAppended(fs: seq<Found>, f: Found, a: string)
    ensures LastFound(fs + [f], a) == if f.address == a then Some(f) else LastFound(fs, a)
  {
    assert (fs + [f])[..|fs|] == fs;
  }

  lemma OnlyAtIs(fs: seq<Found>, a: string, i: nat)
    requires OnlyAt(fs, a, i)
    ensures i < |fs| && fs[i].address == a && fs[i].end.Some?
  {
  }

  lemma AfterOneMore(fs: seq<Found>, f: Found, a: string)
    ensures Scanned(fs + [f], a) <==> Scanned(fs, a) || f.address == a
    ensures Usable(fs + [f], a) <==> if f.address == a then f.end.Some? && !Scanned(fs, a) else Usable(fs, a)
  {
    hide OnlyAt, Scanned;
    ScannedGrows(fs, f, a);
    forall i: nat ensures OnlyAt(fs + [f], a, i) <==>
                          if f.address == a then i == |fs| && f.end.Some? && !Scanned(fs, a) else OnlyAt(fs, a, i)
    {
      OnlyAtGrows(fs, f, a, i);
    }
    if f.address == a && f.end.Some? && !Scanned(fs, a) { assert OnlyAt(fs + [f], a, |fs|); }
  }

  lemma KnownIffScanned(lines: seq<string>, fs: seq<Found>, blocks: map<string, string>,
                        ambiguous: map<string, Reason>, a: string)
    requires Sorted(lines, fs, blocks, ambiguous)
    ensures a in blocks || a in ambiguous <==> Scanned(fs, a)
  {
    hide OnlyAt, IsText;
    if Usable(fs, a) {
      var i: nat :| OnlyAt(fs, a, i);
      OnlyAtIs(fs, a, i);
    }
  }

  method FindEnd(lines: seq<string>, i: nat) returns (end: Option<nat>)
    requires i < |lines|
    ensures end == BlockEnd(lines, i + 1, NoDoc)
  {
    var j := i + 1;
    end := None;
    var heredoc := NoDoc;
    while j < |lines|
      invariant i < j <= |lines| && end == None
      invariant BlockEnd(lines, i + 1, NoDoc) == BlockEnd(lines, j, heredoc)
      decreases |lines| - j
    {
      if heredoc.Doc? {
        if Closes(heredoc, lines[j]) { heredoc := NoDoc; }
        j := j + 1;
        continue;
      }
      if lines[j] == "}" { return Some(j); }
      if Header(lines[j]).Some? { break; }
      heredoc := Opens(lines[j]);
      j := j + 1;
    }
  }

  method SplitGenerated(text: string) returns (blocks: map<string, string>, ambiguous: map<string, Reason>)
    ensures Sorted(SplitLines(text), Scan(SplitLines(text), 0), blocks, ambiguous)
  {
    hide Sorted, Usable, OnlyAt, Scanned, LastFound, Header, BlockEnd, Scan, SplitLines, Unlines;
    var lines := SplitLines(text);
    blocks, ambiguous := map[], map[];
    NothingSorted(lines);
    ghost var fs: seq<Found> := [];
    var i := 0;
    while i < |lines|
      invariant 0 <= i <= |lines|
      invariant Scan(lines, 0) == fs + Scan(lines, i)
      invariant Sorted(lines, fs, blocks, ambiguous)
      decreases |lines| - i
    {
      var m := Header(lines[i]);
      if m.None? {
        ScanStep(lines, i);
        i := i + 1;
        continue;
      }
      var address := m.value;
      var end := FindEnd(lines, i);
      ghost var f, blocks0, ambiguous0 := Found(address, i, end), blocks, ambiguous;
      var reason := if end.None? then Unterminated(i + 1) else Duplicate;
      if end.None? {
        ambiguous := ambiguous[address := reason];
        i := i + 1;
      } else {
        if address in blocks || address in ambiguous {
          ambiguous := ambiguous[address := reason];
          blocks := blocks - {address};
        } else {
          blocks := blocks[address := Unlines(lines[i..end.value + 1])];
        }
        i := end.value + 1;
      }
      HeadAppended(lines, f.start, end, fs);
      SortedGrows(lines, fs, f, blocks0, ambiguous0, blocks, ambiguous);
      fs := fs + [f];
    }
    ScanStep(lines, i);
    assert fs + [] == fs;
  }

  lemma NothingSorted(lines: seq<string>)
    ensures Sorted(lines, [], map[], map[])
  {
  }
}
