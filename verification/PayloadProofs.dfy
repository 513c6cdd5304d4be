/** What the scanner guarantees: ordered verbatim slices, a printer it inverts, and edits it is blind to. */
module PayloadProofs {
  import opened Strings
  import opened HclText
  import opened Payloads

  // ---- slices --------------------------------------------------------------------------------------

  /** Blocks come in document order and do not overlap. */
  lemma {:induction false} ScanOrdered(lines: seq<string>, i: nat, j: nat, k: nat)
    requires j < k < |Scan(lines, i)|
    ensures var f, g := Scan(lines, i)[j], Scan(lines, i)[k];
            f.start < g.start && (f.end.Some? ==> f.end.value < g.start)
    decreases |lines| - i
  {
    hide Header, BlockEnd, Scan, After;
    ScanStep(lines, i);
    if i < |lines| {
      if Header(lines[i]).None? {
        ScanOrdered(lines, i + 1, j, k);
      } else {
        var rest := Scan(lines, After(lines, i));
        assert rest[k - 1] in rest;
        ScanBounds(lines, After(lines, i), rest[k - 1]);
        AfterEnd(lines, i);
        if j > 0 { ScanOrdered(lines, After(lines, i), j - 1, k - 1); }
      }
    }
  }

  lemma AfterEnd(lines: seq<string>, i: nat)
    requires i < |lines| && Header(lines[i]).Some?
    ensures HeadFound(lines, i).start == i < After(lines, i)
    ensures HeadFound(lines, i).end.Some? ==> HeadFound(lines, i).end.value < After(lines, i)
  {
    hide Header, BlockEnd;
  }

  /** A block's text is a slice of the document, byte for byte, when newline is the document's only line end. */
  lemma BlockIsVerbatim(text: string, f: Found)
    requires f in Scan(SplitLines(text), 0) && f.end.Some? && OnlyNewlines(text)
    ensures f.start < f.end.value < |SplitLines(text)|
    ensures var lines := SplitLines(text);
            WithFinalNewline(text)
            == Unlines(lines[..f.start]) + (BlockText(lines, f) + Unlines(lines[f.end.value + 1..]))
  {
    hide SplitLines, Unlines, WithFinalNewline, OnlyNewlines, Scan;
    var lines := SplitLines(text);
    ScanBounds(lines, 0, f);
    LinesVerbatimIff(text);
    var before, block, after := lines[..f.start], lines[f.start..f.end.value + 1], lines[f.end.value + 1..];
    assert lines == before + (block + after);
    UnlinesConcat(before, block + after);
    UnlinesConcat(block, after);
  }

  // ---- printing and splitting ----------------------------------------------------------------------

  /** A piece of a block's body: a line that means nothing to the scanner, or a whole heredoc. */
  datatype Part = Plain(line: string) | HereText(open: string, body: seq<string>, close: string)

  datatype Piece = Filler(line: string) | Block(kind: string, name: string, parts: seq<Part>)

  predicate WellFormedPart(p: Part) {
    match p
    case Plain(line) => line != "}" && Header(line).None? && Opens(line).NoDoc?
    case HereText(open, body, close) =>
      && open != "}" && Header(open).None? && Opens(open).Doc?
      && (forall i :: 0 <= i < |body| ==> !Closes(Opens(open), body[i]))
      && Closes(Opens(open), close)
  }

  predicate WellFormedPiece(p: Piece) {
    match p
    case Filler(line) => Header(line).None?
    case Block(kind, name, parts) => Word(kind) && Identifier(name) && forall x :: x in parts ==> WellFormedPart(x)
  }

  function PartLines(p: Part): seq<string> {
    match p
    case Plain(line) => [line]
    case HereText(open, body, close) => [open] + body + [close]
  }

  function BodyLines(parts: seq<Part>): seq<string> {
    if parts == [] then [] else PartLines(parts[0]) + BodyLines(parts[1..])
  }

  function PieceLines(p: Piece): seq<string> {
    match p
    case Filler(line) => [line]
    case Block(kind, name, parts) => [HeaderLine(kind, name)] + BodyLines(parts) + ["}"]
  }

  function Print(pieces: seq<Piece>): seq<string> {
    if pieces == [] then [] else PieceLines(pieces[0]) + Print(pieces[1..])
  }

  function AddressOf(p: Piece): string
    requires p.Block?
  {
    p.kind + "." + p.name
  }

  function PieceFound(p: Piece, i: nat): seq<Found> {
    if p.Block? then [Found(AddressOf(p), i, Some(i + |PieceLines(p)| - 1))] else []
  }

  /** What a scan should find in a printed document whose first line is number `i`. */
  function Printed(pieces: seq<Piece>, i: nat): seq<Found> {
    if pieces == [] then []
    else
      var n := |PieceLines(pieces[0])|;
      PieceFound(pieces[0], i) + Printed(pieces[1..], i + n)
  }

  /** Scanning from line `j` on sees only the lines from `j` on. */
  predicate Tail(lines: seq<string>, j: nat, rest: seq<string>) { j + |rest| == |lines| && lines[j..] == rest }

  lemma {:induction false} HereTextIsSkipped(lines: seq<string>, j: nat, h: Heredoc, body: seq<string>,
                                             close: string, rest: seq<string>)
    requires h.Doc? && Tail(lines, j, body + ([close] + rest)) && Closes(h, close)
    requires forall i :: 0 <= i < |body| ==> !Closes(h, body[i])
    ensures BlockEnd(lines, j, h) == BlockEnd(lines, j + |body| + 1, NoDoc)
    decreases |body|
  {
    hide Header, Opens, Closes;
    assert lines[j] == lines[j..][0];
    if body == [] {
      assert lines[j] == close;
    } else {
      assert lines[j] == body[0];
      assert lines[j + 1..] == lines[j..][1..] == body[1..] + ([close] + rest);
      HereTextIsSkipped(lines, j + 1, h, body[1..], close, rest);
    }
  }

  lemma PartIsSkipped(lines: seq<string>, j: nat, p: Part, rest: seq<string>)
    requires WellFormedPart(p) && Tail(lines, j, PartLines(p) + rest)
    ensures BlockEnd(lines, j, NoDoc) == BlockEnd(lines, j + |PartLines(p)|, NoDoc)
  {
    hide Header, Opens, Closes;
    assert lines[j] == lines[j..][0];
    if p.HereText? {
      assert lines[j + 1..] == lines[j..][1..] == p.body + ([p.close] + rest);
      HereTextIsSkipped(lines, j + 1, Opens(p.open), p.body, p.close, rest);
    }
  }

  lemma {:induction false} BodyIsSkipped(lines: seq<string>, j: nat, parts: seq<Part>, rest: seq<string>)
    requires forall x :: x in parts ==> WellFormedPart(x)
    requires Tail(lines, j, BodyLines(parts) + (["}"] + rest))
    ensures BlockEnd(lines, j, NoDoc) == Some(j + |BodyLines(parts)|)
    decreases |parts|
  {
    hide WellFormedPart, PartLines, Header, Opens;
    if parts == [] {
      assert lines[j] == lines[j..][0] == "}";
    } else {
      var p, more := PartLines(parts[0]), BodyLines(parts[1..]);
      assert BodyLines(parts) + (["}"] + rest) == p + (more + (["}"] + rest));
      PartIsSkipped(lines, j, parts[0], more + (["}"] + rest));
      assert lines[j + |p|..] == lines[j..][|p|..] == more + (["}"] + rest);
      BodyIsSkipped(lines, j + |p|, parts[1..], rest);
    }
  }

  /** Scanning inverts printing: exactly the printed blocks are found, decoys in heredocs included. */
  lemma {:induction false} ScanInvertsPrint(lines: seq<string>, i: nat, pieces: seq<Piece>)
    requires forall p :: p in pieces ==> WellFormedPiece(p)
    requires Tail(lines, i, Print(pieces))
    ensures Scan(lines, i) == Printed(pieces, i)
    decreases |pieces|
  {
    hide Header, Scan, AddressOf, PieceLines, WellFormedPiece, Printed, Print, HeadFound, After, Tail;
    PrintSteps(pieces, i);
    if pieces == [] {
      NothingLeft(lines, i);
    } else {
      var p, rest := pieces[0], pieces[1..];
      var n := |PieceLines(p)|;
      TailStep(lines, i, PieceLines(p), Print(rest));
      ScanInvertsPrint(lines, i + n, rest);
      PieceIsScanned(lines, i, p, Print(rest));
    }
  }

  lemma NothingLeft(lines: seq<string>, i: nat)
    requires Tail(lines, i, [])
    ensures Scan(lines, i) == []
  {
  }

  lemma PrintSteps(pieces: seq<Piece>, i: nat)
    ensures Print(pieces) == if pieces == [] then [] else PieceLines(pieces[0]) + Print(pieces[1..])
    ensures Printed(pieces, i)
            == if pieces == [] then []
               else PieceFound(pieces[0], i) + Printed(pieces[1..], i + |PieceLines(pieces[0])|)
  {
  }

  lemma PieceIsScanned(lines: seq<string>, i: nat, p: Piece, rest: seq<string>)
    requires WellFormedPiece(p) && Tail(lines, i, PieceLines(p) + rest)
    ensures Scan(lines, i) == PieceFound(p, i) + Scan(lines, i + |PieceLines(p)|)
  {
    hide Header, Scan, AddressOf, PieceLines, WellFormedPiece, BlockEnd;
    BlockHasLines(p);
    ScanStep(lines, i);
    if p.Block? {
      BlockIsScanned(lines, i, p, rest);
    } else {
      FillerIsSkipped(lines, i, p, rest);
    }
  }

  lemma FillerIsSkipped(lines: seq<string>, i: nat, p: Piece, rest: seq<string>)
    requires p.Filler? && WellFormedPiece(p) && Tail(lines, i, PieceLines(p) + rest)
    ensures |PieceLines(p)| == 1 && Header(lines[i]).None?
  {
    hide Header;
    assert lines[i] == lines[i..][0];
  }

  lemma BlockIsScanned(lines: seq<string>, i: nat, p: Piece, rest: seq<string>)
    requires p.Block? && WellFormedPiece(p) && Tail(lines, i, PieceLines(p) + rest)
    ensures Header(lines[i]) == Some(AddressOf(p)) && BlockEnd(lines, i + 1, NoDoc) == Some(i + |PieceLines(p)| - 1)
  {
    hide Header, BlockEnd, BodyLines, WellFormedPart, HeaderLine;
    assert lines[i] == lines[i..][0] == HeaderLine(p.kind, p.name);
    PrintedHeader(p.kind, p.name);
    assert lines[i + 1..] == lines[i..][1..] == BodyLines(p.parts) + (["}"] + rest);
    BodyIsSkipped(lines, i + 1, p.parts, rest);
  }

  function BlocksOf(pieces: seq<Piece>): (bs: seq<Piece>)
    ensures forall b :: b in bs <==> b in pieces && b.Block?
  {
    if pieces == [] then []
    else
      assert pieces == [pieces[0]] + pieces[1..];
      (if pieces[0].Block? then [pieces[0]] else []) + BlocksOf(pieces[1..])
  }

  /** The k-th scanned header is that of the k-th printed block, and its text is that block. */
  lemma {:induction false} PrintedIs(pieces: seq<Piece>, i: nat, lines: seq<string>, k: nat)
    requires Tail(lines, i, Print(pieces)) && k < |BlocksOf(pieces)|
    ensures |Printed(pieces, i)| == |BlocksOf(pieces)|
    ensures var f, b := Printed(pieces, i)[k], BlocksOf(pieces)[k];
            && f.address == AddressOf(b) && f.end.Some? && f.start <= f.end.value < |lines|
            && lines[f.start..f.end.value + 1] == PieceLines(b)
    decreases |pieces|
  {
    hide PieceLines, AddressOf, Printed, Print, BlocksOf, Tail;
    PrintedLength(pieces, i);
    PrintSteps(pieces, i);
    BlocksStep(pieces);
    var p, rest := pieces[0], pieces[1..];
    var ls := PieceLines(p);
    TailStep(lines, i, ls, Print(rest));
    BlockHasLines(p);
    if !p.Block? {
      PrintedIs(rest, i + |ls|, lines, k);
    } else if k > 0 {
      PrintedIs(rest, i + |ls|, lines, k - 1);
    }
  }

  lemma BlocksStep(pieces: seq<Piece>)
    ensures BlocksOf(pieces)
            == if pieces == [] then []
               else (if pieces[0].Block? then [pieces[0]] else []) + BlocksOf(pieces[1..])
  {
  }

  lemma TailStep(lines: seq<string>, i: nat, ls: seq<string>, rest: seq<string>)
    requires Tail(lines, i, ls + rest)
    ensures i + |ls| <= |lines| && Tail(lines, i + |ls|, rest) && lines[i..i + |ls|] == ls
  {
    assert lines[i + |ls|..] == lines[i..][|ls|..];
    assert lines[i..i + |ls|] == lines[i..][..|ls|];
  }

  lemma BlockHasLines(p: Piece)
    ensures |PieceLines(p)| >= 1
  {
  }

  lemma {:induction false} PrintedLength(pieces: seq<Piece>, i: nat)
    ensures |Printed(pieces, i)| == |BlocksOf(pieces)|
  {
    if pieces != [] { PrintedLength(pieces[1..], i + |PieceLines(pieces[0])|); }
  }

  predicate OneLinePieces(pieces: seq<Piece>) { forall l :: l in Print(pieces) ==> OneLine(l) }

  /**
   * Main result on splitting: a document printed from well-formed blocks of distinct
   * addresses splits into exactly those blocks, whatever their heredocs contain.
   */
  lemma SplitInvertsPrint(pieces: seq<Piece>, blocks: map<string, string>, ambiguous: map<string, Reason>)
    requires forall p :: p in pieces ==> WellFormedPiece(p)
    requires OneLinePieces(pieces)
    requires var bs := BlocksOf(pieces); forall i, j :: 0 <= i < j < |bs| ==> AddressOf(bs[i]) != AddressOf(bs[j])
    requires var lines := SplitLines(Unlines(Print(pieces))); Sorted(lines, Scan(lines, 0), blocks, ambiguous)
    ensures ambiguous == map[]
    ensures blocks.Keys == set b | b in BlocksOf(pieces) :: AddressOf(b)
    ensures forall b :: b in BlocksOf(pieces) ==>
              AddressOf(b) in blocks && blocks[AddressOf(b)] == Unlines(PieceLines(b))
  {
    hide PieceLines, AddressOf, WellFormedPiece, Printed, Print, BlocksOf, OnlyAt, Scanned, IsText;
    var lines, bs := Print(pieces), BlocksOf(pieces);
    SplitUnlines(lines);
    assert Tail(lines, 0, Print(pieces)) by { assert lines[0..] == lines; }
    ScanInvertsPrint(lines, 0, pieces);
    var fs := Printed(pieces, 0);
    PrintedLength(pieces, 0);
    forall k | 0 <= k < |bs|
      ensures AddressOf(bs[k]) in blocks && blocks[AddressOf(bs[k])] == Unlines(PieceLines(bs[k]))
    {
      PrintedOnce(pieces, lines, k);
      PrintedText(pieces, lines, k, blocks[AddressOf(bs[k])]);
    }
    forall a ensures Scanned(fs, a) ==> Usable(fs, a) && exists k :: 0 <= k < |bs| && AddressOf(bs[k]) == a {
      if Scanned(fs, a) {
        var k := ScannedAt(fs, a);
        PrintedOnce(pieces, lines, k);
      }
    }
    forall a | a in blocks ensures a in set b | b in bs :: AddressOf(b) {
      var k :| 0 <= k < |bs| && AddressOf(bs[k]) == a;
      assert bs[k] in bs;
    }
    forall b | b in bs ensures AddressOf(b) in blocks && blocks[AddressOf(b)] == Unlines(PieceLines(b)) {
      var k :| 0 <= k < |bs| && bs[k] == b;
    }
  }

  lemma ScannedAt(fs: seq<Found>, a: string) returns (k: nat)
    requires Scanned(fs, a)
    ensures k < |fs| && fs[k].address == a
  {
    k :| 0 <= k < |fs| && fs[k].address == a;
  }

  lemma PrintedOnce(pieces: seq<Piece>, lines: seq<string>, k: nat)
    requires Tail(lines, 0, Print(pieces)) && k < |BlocksOf(pieces)|
    requires var bs := BlocksOf(pieces); forall i, j :: 0 <= i < j < |bs| ==> AddressOf(bs[i]) != AddressOf(bs[j])
    ensures |Printed(pieces, 0)| == |BlocksOf(pieces)|
    ensures OnlyAt(Printed(pieces, 0), AddressOf(BlocksOf(pieces)[k]), k)
    ensures Printed(pieces, 0)[k].address == AddressOf(BlocksOf(pieces)[k])
    ensures Usable(Printed(pieces, 0), AddressOf(BlocksOf(pieces)[k]))
  {
    hide PieceLines, AddressOf, Printed, Print, BlocksOf, Tail;
    var fs, bs := Printed(pieces, 0), BlocksOf(pieces);
    PrintedLength(pieces, 0);
    forall j | 0 <= j < |fs| ensures fs[j].address == AddressOf(bs[j]) && fs[j].end.Some? {
      PrintedIs(pieces, 0, lines, j);
    }
  }

  lemma PrintedText(pieces: seq<Piece>, lines: seq<string>, k: nat, text: string)
    requires Tail(lines, 0, Print(pieces)) && k < |BlocksOf(pieces)| && k < |Printed(pieces, 0)|
    requires IsText(lines, Printed(pieces, 0)[k], text)
    ensures text == Unlines(PieceLines(BlocksOf(pieces)[k]))
  {
    hide PieceLines, Printed, Print, BlocksOf, Tail, Unlines;
    PrintedIs(pieces, 0, lines, k);
  }
}
