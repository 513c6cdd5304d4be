/** From labels to payloads: the addresses one tool hands on are addresses the next one finds. */
module ImporterChain {
  import opened Strings
  import opened Sorting
  import opened Labels
  import opened Discovery
  import opened HclText
  import GenImports
  import Payloads
  import PayloadProofs

  /** A label of the manifest is a name of the scanner's header pattern. */
  lemma LabelIsIdentifier(name: string)
    requires LabelOk(name)
    ensures Identifier(name)
  {
    forall c | c in name ensures WordChar(c) {
      var i :| 0 <= i < |name| && name[i] == c;
    }
  }

  /** Two orders of the same `n` things: each undoes the other. */
  predicate Shuffle(there: seq<nat>, back: seq<nat>, n: nat) {
    && |there| == |back| == n
    && (forall i :: 0 <= i < n ==> there[i] < n && back[there[i]] == i)
    && (forall i :: 0 <= i < n ==> back[i] < n && there[back[i]] == i)
  }

  /** A generated document with one block for each import block that was written, in any order, and whatever between. */
  ghost predicate GeneratedFor(imports: seq<GenImports.Labelled>, pieces: seq<PayloadProofs.Piece>) {
    var blocks := PayloadProofs.BlocksOf(pieces);
    && (exists there, back :: Shuffle(there, back, |imports|) && BlocksMatch(imports, blocks, there))
    && (forall p :: p in pieces && p.Filler? ==> Header(p.line).None?)
    && (forall p, x :: p in pieces && p.Block? && x in p.parts ==> PayloadProofs.WellFormedPart(x))
    && PayloadProofs.OneLinePieces(pieces)
  }

  /** Block `i` is that of import `there[i]`. */
  ghost predicate BlocksMatch(imports: seq<GenImports.Labelled>, blocks: seq<PayloadProofs.Piece>, there: seq<nat>) {
    && |blocks| == |there| && (forall i :: 0 <= i < |there| ==> there[i] < |imports|)
    && forall i :: 0 <= i < |blocks| ==>
         blocks[i].Block? && blocks[i].kind == imports[there[i]].row.kind && blocks[i].name == imports[there[i]].name
  }

  lemma GeneratedIsWellFormed(imports: seq<GenImports.Labelled>, pieces: seq<PayloadProofs.Piece>)
    requires GeneratedFor(imports, pieces)
    requires forall i :: 0 <= i < |imports| ==> Word(imports[i].row.kind) && LabelOk(imports[i].name)
    ensures forall p :: p in pieces ==> PayloadProofs.WellFormedPiece(p)
  {
    hide Header, LabelOk, Word, Identifier, PayloadProofs.WellFormedPart;
    var blocks := PayloadProofs.BlocksOf(pieces);
    var there, back :| Shuffle(there, back, |imports|) && BlocksMatch(imports, blocks, there);
    forall p | p in pieces ensures PayloadProofs.WellFormedPiece(p) {
      if p.Block? {
        assert p in blocks;
        var i :| 0 <= i < |blocks| && blocks[i] == p;
        LabelIsIdentifier(imports[there[i]].name);
      }
    }
  }

  /**
   * Main result across the tools: label a manifest, write its import blocks, let the provider
   * generate one block for each; then splitting the result finds every address that was
   * imported, with its own block, and finds none of them ambiguous.
   */
  lemma ImportedIsFound(lower: string -> string, specs: seq<TypeSpec>, overrides: map<string, string>,
                        out: seq<GenImports.Labelled>, phase: int, pieces: seq<PayloadProofs.Piece>,
                        blocks: map<string, string>, ambiguous: map<string, Payloads.Reason>)
    requires forall i :: i in AllItems(specs) ==> !Nameless(i)
    requires GenImports.IsLabelling(lower, Sort(GenImports.RowLess(lower), Rows(overrides, AllItems(specs))), out)
    requires forall i :: 0 <= i < |out| ==> Word(out[i].row.kind)
    requires GeneratedFor(Sort(GenImports.AddressLess(), GenImports.Selected(out, phase)), pieces)
    requires var lines := SplitLines(Unlines(PayloadProofs.Print(pieces)));
             Payloads.Sorted(lines, Payloads.Scan(lines, 0), blocks, ambiguous)
    ensures ambiguous == map[]
    ensures forall l :: l in GenImports.Selected(out, phase) ==>
              GenImports.AddressOf(l) in blocks
              && exists p :: p in pieces && p.Block? && p.kind == l.row.kind && p.name == l.name
                             && blocks[GenImports.AddressOf(l)] == Unlines(PayloadProofs.PieceLines(p))
  {
    hide LabelOk, GenImports.IsLabelling, Rows, GenImports.RowLess, GenImports.AddressLess, Payloads.Sorted,
         PayloadProofs.PieceLines, PayloadProofs.Print, Payloads.Scan, SplitLines, Unlines, AllItems, Sort,
         GeneratedFor;
    var chosen := GenImports.Selected(out, phase);
    var imports := Sort(GenImports.AddressLess(), chosen);
    GenImports.ManifestIsAccepted(lower, specs, overrides, out, phase);
    GenImports.LabelsAreUnique(lower, Sort(GenImports.RowLess(lower), Rows(overrides, AllItems(specs))), out);
    forall i | 0 <= i < |imports| ensures Word(imports[i].row.kind) && LabelOk(imports[i].name) {
      ChosenIsLabelled(out, phase, i);
    }
    GeneratedIsWellFormed(imports, pieces);
    AddressesDiffer(imports, pieces);
    PayloadProofs.SplitInvertsPrint(pieces, blocks, ambiguous);
    forall l | l in chosen
      ensures GenImports.AddressOf(l) in blocks
      ensures exists p :: p in pieces && p.Block? && p.kind == l.row.kind && p.name == l.name
                          && blocks[GenImports.AddressOf(l)] == Unlines(PayloadProofs.PieceLines(p))
    {
      assert l in multiset(imports);
      var p := BlockFor(imports, pieces, l);
    }
  }

  lemma ChosenIsLabelled(out: seq<GenImports.Labelled>, phase: int, i: nat)
    requires forall k :: 0 <= k < |out| ==> Word(out[k].row.kind) && LabelOk(out[k].name)
    requires i < |Sort(GenImports.AddressLess(), GenImports.Selected(out, phase))|
    ensures var l := Sort(GenImports.AddressLess(), GenImports.Selected(out, phase))[i];
            Word(l.row.kind) && LabelOk(l.name)
  {
    hide Word, LabelOk, GenImports.AddressLess, Sort;
    var imports := Sort(GenImports.AddressLess(), GenImports.Selected(out, phase));
    assert imports[i] in multiset(imports);
    assert imports[i] in GenImports.Selected(out, phase);
    var k :| 0 <= k < |out| && out[k] == imports[i];
  }

  lemma AddressesDiffer(imports: seq<GenImports.Labelled>, pieces: seq<PayloadProofs.Piece>)
    requires GeneratedFor(imports, pieces) && GenImports.DistinctAddresses(imports)
    ensures PayloadProofs.OneLinePieces(pieces)
    ensures var bs := PayloadProofs.BlocksOf(pieces);
            forall i, j :: 0 <= i < j < |bs| ==> PayloadProofs.AddressOf(bs[i]) != PayloadProofs.AddressOf(bs[j])
  {
    var bs := PayloadProofs.BlocksOf(pieces);
    var there, back :| Shuffle(there, back, |imports|) && BlocksMatch(imports, bs, there);
    forall i, j | 0 <= i < j < |bs| ensures PayloadProofs.AddressOf(bs[i]) != PayloadProofs.AddressOf(bs[j]) {
      assert back[there[i]] == i && back[there[j]] == j;
      assert GenImports.AddressOf(imports[there[i]]) != GenImports.AddressOf(imports[there[j]]);
    }
  }

  lemma BlockFor(imports: seq<GenImports.Labelled>, pieces: seq<PayloadProofs.Piece>, l: GenImports.Labelled)
    returns (p: PayloadProofs.Piece)
    requires GeneratedFor(imports, pieces) && l in imports
    ensures p in PayloadProofs.BlocksOf(pieces) && p in pieces && p.Block? && p.kind == l.row.kind && p.name == l.name
    ensures PayloadProofs.AddressOf(p) == GenImports.AddressOf(l)
  {
    var bs := PayloadProofs.BlocksOf(pieces);
    var there, back :| Shuffle(there, back, |imports|) && BlocksMatch(imports, bs, there);
    var i :| 0 <= i < |imports| && imports[i] == l;
    p := bs[back[i]];
  }
}
