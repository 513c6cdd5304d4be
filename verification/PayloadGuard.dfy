/** The stateful guard: lines the scanner is blind to, added to one block, change nothing else. */
module PayloadGuard {
  import opened Strings
  import opened HclText
  import opened Payloads
  import opened PayloadProofs

  /** A line that means nothing to the scanner, inside a heredoc or outside. */
  predicate Neutral(line: string) {
    line != "}" && Header(line).None? && Opens(line).NoDoc? && !Identifier(line) && !Identifier(Strip(line))
  }

  // ---- inserting neutral lines ---------------------------------------------------------------------

  /** `lines'` is `lines` with `n` neutral lines put in before line `p`. */
  ghost predicate Inserted(lines: seq<string>, lines': seq<string>, p: nat, n: nat) {
    && p <= |lines| && |lines'| == |lines| + n
    && (forall x :: 0 <= x < p ==> lines'[x] == lines[x])
    && (forall x :: p + n <= x < |lines'| ==> lines'[x] == lines[x - n])
    && (forall x :: p <= x < p + n ==> Neutral(lines'[x]))
  }

  function Shift(x: nat, p: nat, n: nat): nat { if x < p then x else x + n }

  function ShiftEnd(e: Option<nat>, p: nat, n: nat): Option<nat> {
    if e.Some? then Some(Shift(e.value, p, n)) else None
  }

  function ShiftFound(f: Found, p: nat, n: nat): Found { Found(f.address, Shift(f.start, p, n), ShiftEnd(f.end, p, n)) }

  function ShiftAll(fs: seq<Found>, p: nat, n: nat): seq<Found> {
    if fs == [] then [] else [ShiftFound(fs[0], p, n)] + ShiftAll(fs[1..], p, n)
  }

  lemma {:induction false} ShiftAllIs(fs: seq<Found>, p: nat, n: nat, i: nat)
    requires i < |fs|
    ensures |ShiftAll(fs, p, n)| == |fs| && ShiftAll(fs, p, n)[i] == ShiftFound(fs[i], p, n)
  {
    if i > 0 {
      ShiftAllIs(fs[1..], p, n, i - 1);
    } else if |fs| > 1 {
      ShiftAllIs(fs[1..], p, n, 0);
    }
  }

  predicate HeredocOk(h: Heredoc) { h.Doc? ==> Identifier(h.name) }

  lemma NeutralNeverCloses(line: string, h: Heredoc)
    requires Neutral(line) && h.Doc? && HeredocOk(h)
    ensures !Closes(h, line)
  {
  }

  lemma {:induction false} EndSkipsNeutral(lines: seq<string>, p: nat, n: nat, h: Heredoc)
    requires p + n <= |lines| && HeredocOk(h) && forall x :: p <= x < p + n ==> Neutral(lines[x])
    ensures BlockEnd(lines, p, h) == BlockEnd(lines, p + n, h)
    decreases n
  {
    hide Header, Opens, Closes, Strip, Identifier;
    if n > 0 {
      if h.Doc? { NeutralNeverCloses(lines[p], h); }
      EndSkipsNeutral(lines, p + 1, n - 1, h);
    }
  }

  /** From line `j` on, `lines'` shows what `lines` shows `n` lines earlier. */
  ghost predicate SameTail(lines: seq<string>, lines': seq<string>, j: nat, n: nat) {
    |lines'| == |lines| + n && forall x :: j + n <= x < |lines'| ==> lines'[x] == lines[x - n]
  }

  lemma {:induction false} EndInTail(lines: seq<string>, lines': seq<string>, j: nat, n: nat, h: Heredoc)
    requires SameTail(lines, lines', j, n)
    ensures BlockEnd(lines', j + n, h) == ShiftEnd(BlockEnd(lines, j, h), 0, n)
    decreases |lines| - j
  {
    hide Header, Opens, Closes;
    if j < |lines| {
      assert lines'[j + n] == lines[j];
      EndInTail(lines, lines', j + 1, n, h);
      EndInTail(lines, lines', j + 1, n, NoDoc);
      EndInTail(lines, lines', j + 1, n, Opens(lines[j]));
    }
  }

  lemma {:induction false} ScanInTail(lines: seq<string>, lines': seq<string>, j: nat, n: nat, p: nat)
    requires SameTail(lines, lines', j, n) && p <= j
    ensures Scan(lines', j + n) == ShiftAll(Scan(lines, j), p, n)
    decreases |lines| - j
  {
    hide Header, BlockEnd, Scan, ShiftAll, After, HeadFound;
    ShiftAllCons(Found("", 0, None), [], p, n);
    ScanStep(lines, j);
    ScanStep(lines', j + n);
    if j < |lines| {
      assert lines'[j + n] == lines[j];
      if Header(lines[j]).None? {
        ScanInTail(lines, lines', j + 1, n, p);
      } else {
        var next := After(lines, j);
        EndInTail(lines, lines', j + 1, n, NoDoc);
        AfterMoves(lines, lines', j, n);
        EndAfter(lines, j, p, n);
        HeadMoves(lines, lines', j, j + n, p, n);
        ScanInTail(lines, lines', next, n, p);
        ShiftAllCons(HeadFound(lines, j), Scan(lines, next), p, n);
      }
    }
  }

  lemma EndAfter(lines: seq<string>, j: nat, p: nat, n: nat)
    requires p <= j
    ensures ShiftEnd(BlockEnd(lines, j + 1, NoDoc), 0, n) == ShiftEnd(BlockEnd(lines, j + 1, NoDoc), p, n)
  {
    hide BlockEnd;
  }

  lemma HeadMoves(lines: seq<string>, lines': seq<string>, j: nat, j': nat, p: nat, n: nat)
    requires j < |lines| && Header(lines[j]).Some? && j' < |lines'| && lines'[j'] == lines[j] && j' == Shift(j, p, n)
    requires BlockEnd(lines', j' + 1, NoDoc) == ShiftEnd(BlockEnd(lines, j + 1, NoDoc), p, n)
    ensures HeadFound(lines', j') == ShiftFound(HeadFound(lines, j), p, n)
  {
    hide Header, BlockEnd;
  }

  lemma AfterMoves(lines: seq<string>, lines': seq<string>, j: nat, n: nat)
    requires j < |lines| && j + n < |lines'|
    requires BlockEnd(lines', j + n + 1, NoDoc) == ShiftEnd(BlockEnd(lines, j + 1, NoDoc), 0, n)
    ensures After(lines', j + n) == After(lines, j) + n
  {
    hide BlockEnd;
  }

  lemma AfterShifts(lines: seq<string>, lines': seq<string>, i: nat, p: nat, n: nat)
    requires i < |lines| && i < |lines'| && i < p
    requires BlockEnd(lines', i + 1, NoDoc) == ShiftEnd(BlockEnd(lines, i + 1, NoDoc), p, n)
    ensures After(lines', i) == if After(lines, i) > p then After(lines, i) + n else After(lines, i)
  {
    hide BlockEnd;
  }

  lemma ShiftAllCons(f: Found, fs: seq<Found>, p: nat, n: nat)
    ensures ShiftAll([f] + fs, p, n) == [ShiftFound(f, p, n)] + ShiftAll(fs, p, n) && ShiftAll([], p, n) == []
  {
    assert ([f] + fs)[1..] == fs;
  }

  lemma {:induction false} EndShifts(lines: seq<string>, lines': seq<string>, p: nat, n: nat, j: nat, h: Heredoc)
    requires Inserted(lines, lines', p, n) && j <= p && HeredocOk(h)
    ensures BlockEnd(lines', j, h) == ShiftEnd(BlockEnd(lines, j, h), p, n)
    decreases p - j
  {
    hide Header, Opens, Closes, Neutral;
    if j == p {
      EndSkipsNeutral(lines', p, n, h);
      EndInTail(lines, lines', p, n, h);
    } else {
      assert lines'[j] == lines[j];
      EndShifts(lines, lines', p, n, j + 1, h);
      EndShifts(lines, lines', p, n, j + 1, NoDoc);
      EndShifts(lines, lines', p, n, j + 1, Opens(lines[j]));
    }
  }

  lemma {:induction false} ScanSkipsNeutral(lines: seq<string>, p: nat, n: nat)
    requires p + n <= |lines| && forall x :: p <= x < p + n ==> Header(lines[x]).None?
    ensures Scan(lines, p) == Scan(lines, p + n)
    decreases n
  {
    hide Header;
    if n > 0 { ScanSkipsNeutral(lines, p + 1, n - 1); }
  }

  lemma ScanAtInsertion(lines: seq<string>, lines': seq<string>, p: nat, n: nat)
    requires Inserted(lines, lines', p, n)
    ensures Scan(lines', p) == ShiftAll(Scan(lines, p), p, n)
  {
    hide Header, Scan, ShiftAll, Opens, Strip, Identifier;
    ScanSkipsNeutral(lines', p, n);
    ScanInTail(lines, lines', p, n, p);
  }

  /** Neutral lines put in anywhere move what is found, and change nothing about it. */
  lemma {:induction false} ScanShifts(lines: seq<string>, lines': seq<string>, p: nat, n: nat, i: nat)
    requires Inserted(lines, lines', p, n) && i <= p
    ensures Scan(lines', i) == ShiftAll(Scan(lines, i), p, n)
    decreases p - i
  {
    hide Header, BlockEnd, Scan, ShiftAll, HeadFound, After, Neutral;
    if i == p {
      ScanAtInsertion(lines, lines', p, n);
    } else {
      assert lines'[i] == lines[i];
      ScanStep(lines, i);
      ScanStep(lines', i);
      if Header(lines[i]).None? {
        ScanShifts(lines, lines', p, n, i + 1);
      } else {
        var next := After(lines, i);
        EndShifts(lines, lines', p, n, i + 1, NoDoc);
        HeadMoves(lines, lines', i, i, p, n);
        AfterShifts(lines, lines', i, p, n);
        if next > p {
          ScanInTail(lines, lines', next, n, p);
        } else {
          ScanShifts(lines, lines', p, n, next);
        }
        ShiftAllCons(HeadFound(lines, i), Scan(lines, next), p, n);
      }
    }
  }

  // ---- the guard -----------------------------------------------------------------------------------

  const LIFECYCLE := "  lifecycle {"
  const REMARK_HEAD := "    # stateful resource "
  const REMARK_NEVER := "\U{2014} never destroyed "
  const REMARK_WHERE := "via Terraform ("
  const REMARK_FILE := "importer/docs/"
  const REMARK_RULE := "strategy.md rule 2)"
  const REMARK := REMARK_HEAD + (REMARK_NEVER + (REMARK_WHERE + (REMARK_FILE + REMARK_RULE)))
  const PREVENT := "    prevent_destroy = true"
  const LIFECYCLE_END := "  }"

  function GuardLines(): seq<string> { ["", LIFECYCLE, REMARK, PREVENT, LIFECYCLE_END] }

  function ApplyStatefulGuard(text: string): Option<string> {
    var lines := SplitLines(text);
    if lines == [] || lines[|lines| - 1] != "}" then None
    else Some(Unlines(lines[..|lines| - 1] + GuardLines() + ["}"]))
  }

  /** An indented line with punctuation in it, and no heredoc marker, is neutral. */
  lemma PunctuatedIsNeutral(line: string, c: char)
    requires c in line && !Space(c) && !WordChar(c) && '<' !in line && line[0] == ' '
    ensures Neutral(line)
  {
    OpensNeedsBracket(line);
    TrimStartKeeps(line, c);
    TrimEndKeeps(TrimStart(line), c);
    assert OPENING[0] != ' ';
  }

  lemma GuardIsNeutral()
    ensures forall l :: l in GuardLines() ==> Neutral(l) && OneLine(l) && '\"' !in l
  {
    hide Neutral, OneLine;
    assert forall l :: l in GuardLines() ==>
        l == "" || l == LIFECYCLE || l == REMARK || l == PREVENT || l == LIFECYCLE_END;
    EmptyIsNeutral();
    LifecycleIsNeutral();
    RemarkIsNeutral();
    PreventIsNeutral();
  }

  lemma EmptyIsNeutral()
    ensures Neutral("") && OneLine("")
  {
    OpensNeedsBracket("");
  }

  predicate Quiet(s: string) { forall c :: c in s ==> (' ' <= c <= '~' && c != '<' && c != '\"') || c == '\U{2014}' }

  lemma QuietParts()
    ensures Quiet(REMARK_HEAD) && Quiet(REMARK_NEVER) && Quiet(REMARK_WHERE) && Quiet(REMARK_FILE) && Quiet(REMARK_RULE)
  {
  }

  lemma QuietConcat(a: string, b: string)
    requires Quiet(a) && Quiet(b)
    ensures Quiet(a + b)
  {
  }

  lemma QuietIsOneLine(s: string)
    requires Quiet(s)
    ensures OneLine(s) && '<' !in s && '\"' !in s
  {
  }

  lemma QuietCode()
    ensures Quiet(LIFECYCLE) && Quiet(LIFECYCLE_END) && Quiet(PREVENT)
  {
  }

  lemma NoSpace()
    ensures forall c :: c in {'{', '}', '#', '='} ==> !Space(c) && !WordChar(c)
  {
  }

  lemma LifecycleIsNeutral()
    ensures Neutral(LIFECYCLE) && OneLine(LIFECYCLE) && '\"' !in LIFECYCLE
    ensures Neutral(LIFECYCLE_END) && OneLine(LIFECYCLE_END) && '\"' !in LIFECYCLE_END
  {
    hide Neutral, Quiet, OneLine, Space, WordChar;
    QuietCode();
    QuietIsOneLine(LIFECYCLE);
    QuietIsOneLine(LIFECYCLE_END);
    NoSpace();
    assert LIFECYCLE[12] == '{' && LIFECYCLE_END[2] == '}';
    PunctuatedIsNeutral(LIFECYCLE, '{');
    PunctuatedIsNeutral(LIFECYCLE_END, '}');
  }

  lemma RemarkIsNeutral()
    ensures Neutral(REMARK) && OneLine(REMARK) && '\"' !in REMARK
  {
    hide Neutral, Quiet, OneLine, Space, WordChar;
    NoSpace();
    QuietParts();
    QuietConcat(REMARK_FILE, REMARK_RULE);
    QuietConcat(REMARK_WHERE, REMARK_FILE + REMARK_RULE);
    QuietConcat(REMARK_NEVER, REMARK_WHERE + (REMARK_FILE + REMARK_RULE));
    QuietConcat(REMARK_HEAD, REMARK_NEVER + (REMARK_WHERE + (REMARK_FILE + REMARK_RULE)));
    QuietIsOneLine(REMARK);
    assert REMARK[4] == REMARK_HEAD[4] == '#' && REMARK[0] == REMARK_HEAD[0] == ' ';
    PunctuatedIsNeutral(REMARK, '#');
  }

  lemma PreventIsNeutral()
    ensures Neutral(PREVENT) && OneLine(PREVENT) && '\"' !in PREVENT
  {
    hide Neutral, Quiet, OneLine, Space, WordChar;
    QuietCode();
    QuietIsOneLine(PREVENT);
    NoSpace();
    assert PREVENT[20] == '=';
    PunctuatedIsNeutral(PREVENT, '=');
  }

  /** The document with the guard put into the block `f`. */
  function Guarded(lines: seq<string>, f: Found): seq<string> {
    if f.end.Some? && f.end.value < |lines| then lines[..f.end.value] + GuardLines() + lines[f.end.value..] else lines
  }

  lemma GuardedIsInserted(lines: seq<string>, f: Found)
    requires f.end.Some? && f.end.value < |lines|
    ensures Inserted(lines, Guarded(lines, f), f.end.value, |GuardLines()|)
  {
    hide Neutral, OneLine, GuardLines;
    GuardIsNeutral();
    var lines', e := Guarded(lines, f), f.end.value;
    forall x | e <= x < e + |GuardLines()| ensures Neutral(lines'[x]) {
      assert lines'[x] == GuardLines()[x - e];
    }
  }

  /** The guard never fails on a scanned block, and is that block's text in the guarded document. */
  lemma GuardOfBlock(lines: seq<string>, f: Found, text: string)
    requires f in Scan(lines, 0) && IsText(lines, f, text) && forall l :: l in lines ==> OneLine(l)
    ensures ApplyStatefulGuard(text).Some?
    ensures IsText(Guarded(lines, f), ShiftFound(f, f.end.value, |GuardLines()|), ApplyStatefulGuard(text).value)
  {
    hide OneLine, GuardLines, Scan, Unlines, SplitLines, Header, BlockEnd;
    ScanBounds(lines, 0, f);
    var ls := lines[f.start..f.end.value + 1];
    SplitUnlines(ls);
    var lines' := Guarded(lines, f);
    assert ls[..|ls| - 1] == lines[f.start..f.end.value];
    assert lines'[f.start..f.end.value + |GuardLines()| + 1] == lines[f.start..f.end.value] + GuardLines() + ["}"];
  }

  /**
   * Main result on the guard: splitting the document again after one block is guarded finds
   * the same headers, closing as before, and every other block with the text it had.
   */
  lemma GuardKeepsOthers(lines: seq<string>, k: nat, i: nat, text: string)
    requires k < |Scan(lines, 0)| && Scan(lines, 0)[k].end.Some? && i < |Scan(lines, 0)|
    ensures var fs, gs := Scan(lines, 0), Scan(Guarded(lines, Scan(lines, 0)[k]), 0);
            && |gs| == |fs| && gs[i].address == fs[i].address && (gs[i].end.Some? <==> fs[i].end.Some?)
            && (i != k && IsText(lines, fs[i], text) ==> IsText(Guarded(lines, fs[k]), gs[i], text))
            && (i == k ==> gs[k] == ShiftFound(fs[k], fs[k].end.value, |GuardLines()|))
  {
    hide IsText, Neutral, GuardLines, Scan, Inserted, Guarded, ShiftAll;
    var fs := Scan(lines, 0);
    var f, lines' := fs[k], Guarded(lines, fs[k]);
    var p, n := f.end.value, |GuardLines()|;
    ScanBounds(lines, 0, f);
    ScanBounds(lines, 0, fs[i]);
    GuardedIsInserted(lines, f);
    assert p <= |lines|;
    ScanShifts(lines, lines', p, n, 0);
    ShiftAllIs(fs, p, n, i);
    if i < k { ScanOrdered(lines, 0, i, k); } else if k < i { ScanOrdered(lines, 0, k, i); }
    if i != k && IsText(lines, fs[i], text) {
      TextStays(lines, lines', p, n, fs[i], text);
    }
  }

  lemma TextStays(lines: seq<string>, lines': seq<string>, p: nat, n: nat, f: Found, text: string)
    requires Inserted(lines, lines', p, n) && IsText(lines, f, text)
    requires f.end.Some? ==> f.end.value < p || p <= f.start
    ensures IsText(lines', ShiftFound(f, p, n), text)
  {
    hide Inserted, Unlines;
    SliceStays(lines, lines', p, n, f.start, f.end.value);
  }

  lemma SliceStays(lines: seq<string>, lines': seq<string>, p: nat, n: nat, s: nat, e: nat)
    requires Inserted(lines, lines', p, n) && s <= e < |lines| && (e < p || p <= s)
    ensures Shift(e, p, n) < |lines'| && lines'[Shift(s, p, n)..Shift(e, p, n) + 1] == lines[s..e + 1]
  {
    hide Neutral;
    var a, b := lines'[Shift(s, p, n)..Shift(e, p, n) + 1], lines[s..e + 1];
    forall x | 0 <= x < |b| ensures a[x] == b[x] {
      assert a[x] == lines'[Shift(s, p, n) + x];
    }
  }
}
