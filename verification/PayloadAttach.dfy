/** Attaching payloads to candidate findings: what is published, and what is withheld. */
module PayloadAttach {
  import opened Strings
  import opened HclText
  import opened Payloads
  import opened PayloadGuard

  // ---- the secret battery ------------------------------------------------------------------------

  datatype Rules = Rules(secretNames: set<string>, allowPrefixes: seq<string>)

  /** The name and the literal of a line that assigns one string literal. */
  function AttrOf(line: string): Option<(string, string)> {
    var s := Strip(line);
    var n := WordRun(s);
    if n == 0 || !Letter(s[0]) then None
    else
      var r := TrimStart(s[n..]);
      if r == [] || r[0] != '=' then None
      else
        var q := TrimStart(r[1..]);
        if |q| < 2 || q[0] != '\"' || q[|q| - 1] != '\"' || '\"' in q[1..|q| - 1] then None
        else Some((s[..n], q[1..|q| - 1]))
  }

  function Lower(s: string): (l: string)
    ensures |l| == |s|
    ensures forall i :: 0 <= i < |s| ==> l[i] == if 65 <= s[i] as int <= 90 then (s[i] as int + 32) as char else s[i]
  {
    if s == [] then [] else [if 'A' <= s[0] <= 'Z' then s[0] - 'A' + 'a' else s[0]] + Lower(s[1..])
  }

  predicate SecretLine(rules: Rules, line: string) {
    var a := AttrOf(line);
    && a.Some? && Lower(a.value.0) in rules.secretNames && a.value.1 != ""
    && forall i :: 0 <= i < |rules.allowPrefixes| ==> !(rules.allowPrefixes[i] <= a.value.1)
  }

  predicate Secret(rules: Rules, lines: seq<string>) { exists i :: 0 <= i < |lines| && SecretLine(rules, lines[i]) }

  // ---- what a secret line looks like ---------------------------------------------------------------

  /** A line that assigns one string literal to a name, with any white space around the parts. */
  ghost predicate Assigns(line: string, name: string, value: string) {
    && Identifier(name) && '\"' !in value
    && exists a, b, c, d ::
         && AllSpace(a) && AllSpace(b) && AllSpace(c) && AllSpace(d)
         && line == a + (name + (b + ("=" + (c + ("\"" + (value + ("\"" + d)))))))
  }

  /** It assigns something to a secret name, and nothing that is allowed there. */
  ghost predicate TellsSecret(rules: Rules, line: string) {
    exists name, value ::
      && Assigns(line, name, value) && Lower(name) in rules.secretNames && |value| > 0
      && forall p :: p in rules.allowPrefixes ==> !(p <= value)
  }

  lemma SpaceIsNoWord(s: string, rest: string)
    requires AllSpace(s) && rest != [] && !WordChar(rest[0])
    ensures s + rest != [] && !WordChar((s + rest)[0])
  {
    if s != [] {
      assert (s + rest)[0] == s[0] && s[0] in s;
      if WordChar(s[0]) { WordIsNoSpace(s[0]); }
    }
  }

  lemma PunctuationIsPlain(c: char)
    requires c == '=' || c == '\"'
    ensures !Space(c) && !WordChar(c)
  {
  }

  lemma AssignsIsAttr(line: string, name: string, value: string)
    requires Assigns(line, name, value)
    ensures AttrOf(line) == Some((name, value))
  {
    hide Space, WordRun, WordChar, Letter, AllSpace, TrimStart, TrimEnd;
    var a, b, c, d :|
      && AllSpace(a) && AllSpace(b) && AllSpace(c) && AllSpace(d)
      && line == a + (name + (b + ("=" + (c + ("\"" + (value + ("\"" + d)))))));
    PunctuationIsPlain('=');
    PunctuationIsPlain('\"');
    var q := "\"" + (value + "\"");
    var r := "=" + (c + q);
    var s := name + (b + r);
    assert "\"" + (value + ("\"" + d)) == q + d;
    assert line == a + (s + d);
    StripDrops(a, s, d, name);
    SpaceIsNoWord(b, r);
    NameEnds(name, b + r);
    assert s[..|name|] == name && s[|name|..] == b + r;
    TrimStartDrops(b, r);
    assert r[1..] == c + q;
    TrimStartDrops(c, q);
    assert q[1..|q| - 1] == value;
  }

  lemma StripDrops(a: string, s: string, d: string, name: string)
    requires AllSpace(a) && AllSpace(d) && Word(name) && name <= s && s[|s| - 1] == '\"'
    ensures Strip(a + (s + d)) == s
  {
    hide Space, WordChar, AllSpace, TrimStart, TrimEnd;
    assert s[0] == name[0] && name[0] in name;
    WordIsNoSpace(name[0]);
    TrimStartDrops(a, s + d);
    PunctuationIsPlain('\"');
    TrimEndDrops(s, d);
  }

  lemma NameEnds(name: string, rest: string)
    requires Identifier(name) && rest != [] && !WordChar(rest[0])
    ensures WordRun(name + rest) == |name| > 0 && Letter(name[0])
  {
    WordRunEnds(name, rest);
  }

  lemma AttrIsAssigns(line: string, name: string, value: string)
    requires AttrOf(line) == Some((name, value))
    ensures Assigns(line, name, value)
  {
    hide Space, WordRun, WordChar, Letter, AllSpace, TrimStart, TrimEnd;
    var a := TrimStartSplits(line);
    var d := TrimEndSplits(TrimStart(line));
    var s := Strip(line);
    RunJoins(s);
    var tail := s[WordRun(s)..];
    var b := TrimStartSplits(tail);
    var r := TrimStart(tail);
    var c := TrimStartSplits(r[1..]);
    var q := TrimStart(r[1..]);
    assert q == "\"" + (value + "\"") && r == "=" + r[1..];
    assert s == name + (b + ("=" + (c + q)));
    assert line == a + (s + d);
    assert s + d == name + (b + ("=" + (c + (q + d))));
    assert q + d == "\"" + (value + ("\"" + d));
  }

  lemma SecretLineIff(rules: Rules, line: string)
    ensures SecretLine(rules, line) <==> TellsSecret(rules, line)
  {
    hide AttrOf, Assigns;
    if SecretLine(rules, line) {
      var a := AttrOf(line).value;
      AttrIsAssigns(line, a.0, a.1);
      forall p | p in rules.allowPrefixes ensures !(p <= a.1) {
        var i :| 0 <= i < |rules.allowPrefixes| && rules.allowPrefixes[i] == p;
      }
      assert Assigns(line, a.0, a.1) && Lower(a.0) in rules.secretNames && |a.1| > 0;
    }
    if TellsSecret(rules, line) {
      var name, value :|
        && Assigns(line, name, value) && Lower(name) in rules.secretNames && |value| > 0
        && forall p :: p in rules.allowPrefixes ==> !(p <= value);
      AssignsIsAttr(line, name, value);
      forall i | 0 <= i < |rules.allowPrefixes| ensures !(rules.allowPrefixes[i] <= value) {
        assert rules.allowPrefixes[i] in rules.allowPrefixes;
      }
    }
  }

  method SecretBatteryHit(rules: Rules, text: string) returns (hit: bool)
    ensures hit <==> Secret(rules, SplitLines(text))
    ensures hit <==> exists line :: line in SplitLines(text) && TellsSecret(rules, line)
  {
    hide SecretLine, TellsSecret;
    var lines := SplitLines(text);
    forall line | line in lines ensures SecretLine(rules, line) <==> TellsSecret(rules, line) {
      SecretLineIff(rules, line);
    }
    for i := 0 to |lines|
      invariant forall k :: 0 <= k < i ==> !SecretLine(rules, lines[k])
    {
      if SecretLine(rules, lines[i]) { return true; }
    }
    return false;
  }

  lemma {:induction false} TrimStartWithin(s: string, c: char)
    requires c in TrimStart(s)
    ensures c in s
  {
    if s != [] && Space(s[0]) { TrimStartWithin(s[1..], c); }
  }

  lemma AttrNeedsQuote(line: string)
    requires '\"' !in line
    ensures AttrOf(line).None?
  {
    hide Space, WordRun, Letter;
    var s := Strip(line);
    TrimEndWithin(TrimStart(line));
    if '\"' in s { TrimStartWithin(line, '\"'); }
    var r := TrimStart(s[WordRun(s)..]);
    if '\"' in r { TrimStartWithin(s[WordRun(s)..], '\"'); }
    if r != [] && '\"' in TrimStart(r[1..]) { TrimStartWithin(r[1..], '\"'); }
  }

  /** The guard neither adds a secret nor hides one. */
  lemma GuardKeepsSecrecy(rules: Rules, text: string)
    requires ApplyStatefulGuard(text).Some?
    ensures Secret(rules, SplitLines(ApplyStatefulGuard(text).value)) <==> Secret(rules, SplitLines(text))
  {
    hide SplitLines, Unlines, GuardLines, OneLine, AttrOf, Lower, Neutral;
    var lines := SplitLines(text);
    var front := lines[..|lines| - 1];
    var lines' := front + GuardLines() + ["}"];
    GuardIsNeutral();
    BraceIsPlain();
    SplitUnlines(lines');
    assert forall k :: 0 <= k < |front| ==> lines'[k] == lines[k];
    assert lines[|front|] == lines'[|front| + |GuardLines()|];
    forall k | |front| <= k < |front| + |GuardLines()| ensures !SecretLine(rules, lines'[k]) {
      assert lines'[k] == GuardLines()[k - |front|];
      AttrNeedsQuote(lines'[k]);
    }
    if Secret(rules, lines) {
      var i :| 0 <= i < |lines| && SecretLine(rules, lines[i]);
      assert SecretLine(rules, lines'[if i < |front| then i else i + |GuardLines()|]);
    }
    if Secret(rules, lines') {
      var i :| 0 <= i < |lines'| && SecretLine(rules, lines'[i]);
      assert SecretLine(rules, lines[if i < |front| then i else i - |GuardLines()|]);
    }
  }

  lemma BraceIsPlain()
    ensures OneLine("}")
  {
  }

  // ---- what is decided about a candidate -----------------------------------------------------------

  datatype Candidate = Candidate(kind: string, id: string, name: string, stateful: bool)

  datatype Payload = Payload(address: string, importBlock: string, skeleton: string)

  datatype Withheld =
    | NotGenerated
    | AmbiguousBlock(reason: Reason)
    | NoImportBlock
    | NoSkeleton
    | SecretShaped
    | GuardFailed

  datatype Decision = Attached(payload: Payload) | Refused(reason: Withheld)

  /** The two files of a probe, as they were read. */
  datatype Probe = Probe(imports: map<string, string>, blocks: map<string, string>, ambiguous: map<string, Reason>)

  function AddressOf(c: Candidate): string { c.kind + "." + c.name }

  method Decide(rules: Rules, probe: Option<Probe>, c: Candidate) returns (d: Decision)
    ensures d == Decided(rules, probe, c)
  {
    if probe.None? { return Refused(NotGenerated); }
    var p, address := probe.value, AddressOf(c);
    if address in p.ambiguous { return Refused(AmbiguousBlock(p.ambiguous[address])); }
    if address !in p.imports { return Refused(NoImportBlock); }
    if address !in p.blocks { return Refused(NoSkeleton); }
    var skeleton := p.blocks[address];
    var hit := SecretBatteryHit(rules, skeleton);
    if hit { return Refused(SecretShaped); }
    if c.stateful {
      var guarded := ApplyStatefulGuard(skeleton);
      if guarded.None? { return Refused(GuardFailed); }
      skeleton := guarded.value;
    }
    return Attached(Payload(address, p.imports[address], skeleton));
  }

  function Decided(rules: Rules, probe: Option<Probe>, c: Candidate): Decision {
    if probe.None? then Refused(NotGenerated)
    else
      var p, address := probe.value, AddressOf(c);
      if address in p.ambiguous then Refused(AmbiguousBlock(p.ambiguous[address]))
      else if address !in p.imports then Refused(NoImportBlock)
      else if address !in p.blocks then Refused(NoSkeleton)
      else if Secret(rules, SplitLines(p.blocks[address])) then Refused(SecretShaped)
      else if !c.stateful then Attached(Payload(address, p.imports[address], p.blocks[address]))
      else if ApplyStatefulGuard(p.blocks[address]).None? then Refused(GuardFailed)
      else Attached(Payload(address, p.imports[address], ApplyStatefulGuard(p.blocks[address]).value))
  }

  // ---- what a candidate deserves -------------------------------------------------------------------

  /** The lines that keep a stateful resource, as they are to stand in the configuration. */
  const KEEP: seq<string> := [
    "",
    "  lifecycle {",
    "    # stateful resource " + ("\U{2014} never destroyed " + ("via Terraform ("
      + ("importer/docs/" + "strategy.md rule 2)"))),
    "    prevent_destroy = true",
    "  }"]

  /** `skeleton` is `block` with these lines directly before its closing brace. */
  predicate KeptFromDestroy(block: string, skeleton: string) {
    var lines := SplitLines(block);
    && lines != [] && lines[|lines| - 1] == "}"
    && SplitLines(skeleton) == lines[..|lines| - 1] + KEEP + ["}"] && skeleton == Unlines(SplitLines(skeleton))
  }

  /** The probe has an import block and one clean skeleton for an address. */
  predicate Offers(rules: Rules, probe: Option<Probe>, address: string) {
    && probe.Some? && address !in probe.value.ambiguous && address in probe.value.imports
    && address in probe.value.blocks && !Secret(rules, SplitLines(probe.value.blocks[address]))
  }

  /**
   * What is decided about a candidate: it is refused for the first thing that is missing or wrong,
   * or published with its import block and its skeleton, guarded if it is stateful.
   */
  predicate Deserves(rules: Rules, probe: Option<Probe>, c: Candidate, d: Decision) {
    var a := c.kind + "." + c.name;
    match d
    case Refused(NotGenerated) => probe.None?
    case Refused(AmbiguousBlock(reason)) =>
      probe.Some? && a in probe.value.ambiguous && reason == probe.value.ambiguous[a]
    case Refused(NoImportBlock) => probe.Some? && a !in probe.value.ambiguous && a !in probe.value.imports
    case Refused(NoSkeleton) =>
      probe.Some? && a !in probe.value.ambiguous && a in probe.value.imports && a !in probe.value.blocks
    case Refused(SecretShaped) =>
      && probe.Some? && a !in probe.value.ambiguous && a in probe.value.imports && a in probe.value.blocks
      && Secret(rules, SplitLines(probe.value.blocks[a]))
    case Refused(GuardFailed) =>
      && Offers(rules, probe, a) && c.stateful
      && var lines := SplitLines(probe.value.blocks[a]); lines == [] || lines[|lines| - 1] != "}"
    case Attached(p) =>
      && Offers(rules, probe, a) && p.address == a && p.importBlock == probe.value.imports[a]
      && if c.stateful then KeptFromDestroy(probe.value.blocks[a], p.skeleton)
         else p.skeleton == probe.value.blocks[a]
  }

  lemma GuardKeepsFromDestroy(block: string, skeleton: string)
    ensures ApplyStatefulGuard(block) == Some(skeleton) <==> KeptFromDestroy(block, skeleton)
  {
    hide SplitLines, Unlines, OneLine, Neutral, GuardLines, KEEP;
    var lines := SplitLines(block);
    if lines != [] && lines[|lines| - 1] == "}" {
      var guarded := lines[..|lines| - 1] + GuardLines() + ["}"];
      GuardSpelled();
      GuardIsNeutral();
      BraceIsPlain();
      forall l | l in guarded ensures OneLine(l) {
        if l in lines[..|lines| - 1] { assert l in lines; }
      }
      SplitUnlines(guarded);
    }
  }

  lemma GuardSpelled()
    ensures GuardLines() == KEEP
  {
  }

  lemma DecidedIsDeserved(rules: Rules, probe: Option<Probe>, c: Candidate, d: Decision)
    ensures Deserves(rules, probe, c, d) <==> d == Decided(rules, probe, c)
  {
    hide Secret, SplitLines, ApplyStatefulGuard, KeptFromDestroy;
    var a := AddressOf(c);
    if probe.Some? && a in probe.value.blocks {
      var block := probe.value.blocks[a];
      if d.Attached? { GuardKeepsFromDestroy(block, d.payload.skeleton); }
      GuardIsFit(block);
    }
  }

  lemma GuardIsFit(block: string)
    ensures var lines := SplitLines(block);
            ApplyStatefulGuard(block).None? <==> lines == [] || lines[|lines| - 1] != "}"
  {
    hide SplitLines, Unlines;
  }

  // ---- what a published payload is ---------------------------------------------------------------

  lemma {:induction false} EndInSlice(lines: seq<string>, s: nat, e: nat, j: nat, h: Heredoc)
    requires s <= j && BlockEnd(lines, j, h) == Some(e)
    ensures e < |lines| && BlockEnd(lines[s..e + 1], j - s, h) == Some(e - s)
    decreases |lines| - j
  {
    hide Header, Opens, Closes;
    var ls := lines[s..e + 1];
    assert ls[j - s] == lines[j];
    if h.Doc? {
      EndInSlice(lines, s, e, j + 1, if Closes(h, lines[j]) then NoDoc else h);
    } else if lines[j] != "}" {
      EndInSlice(lines, s, e, j + 1, Opens(lines[j]));
    }
  }

  /** A scanned block, taken alone, scans as that one block. */
  lemma BlockAlone(lines: seq<string>, f: Found)
    requires f in Scan(lines, 0) && f.end.Some?
    ensures f.start < f.end.value < |lines|
    ensures var ls := lines[f.start..f.end.value + 1]; Scan(ls, 0) == [Found(f.address, 0, Some(|ls| - 1))]
  {
    hide Header, BlockEnd, Scan;
    ScanBounds(lines, 0, f);
    ScanIs(lines, 0, f);
    EndInSlice(lines, f.start, f.end.value, f.start + 1, NoDoc);
    var ls := lines[f.start..f.end.value + 1];
    assert ls[0] == lines[f.start];
    ScanStep(ls, 0);
    ScanStep(ls, |ls|);
  }

  /** The same of a block once it is guarded. */
  lemma GuardedAlone(ls: seq<string>, address: string)
    requires |ls| > 1 && Scan(ls, 0) == [Found(address, 0, Some(|ls| - 1))] && ls[|ls| - 1] == "}"
    requires forall l :: l in ls ==> OneLine(l)
    ensures ApplyStatefulGuard(Unlines(ls)).Some?
    ensures var gs := SplitLines(ApplyStatefulGuard(Unlines(ls)).value);
            Scan(gs, 0) == [Found(address, 0, Some(|gs| - 1))]
  {
    hide Scan, Unlines, SplitLines, OneLine, GuardLines, Neutral;
    var f := Found(address, 0, Some(|ls| - 1));
    var gs := Guarded(ls, f);
    SplitUnlines(ls);
    GuardIsNeutral();
    BraceIsPlain();
    assert gs == ls[..|ls| - 1] + GuardLines() + ["}"];
    SplitUnlines(gs);
    GuardedIsInserted(ls, f);
    ScanShifts(ls, gs, |ls| - 1, |GuardLines()|, 0);
    ShiftAllCons(f, [], |ls| - 1, |GuardLines()|);
    assert [f] + [] == [f];
  }

  /**
   * Main result on publishing: an attached payload was scanned exactly once and closed,
   * carries no secret-shaped line, and splits again into one block of the candidate's own
   * address; a block that scans is never withheld because the guard did not fit.
   */
  lemma PublishedIsSound(rules: Rules, text: string, probe: Probe, c: Candidate)
    requires Sorted(SplitLines(text), Scan(SplitLines(text), 0), probe.blocks, probe.ambiguous)
    ensures Decided(rules, Some(probe), c) != Refused(GuardFailed)
    ensures Decided(rules, Some(probe), c).Attached? ==>
              var p := Decided(rules, Some(probe), c).payload;
              && p.address == AddressOf(c) && Usable(Scan(SplitLines(text), 0), p.address)
              && !Secret(rules, SplitLines(p.skeleton))
              && (exists n: nat :: Scan(SplitLines(p.skeleton), 0) == [Found(p.address, 0, Some(n))])
  {
    hide Scan, SplitLines, Secret, ApplyStatefulGuard, OnlyAt, AddressOf;
    var a := AddressOf(c);
    if a !in probe.ambiguous && a in probe.blocks {
      var skeleton := probe.blocks[a];
      SkeletonIsBlock(text, probe, a);
      if !Secret(rules, SplitLines(skeleton)) { GuardKeepsSecrecy(rules, skeleton); }
    }
  }

  /** A header line as it stands in the document, for an address. */
  ghost predicate Declares(line: string, address: string) {
    exists kind, name :: address == kind + "." + name && line == "resource \"" + kind + "\" \"" + name + "\" {"
  }

  /**
   * Main result on the text: an attached skeleton is the slice of the document from the one header
   * of its address to the first closing brace that ends its block, the five lines that keep a
   * stateful resource put in before that brace, and nothing else.
   */
  lemma PublishedText(rules: Rules, text: string, probe: Probe, c: Candidate, p: Payload) returns (f: Found)
    requires Sorted(SplitLines(text), Scan(SplitLines(text), 0), probe.blocks, probe.ambiguous)
    requires Deserves(rules, Some(probe), c, Attached(p))
    ensures f in Scan(SplitLines(text), 0) && f.address == p.address == c.kind + "." + c.name
    ensures forall g :: g in Scan(SplitLines(text), 0) && g.address == p.address ==> g == f
    ensures f.end.Some? && f.start < f.end.value < |SplitLines(text)|
    ensures var lines, s, e := SplitLines(text), f.start, f.end.value;
            && Declares(lines[s], p.address) && lines[e] == "}"
            && SplitLines(p.skeleton) == lines[s..e] + (if c.stateful then KEEP else []) + ["}"]
            && p.skeleton == Unlines(SplitLines(p.skeleton))
            && p.importBlock == probe.imports[p.address]
  {
    hide Scan, SplitLines, Unlines, Secret, OneLine, Sorted, Header, KEEP;
    var lines := SplitLines(text);
    f := BlockOf(lines, probe.blocks, probe.ambiguous, p.address);
    OneOfAddress(lines, probe, p.address, f);
    ScanBounds(lines, 0, f);
    ScanIs(lines, 0, f);
    var kind, name := HeaderIsPrinted(lines[f.start]);
    HeaderSpelled(kind, name);
    var s, e := f.start, f.end.value;
    var slice := lines[s..e + 1];
    assert slice == lines[s..e] + ["}"] && slice[..|slice| - 1] == lines[s..e];
    forall l | l in slice ensures OneLine(l) { assert l in lines; }
    SplitUnlines(slice);
    assert lines[s..e] + [] + ["}"] == slice;
  }

  lemma HeaderSpelled(kind: string, name: string)
    ensures HeaderLine(kind, name) == "resource \"" + kind + "\" \"" + name + "\" {"
  {
  }

  lemma OneOfAddress(lines: seq<string>, probe: Probe, a: string, f: Found)
    requires Sorted(lines, Scan(lines, 0), probe.blocks, probe.ambiguous) && a !in probe.ambiguous
    requires f in Scan(lines, 0) && f.address == a
    ensures forall g :: g in Scan(lines, 0) && g.address == a ==> g == f
  {
    hide Scan, IsText;
    var fs := Scan(lines, 0);
    var k :| 0 <= k < |fs| && fs[k] == f;
    assert Scanned(fs, a);
    var i: nat :| OnlyAt(fs, a, i);
    forall g | g in fs && g.address == a ensures g == f {
      var j :| 0 <= j < |fs| && fs[j] == g;
    }
  }

  lemma SkeletonIsBlock(text: string, probe: Probe, a: string)
    requires Sorted(SplitLines(text), Scan(SplitLines(text), 0), probe.blocks, probe.ambiguous)
    requires a !in probe.ambiguous && a in probe.blocks
    ensures Usable(Scan(SplitLines(text), 0), a)
    ensures exists n: nat :: Scan(SplitLines(probe.blocks[a]), 0) == [Found(a, 0, Some(n))]
    ensures ApplyStatefulGuard(probe.blocks[a]).Some?
    ensures exists n: nat :: Scan(SplitLines(ApplyStatefulGuard(probe.blocks[a]).value), 0) == [Found(a, 0, Some(n))]
  {
    hide Scan, SplitLines, OneLine, Unlines, ApplyStatefulGuard, Sorted, OnlyAt;
    var lines := SplitLines(text);
    var f := BlockOf(lines, probe.blocks, probe.ambiguous, a);
    BlockAlone(lines, f);
    ScanBounds(lines, 0, f);
    var ls := lines[f.start..f.end.value + 1];
    SplitUnlines(ls);
    GuardedAlone(ls, a);
  }

  lemma BlockOf(lines: seq<string>, blocks: map<string, string>, ambiguous: map<string, Reason>, a: string)
    returns (f: Found)
    requires Sorted(lines, Scan(lines, 0), blocks, ambiguous) && a !in ambiguous && a in blocks
    ensures Usable(Scan(lines, 0), a) && f in Scan(lines, 0) && f.address == a && IsText(lines, f, blocks[a])
  {
    hide Scan, IsText;
    var fs := Scan(lines, 0);
    assert Usable(fs, a);
    var i: nat :| OnlyAt(fs, a, i);
    f := fs[i];
  }

  // ---- the loop over candidates ----------------------------------------------------------------------

  datatype Finding = Finding(kind: string, liveId: string, decision: Option<Decision>)

  predicate Malformed(c: Candidate) { c.kind == "" || c.id == "" || c.name == "" }

  predicate Keyed(f: Finding, kind: string, id: string) { f.kind == kind && f.liveId == id }

  /** The row of a key: of several findings of one key, the last. */
  function RowOf(findings: seq<Finding>, kind: string, id: string): Option<nat> {
    if findings == [] then None
    else if Keyed(findings[|findings| - 1], kind, id) then Some(|findings| - 1)
    else RowOf(findings[..|findings| - 1], kind, id)
  }

  /** What was decided last about a key. */
  function LastDecision(rules: Rules, probe: Option<Probe>, candidates: seq<Candidate>, kind: string,
                        id: string): Option<Decision> {
    if candidates == [] then None
    else
      var c := candidates[|candidates| - 1];
      if c.kind == kind && c.id == id then Some(Decided(rules, probe, c))
      else LastDecision(rules, probe, candidates[..|candidates| - 1], kind, id)
  }

  function Outcome(rules: Rules, probe: Option<Probe>, findings: seq<Finding>, candidates: seq<Candidate>, i: nat)
    : Finding
    requires i < |findings|
  {
    var f := findings[i];
    var d := LastDecision(rules, probe, candidates, f.kind, f.liveId);
    if RowOf(findings, f.kind, f.liveId) == Some(i) && d.Some? then f.(decision := d) else f
  }

  lemma {:induction false} RowHasKey(findings: seq<Finding>, kind: string, id: string)
    ensures var r := RowOf(findings, kind, id); r.Some? ==> r.value < |findings| && Keyed(findings[r.value], kind, id)
  {
    if findings != [] { RowHasKey(findings[..|findings| - 1], kind, id); }
  }

  method RowsByKey(findings: seq<Finding>) returns (rows: map<(string, string), nat>)
    ensures forall kind, id :: RowOf(findings, kind, id) == if (kind, id) in rows then Some(rows[(kind, id)]) else None
  {
    rows := map[];
    for i := 0 to |findings|
      invariant forall kind, id ::
        RowOf(findings[..i], kind, id) == if (kind, id) in rows then Some(rows[(kind, id)]) else None
    {
      assert findings[..i + 1][..i] == findings[..i];
      rows := rows[(findings[i].kind, findings[i].liveId) := i];
    }
    assert findings[..|findings|] == findings;
  }

  predicate Names(c: Candidate, f: Finding) { c.kind == f.kind && c.id == f.liveId }

  /** Candidate `k` is the last that names a finding. */
  predicate LastNaming(candidates: seq<Candidate>, f: Finding, k: nat) {
    && k < |candidates| && Names(candidates[k], f)
    && forall j :: k < j < |candidates| ==> !Names(candidates[j], f)
  }

  /** No later finding has the type and id of finding `i`. */
  predicate LastOfKey(findings: seq<Finding>, i: nat)
    requires i < |findings|
  {
    var f := findings[i];
    forall j :: i < j < |findings| ==> !(findings[j].kind == f.kind && findings[j].liveId == f.liveId)
  }

  /** What becomes of finding `i`: what the last candidate that names it deserves, or nothing. */
  ghost predicate Attended(rules: Rules, probe: Option<Probe>, findings: seq<Finding>, candidates: seq<Candidate>,
                           i: nat, f: Finding)
    requires i < |findings|
  {
    if LastOfKey(findings, i) && exists c :: c in candidates && Names(c, findings[i]) then
      && f.kind == findings[i].kind && f.liveId == findings[i].liveId && f.decision.Some?
      && exists k: nat ::
           LastNaming(candidates, findings[i], k) && Deserves(rules, probe, candidates[k], f.decision.value)
    else f == findings[i]
  }

  lemma {:induction false} LastDecisionIs(rules: Rules, probe: Option<Probe>, candidates: seq<Candidate>, f: Finding)
    returns (k: nat)
    ensures var d := LastDecision(rules, probe, candidates, f.kind, f.liveId);
            && (d.Some? <==> exists c :: c in candidates && Names(c, f))
            && (d.Some? ==> LastNaming(candidates, f, k) && d.value == Decided(rules, probe, candidates[k]))
  {
    hide Decided;
    k := 0;
    if candidates != [] {
      var front, c := candidates[..|candidates| - 1], candidates[|candidates| - 1];
      assert candidates == front + [c];
      if Names(c, f) {
        k := |candidates| - 1;
      } else {
        k := LastDecisionIs(rules, probe, front, f);
      }
    }
  }

  lemma {:induction false} RowOfIs(findings: seq<Finding>, i: nat)
    requires i < |findings|
    ensures RowOf(findings, findings[i].kind, findings[i].liveId) == Some(i) <==> LastOfKey(findings, i)
  {
    var front := findings[..|findings| - 1];
    RowHasKey(front, findings[i].kind, findings[i].liveId);
    if i < |front| {
      RowOfIs(front, i);
      assert front[i] == findings[i];
      assert LastOfKey(findings, i)
          <==> LastOfKey(front, i) && !Keyed(findings[|front|], findings[i].kind, findings[i].liveId);
    }
  }

  lemma OutcomeIsAttended(rules: Rules, probe: Option<Probe>, findings: seq<Finding>, candidates: seq<Candidate>,
                          i: nat)
    requires i < |findings|
    ensures Attended(rules, probe, findings, candidates, i, Outcome(rules, probe, findings, candidates, i))
  {
    hide Decided, Deserves, RowOf, LastOfKey;
    RowOfIs(findings, i);
    var k := LastDecisionIs(rules, probe, candidates, findings[i]);
    if k < |candidates| {
      DecidedIsDeserved(rules, probe, candidates[k], Decided(rules, probe, candidates[k]));
    }
  }

  /** Every finding a candidate names is decided, by the last candidate that names it; the others stay. */
  method AttachPayloads(rules: Rules, probe: Option<Probe>, findings: seq<Finding>, candidates: seq<Candidate>)
    returns (r: Option<seq<Finding>>)
    ensures r.None? <==> exists c :: c in candidates && (c.kind == "" || c.id == "" || c.name == "")
    ensures r.Some? ==> |r.value| == |findings|
    ensures r.Some? ==>
              forall i :: 0 <= i < |findings| ==> Attended(rules, probe, findings, candidates, i, r.value[i])
  {
    hide Decided, RowOf, Attended;
    var rows := RowsByKey(findings);
    var out := findings;
    for n := 0 to |candidates|
      invariant forall k :: 0 <= k < n ==> !Malformed(candidates[k])
      invariant |out| == |findings|
      invariant forall i :: 0 <= i < |findings| ==> out[i] == Outcome(rules, probe, findings, candidates[..n], i)
    {
      var c := candidates[n];
      if Malformed(c) { return None; }
      assert candidates[..n + 1][..n] == candidates[..n];
      RowHasKey(findings, c.kind, c.id);
      if (c.kind, c.id) in rows {
        var row := rows[(c.kind, c.id)];
        var d := Decide(rules, probe, c);
        out := out[row := out[row].(decision := Some(d))];
      }
    }
    assert candidates[..|candidates|] == candidates;
    forall i | 0 <= i < |findings| ensures Attended(rules, probe, findings, candidates, i, out[i]) {
      OutcomeIsAttended(rules, probe, findings, candidates, i);
    }
    return Some(out);
  }
}
