/** Lines of a document as Python splits and joins them, and the line shapes the block scanner knows. */
module HclText {
  import opened Strings

  // ---- lines -----------------------------------------------------------------------------------

  /** The characters at which str.splitlines ends a line. */
  predicate Boundary(c: char) {
    || c == '\n' || c == '\r' || c == '\U{0B}' || c == '\U{0C}'
    || c == '\U{1C}' || c == '\U{1D}' || c == '\U{1E}' || c == '\U{85}' || c == '\U{2028}' || c == '\U{2029}'
  }

  predicate OneLine(s: string) { forall c :: c in s ==> !Boundary(c) }

  /** The length of the first line, without its end. */
  function LineLength(text: string): (n: nat)
    ensures n <= |text| && OneLine(text[..n]) && (n < |text| ==> Boundary(text[n]))
  {
    if text == [] || Boundary(text[0]) then 0
    else
      var n := 1 + LineLength(text[1..]);
      assert text[..n] == [text[0]] + text[1..][..n - 1];
      n
  }

  /** The length of the line end a text starts with. */
  function EndLength(text: string): (n: nat)
    requires text != []
    ensures 1 <= n <= |text|
  {
    if |text| > 1 && text[0] == '\r' && text[1] == '\n' then 2 else 1
  }

  function SplitLines(text: string): (lines: seq<string>)
    ensures forall l :: l in lines ==> OneLine(l)
    decreases |text|
  {
    if text == [] then []
    else
      var n := LineLength(text);
      if n == |text| then
        assert text[..n] == text;
        [text]
      else [text[..n]] + SplitLines(text[n + EndLength(text[n..])..])
  }

  /** Every line followed by a newline. */
  function Unlines(lines: seq<string>): string {
    if lines == [] then "" else lines[0] + ("\n" + Unlines(lines[1..]))
  }

  lemma FirstLine(line: string, rest: string)
    requires OneLine(line)
    ensures LineLength(line + rest) == |line| + LineLength(rest)
    decreases |line|
  {
    if line == [] {
      assert line + rest == rest;
    } else {
      assert (line + rest)[1..] == line[1..] + rest;
      FirstLine(line[1..], rest);
    }
  }

  lemma SplitStep(line: string, rest: string)
    requires OneLine(line)
    ensures SplitLines(line + ("\n" + rest)) == [line] + SplitLines(rest)
  {
    hide LineLength, OneLine;
    var text := line + ("\n" + rest);
    FirstLine(line, "\n" + rest);
    assert LineLength("\n" + rest) == 0 by { NewlineIsEmptyLine(rest); }
    assert text[..|line|] == line && text[|line|..] == "\n" + rest;
    assert EndLength("\n" + rest) == 1 && text[|line| + 1..] == rest;
  }

  lemma NewlineIsEmptyLine(rest: string)
    ensures LineLength("\n" + rest) == 0
  {
  }

  /** Splitting inverts joining. */
  lemma {:induction false} SplitUnlines(lines: seq<string>)
    requires forall l :: l in lines ==> OneLine(l)
    ensures SplitLines(Unlines(lines)) == lines
  {
    hide OneLine;
    if lines != [] {
      SplitStep(lines[0], Unlines(lines[1..]));
      SplitUnlines(lines[1..]);
      assert lines == [lines[0]] + lines[1..];
    }
  }

  lemma {:induction false} UnlinesConcat(a: seq<string>, b: seq<string>)
    ensures Unlines(a + b) == Unlines(a) + Unlines(b)
  {
    if a == [] {
      assert a + b == b;
    } else {
      assert (a + b)[1..] == a[1..] + b;
      UnlinesConcat(a[1..], b);
      JoinAssociates(a[0], Unlines(a[1..]), Unlines(b));
    }
  }

  lemma JoinAssociates(line: string, x: string, y: string)
    ensures line + ("\n" + (x + y)) == (line + ("\n" + x)) + y
  {
  }

  /** Newline is the only line end that occurs. */
  predicate OnlyNewlines(text: string) { forall c :: c in text && Boundary(c) ==> c == '\n' }

  function WithFinalNewline(text: string): string {
    if text == [] || text[|text| - 1] == '\n' then text else text + "\n"
  }

  lemma {:induction false} JoinedHasOnlyNewlines(lines: seq<string>)
    requires forall l :: l in lines ==> OneLine(l)
    ensures OnlyNewlines(Unlines(lines))
  {
    if lines != [] {
      JoinedHasOnlyNewlines(lines[1..]);
      assert lines[0] in lines;
      assert forall c :: c in Unlines(lines) ==> c in lines[0] || c == '\n' || c in Unlines(lines[1..]);
    }
  }

  lemma {:induction false} NewlineTextSurvives(text: string)
    requires OnlyNewlines(text)
    ensures Unlines(SplitLines(text)) == WithFinalNewline(text)
    decreases |text|
  {
    hide Unlines, WithFinalNewline;
    if text != [] {
      var n := LineLength(text);
      if n < |text| {
        var line, rest := text[..n], text[n + 1..];
        assert text[n] in text && text[n] == '\n';
        assert EndLength(text[n..]) == 1;
        assert text == line + ("\n" + rest);
        NewlineTextSurvives(rest);
        UnlinesCons(line, SplitLines(rest));
        NewlineThen(line, rest);
      } else {
        LastLine(text, n);
      }
    } else {
      UnlinesCons("", []);
    }
  }

  lemma UnlinesCons(line: string, lines: seq<string>)
    ensures Unlines([line] + lines) == line + ("\n" + Unlines(lines)) && Unlines([]) == "" && WithFinalNewline("") == ""
  {
    assert ([line] + lines)[1..] == lines;
  }

  lemma NewlineThen(line: string, rest: string)
    ensures WithFinalNewline(line + ("\n" + rest)) == line + ("\n" + WithFinalNewline(rest))
  {
    if rest != [] && rest[|rest| - 1] != '\n' { JoinAssociates(line, rest, "\n"); }
  }

  lemma LastLine(text: string, n: nat)
    requires text != [] && n == LineLength(text) == |text|
    ensures Unlines(SplitLines(text)) == WithFinalNewline(text)
  {
    assert text[..n] == text && text[|text| - 1] in text[..n];
    assert SplitLines(text) == [text] && [text][1..] == [];
  }

  /** Splitting and joining gives a text back, its last line ended, exactly when newline is its only line end. */
  lemma LinesVerbatimIff(text: string)
    ensures Unlines(SplitLines(text)) == WithFinalNewline(text) <==> OnlyNewlines(text)
  {
    if OnlyNewlines(text) {
      NewlineTextSurvives(text);
    } else {
      JoinedHasOnlyNewlines(SplitLines(text));
      assert forall c :: c in text ==> c in WithFinalNewline(text);
    }
  }

  // ---- characters and runs of them -------------------------------------------------------------

  predicate Letter(c: char) { 'a' <= c <= 'z' || 'A' <= c <= 'Z' || c == '_' }
  predicate WordChar(c: char) { Letter(c) || '0' <= c <= '9' }
  predicate Word(s: string) { s != [] && forall c :: c in s ==> WordChar(c) }
  predicate Identifier(s: string) { Word(s) && Letter(s[0]) }

  /** White space, as `\s` and str.strip know it. */
  predicate Space(c: char) {
    || c == ' ' || c == '\t' || Boundary(c) || c == '\U{1F}' || c == '\U{A0}' || c == '\U{1680}'
    || '\U{2000}' <= c <= '\U{200A}' || c == '\U{202F}' || c == '\U{205F}' || c == '\U{3000}'
  }

  function WordRun(s: string): (n: nat)
    ensures n <= |s| && (forall c :: c in s[..n] ==> WordChar(c)) && (n < |s| ==> !WordChar(s[n]))
  {
    if s == [] || !WordChar(s[0]) then 0
    else
      var n := 1 + WordRun(s[1..]);
      assert s[..n] == [s[0]] + s[1..][..n - 1];
      n
  }

  /** Where the word a text ends with starts. */
  function LastWord(s: string): (n: nat)
    ensures n <= |s| && (forall c :: c in s[n..] ==> WordChar(c)) && (n > 0 ==> !WordChar(s[n - 1]))
  {
    if s == [] then 0
    else if !WordChar(s[|s| - 1]) then |s|
    else
      var n := LastWord(s[..|s| - 1]);
      assert s[n..] == s[..|s| - 1][n..] + [s[|s| - 1]];
      n
  }

  function TrimEnd(s: string): string { if s != [] && Space(s[|s| - 1]) then TrimEnd(s[..|s| - 1]) else s }

  function TrimStart(s: string): string { if s != [] && Space(s[0]) then TrimStart(s[1..]) else s }

  function Strip(s: string): string { TrimEnd(TrimStart(s)) }

  lemma {:induction false} TrimEndKeeps(s: string, c: char)
    requires c in s && !Space(c)
    ensures c in TrimEnd(s)
  {
    if Space(s[|s| - 1]) { TrimEndKeeps(s[..|s| - 1], c); }
  }

  lemma {:induction false} TrimStartKeeps(s: string, c: char)
    requires c in s && !Space(c)
    ensures c in TrimStart(s)
  {
    if Space(s[0]) { TrimStartKeeps(s[1..], c); }
  }

  lemma {:induction false} TrimEndWithin(s: string)
    ensures TrimEnd(s) <= s
  {
    if s != [] && Space(s[|s| - 1]) { TrimEndWithin(s[..|s| - 1]); }
  }

  /** The classes by code point: the line ends of str.splitlines, `\s`, and the letters of the patterns. */
  lemma CharacterClasses(c: char)
    ensures Boundary(c) <==> c as int in {10, 11, 12, 13, 28, 29, 30, 133, 8232, 8233}
    ensures Space(c) <==>
              || 9 <= c as int <= 13 || 28 <= c as int <= 32 || 8192 <= c as int <= 8202
              || c as int in {133, 160, 5760, 8232, 8233, 8239, 8287, 12288}
    ensures Letter(c) <==> 65 <= c as int <= 90 || 97 <= c as int <= 122 || c as int == 95
    ensures WordChar(c) <==> Letter(c) || 48 <= c as int <= 57
  {
  }

  predicate AllSpace(s: string) { forall c :: c in s ==> Space(c) }

  lemma TrimStartStep(s: string)
    ensures s != [] && Space(s[0]) ==> TrimStart(s) == TrimStart(s[1..])
    ensures s == [] || !Space(s[0]) ==> TrimStart(s) == s
  {
    hide Space;
  }

  lemma TrimEndStep(s: string)
    ensures s != [] && Space(s[|s| - 1]) ==> TrimEnd(s) == TrimEnd(s[..|s| - 1])
    ensures s == [] || !Space(s[|s| - 1]) ==> TrimEnd(s) == s
  {
    hide Space;
  }

  lemma {:induction false} TrimStartSplits(s: string) returns (a: string)
    ensures AllSpace(a) && s == a + TrimStart(s) && (TrimStart(s) != [] ==> !Space(TrimStart(s)[0]))
  {
    hide Space, TrimStart;
    TrimStartStep(s);
    if s != [] && Space(s[0]) {
      var b := TrimStartSplits(s[1..]);
      a := [s[0]] + b;
      assert s == [s[0]] + (b + TrimStart(s));
    } else {
      a := "";
    }
  }

  lemma {:induction false} TrimEndSplits(s: string) returns (d: string)
    ensures AllSpace(d) && s == TrimEnd(s) + d && (TrimEnd(s) != [] ==> !Space(TrimEnd(s)[|TrimEnd(s)| - 1]))
  {
    hide Space, TrimEnd;
    TrimEndStep(s);
    if s != [] && Space(s[|s| - 1]) {
      var b := TrimEndSplits(s[..|s| - 1]);
      d := b + [s[|s| - 1]];
      assert s == (TrimEnd(s) + b) + [s[|s| - 1]];
    } else {
      d := "";
    }
  }

  lemma {:induction false} TrimStartDrops(a: string, x: string)
    requires AllSpace(a) && x != [] && !Space(x[0])
    ensures TrimStart(a + x) == x
  {
    hide Space, TrimStart;
    TrimStartStep(a + x);
    if a == [] {
      assert a + x == x;
    } else {
      assert (a + x)[1..] == a[1..] + x && (a + x)[0] == a[0];
      TrimStartDrops(a[1..], x);
    }
  }

  lemma {:induction false} TrimEndDrops(x: string, d: string)
    requires AllSpace(d) && x != [] && !Space(x[|x| - 1])
    ensures TrimEnd(x + d) == x
  {
    hide Space, TrimEnd;
    TrimEndStep(x + d);
    if d == [] {
      assert x + d == x;
    } else {
      assert (x + d)[..|x + d| - 1] == x + d[..|d| - 1] && (x + d)[|x + d| - 1] == d[|d| - 1];
      TrimEndDrops(x, d[..|d| - 1]);
    }
  }

  lemma WordIsNoSpace(c: char)
    requires WordChar(c)
    ensures !Space(c)
  {
  }

  // ---- where lines end -----------------------------------------------------------------------------

  /** Each line followed by its own end. */
  function Woven(lines: seq<string>, ends: seq<string>): string
    requires |lines| == |ends|
  {
    if lines == [] then "" else lines[0] + (ends[0] + Woven(lines[1..], ends[1..]))
  }

  /** An end of a line: a carriage return with a newline, or one of the characters. */
  predicate LineEnd(e: string) { e == "\r\n" || (|e| == 1 && Boundary(e[0])) }

  /** Every line has an end, but for the last one if it is not empty. */
  predicate EndsOk(lines: seq<string>, ends: seq<string>) {
    && |lines| == |ends|
    && forall i :: 0 <= i < |lines| ==> LineEnd(ends[i]) || (i == |lines| - 1 && ends[i] == "" && lines[i] != "")
  }

  /** A carriage return with a newline behind it is one end, not two. */
  predicate PairsKept(lines: seq<string>, ends: seq<string>)
    requires |lines| == |ends|
  {
    forall i :: 0 <= i < |lines| - 1 && ends[i] == "\r" && lines[i + 1] == "" ==> !("\n" <= ends[i + 1])
  }

  /**
   * Splitting takes a text apart at its line ends and nowhere else: with the ends put back it is
   * the text, and no line has an end in it.
   */
  lemma {:induction false} LinesOfText(text: string) returns (ends: seq<string>)
    ensures EndsOk(SplitLines(text), ends) && PairsKept(SplitLines(text), ends)
    ensures Woven(SplitLines(text), ends) == text
    ensures forall l :: l in SplitLines(text) ==> OneLine(l)
    decreases |text|
  {
    hide SplitLines, LineLength, EndLength, Boundary, OneLine, Woven, EndsOk, PairsKept, LineEnd;
    LastIsOpen(text);
    if text == [] {
      ends := [];
      NothingSplits();
    } else if LineLength(text) == |text| {
      ends := [""];
      SplitsLast(text);
    } else {
      var n := LineLength(text);
      var end := text[n..][..EndLength(text[n..])];
      var rest := text[n + |end|..];
      var more := LinesOfText(rest);
      ends := [end] + more;
      SplitsFirst(text, n, rest);
      assert text[n..][|end|..] == rest && text == text[..n] + (end + rest);
      EndIs(text[n..], |end|, rest);
      LineBefore(text[..n], end, rest, SplitLines(rest), more);
    }
  }

  lemma SplitsFirst(text: string, n: nat, rest: string)
    requires text != [] && n == LineLength(text) < |text| && rest == text[n + EndLength(text[n..])..]
    ensures SplitLines(text) == [text[..n]] + SplitLines(rest)
  {
    hide LineLength, EndLength, OneLine, Boundary;
  }

  lemma SplitsLast(text: string)
    requires text != [] && LineLength(text) == |text|
    ensures SplitLines(text) == [text]
  {
    hide LineLength, EndLength, OneLine, Boundary;
  }

  lemma NothingSplits()
    ensures SplitLines([]) == []
  {
  }

  lemma LastIsOpen(text: string)
    ensures text != [] ==> EndsOk([text], [""]) && PairsKept([text], [""]) && Woven([text], [""]) == text
    ensures EndsOk([], []) && PairsKept([], []) && Woven([], []) == ""
  {
  }

  /** The end a text starts with, and that it takes in a newline behind a carriage return. */
  lemma EndIs(text: string, m: nat, rest: string)
    requires text != [] && Boundary(text[0]) && m == EndLength(text) && rest == text[m..]
    ensures m <= |text| && LineEnd(text[..m])
    ensures text[..m] == "\r" ==> !("\n" <= rest)
  {
    if m == 2 { assert text[..m] == "\r\n"; }
  }

  lemma LineBefore(line: string, end: string, rest: string, lines: seq<string>, more: seq<string>)
    requires LineEnd(end) && (end == "\r" ==> !("\n" <= rest))
    requires EndsOk(lines, more) && PairsKept(lines, more) && Woven(lines, more) == rest
    ensures EndsOk([line] + lines, [end] + more) && PairsKept([line] + lines, [end] + more)
    ensures Woven([line] + lines, [end] + more) == line + (end + rest)
  {
    hide Boundary;
    var all, ends := [line] + lines, [end] + more;
    assert all[1..] == lines && ends[1..] == more;
    if end == "\r" && lines != [] && lines[0] == "" { FirstEnd(rest, lines, more); }
  }

  lemma FirstEnd(rest: string, lines: seq<string>, more: seq<string>)
    requires EndsOk(lines, more) && Woven(lines, more) == rest && lines != [] && lines[0] == ""
    ensures more[0] <= rest
  {
    assert rest == more[0] + Woven(lines[1..], more[1..]);
  }

  // ---- headers and heredocs ----------------------------------------------------------------------

  const OPENING := "resource \""
  const BETWEEN := "\" \""
  const CLOSING := "\" {"

  /** The address a resource header declares, if the line is one. */
  function Header(line: string): Option<string> {
    if !(OPENING <= line) then None
    else
      var r := line[|OPENING|..];
      var n := WordRun(r);
      if n == 0 || !(BETWEEN <= r[n..]) then None
      else
        var l := r[n..][|BETWEEN|..];
        var m := WordRun(l);
        if m == 0 || !Letter(l[0]) || l[m..] != CLOSING then None else Some(r[..n] + "." + l[..m])
  }

  function HeaderLine(kind: string, name: string): string { OPENING + (kind + (BETWEEN + (name + CLOSING))) }

  lemma {:induction false} WordRunEnds(w: string, rest: string)
    requires (forall c :: c in w ==> WordChar(c)) && rest != [] && !WordChar(rest[0])
    ensures WordRun(w + rest) == |w|
  {
    if w == [] {
      assert w + rest == rest;
    } else {
      assert (w + rest)[1..] == w[1..] + rest;
      WordRunEnds(w[1..], rest);
    }
  }

  /** A printed header declares its address. */
  lemma PrintedHeader(kind: string, name: string)
    requires Word(kind) && Identifier(name)
    ensures Header(HeaderLine(kind, name)) == Some(kind + "." + name)
  {
    var line := HeaderLine(kind, name);
    var r, l := kind + (BETWEEN + (name + CLOSING)), name + CLOSING;
    assert line[|OPENING|..] == r;
    WordRunEnds(kind, BETWEEN + l);
    assert r[..|kind|] == kind && r[|kind|..] == BETWEEN + l && r[|kind|..][|BETWEEN|..] == l;
    WordRunEnds(name, CLOSING);
    assert l[..|name|] == name && l[|name|..] == CLOSING;
  }

  lemma PrefixJoins(p: string, s: string)
    requires p <= s
    ensures s == p + s[|p|..]
  {
  }

  lemma RunJoins(s: string)
    ensures s == s[..WordRun(s)] + s[WordRun(s)..]
    ensures WordRun(s) > 0 ==> Word(s[..WordRun(s)])
    ensures WordRun(s) > 0 && Letter(s[0]) ==> Identifier(s[..WordRun(s)])
  {
    hide WordChar, Letter;
  }

  /** And a line that declares an address is a printed header. */
  lemma HeaderIsPrinted(line: string) returns (kind: string, name: string)
    requires Header(line).Some?
    ensures Word(kind) && Identifier(name) && line == HeaderLine(kind, name) && Header(line) == Some(kind + "." + name)
  {
    hide Letter, WordRun, Word, Identifier;
    var r := line[|OPENING|..];
    var between := r[WordRun(r)..];
    var l := between[|BETWEEN|..];
    kind, name := r[..WordRun(r)], l[..WordRun(l)];
    PrefixJoins(OPENING, line);
    RunJoins(r);
    PrefixJoins(BETWEEN, between);
    RunJoins(l);
  }

  datatype Heredoc = NoDoc | Doc(indented: bool, name: string)

  predicate EndsWith(s: string, suffix: string) { |suffix| <= |s| && s[|s| - |suffix|..] == suffix }

  /** The heredoc a line opens at its end, if any. */
  function Opens(line: string): (h: Heredoc)
    ensures h.Doc? ==> Identifier(h.name)
  {
    var s := TrimEnd(line);
    var n := LastWord(s);
    var before, name := s[..n], s[n..];
    if name == [] || !Letter(name[0]) then NoDoc
    else
      assert forall c :: c in s[n..] ==> WordChar(c);
      if EndsWith(before, "<<") then Doc(false, name)
      else if EndsWith(before, "<<-") || EndsWith(before, "<<~") then Doc(true, name)
      else NoDoc
  }

  predicate Closes(h: Heredoc, line: string)
    requires h.Doc?
  {
    if h.indented then Strip(line) == h.name else line == h.name
  }

  /** A line whose end opens a heredoc of a name: the mark, the name, and nothing but white space behind. */
  ghost predicate OpensDoc(line: string, indented: bool, name: string) {
    && Identifier(name)
    && exists p, mark, d ::
         && AllSpace(d) && line == p + (mark + (name + d))
         && if indented then mark == "<<-" || mark == "<<~" else mark == "<<"
  }

  lemma {:induction false} LastWordEnds(rest: string, w: string)
    requires (forall c :: c in w ==> WordChar(c)) && (rest != [] ==> !WordChar(rest[|rest| - 1]))
    ensures LastWord(rest + w) == |rest|
  {
    if w == [] {
      assert rest + w == rest;
    } else {
      var s := rest + w;
      assert s[..|s| - 1] == rest + w[..|w| - 1] && s[|s| - 1] == w[|w| - 1];
      LastWordEnds(rest, w[..|w| - 1]);
    }
  }

  lemma DocIsOpened(line: string, indented: bool, name: string)
    requires OpensDoc(line, indented, name)
    ensures Opens(line) == Doc(indented, name)
  {
    hide Space, WordChar, Letter, AllSpace, TrimEnd, LastWord;
    var p, mark, d :|
      && AllSpace(d) && line == p + (mark + (name + d))
      && if indented then mark == "<<-" || mark == "<<~" else mark == "<<";
    var before := p + mark;
    var s := before + name;
    assert line == s + d;
    assert s[|s| - 1] == name[|name| - 1] && name[|name| - 1] in name;
    WordIsNoSpace(name[|name| - 1]);
    TrimEndDrops(s, d);
    MarkIsPlain(before[|before| - 1]);
    LastWordEnds(before, name);
    OpensAt(line, before, name);
    MarkEnds(p, mark);
  }

  lemma OpensAt(line: string, before: string, name: string)
    requires TrimEnd(line) == before + name && LastWord(before + name) == |before| && Identifier(name)
    ensures Opens(line)
            == if EndsWith(before, "<<") then Doc(false, name)
               else if EndsWith(before, "<<-") || EndsWith(before, "<<~") then Doc(true, name)
               else NoDoc
  {
    hide TrimEnd, LastWord, EndsWith, Letter, WordChar;
    var s := before + name;
    assert s[..|before|] == before && s[|before|..] == name;
  }

  lemma MarkEnds(p: string, mark: string)
    requires mark == "<<" || mark == "<<-" || mark == "<<~"
    ensures EndsWith(p + mark, "<<") <==> mark == "<<"
    ensures EndsWith(p + mark, "<<-") <==> mark == "<<-"
    ensures EndsWith(p + mark, "<<~") <==> mark == "<<~"
  {
    var s := p + mark;
    assert s[|s| - 1] == mark[|mark| - 1] && s[|s| - 2] == mark[|mark| - 2];
    assert s[|s| - |mark|..] == mark;
  }

  lemma MarkIsPlain(c: char)
    requires c == '<' || c == '-' || c == '~'
    ensures !WordChar(c)
  {
  }

  lemma OpenedIsDoc(line: string)
    requires Opens(line).Doc?
    ensures OpensDoc(line, Opens(line).indented, Opens(line).name)
  {
    var s := TrimEnd(line);
    var n := LastWord(s);
    var before, name := s[..n], s[n..];
    assert Identifier(name);
    hide Opens, Space, WordChar, Letter, AllSpace, TrimEnd, LastWord, EndsWith;
    assert s == before + name;
    OpensAt(line, before, name);
    var d := TrimEndSplits(line);
    var mark := if EndsWith(before, "<<") then "<<" else if EndsWith(before, "<<-") then "<<-" else "<<~";
    SuffixJoins(before, mark);
    JoinFour(before[..|before| - |mark|], mark, name, d);
  }

  lemma SuffixJoins(s: string, suffix: string)
    requires EndsWith(s, suffix)
    ensures |suffix| <= |s| && s == s[..|s| - |suffix|] + suffix
  {
  }

  lemma JoinFour(a: string, b: string, c: string, d: string)
    ensures ((a + b) + c) + d == a + (b + (c + d))
  {
  }

  /** Main result on heredocs: what a line opens, and which line closes it. */
  lemma OpensIff(line: string, indented: bool, name: string)
    ensures Opens(line) == Doc(indented, name) <==> OpensDoc(line, indented, name)
  {
    hide Opens, OpensDoc;
    if Opens(line) == Doc(indented, name) { OpenedIsDoc(line); }
    if OpensDoc(line, indented, name) { DocIsOpened(line, indented, name); }
  }

  lemma ClosesIff(indented: bool, name: string, line: string)
    requires Identifier(name)
    ensures Closes(Doc(indented, name), line)
            <==> exists a, d :: AllSpace(a) && AllSpace(d) && (indented || a + d == "") && line == a + (name + d)
  {
    hide Space, WordChar, Letter, AllSpace, TrimStart, TrimEnd;
    if Closes(Doc(indented, name), line) {
      if indented {
        var a := TrimStartSplits(line);
        var d := TrimEndSplits(TrimStart(line));
        assert line == a + (name + d);
      } else {
        NothingIsSpace();
        assert line == "" + (name + "") && "" + "" == "";
      }
    }
    if a, d :| AllSpace(a) && AllSpace(d) && (indented || a + d == "") && line == a + (name + d) {
      if indented {
        assert name[0] in name && name[|name| - 1] in name;
        WordIsNoSpace(name[0]);
        WordIsNoSpace(name[|name| - 1]);
        TrimStartDrops(a, name + d);
        TrimEndDrops(name, d);
      } else {
        assert |a| + |d| == |a + d| == 0;
        assert line == name;
      }
    }
  }

  lemma NothingIsSpace()
    ensures AllSpace("")
  {
  }

  lemma OpensNeedsBracket(line: string)
    requires '<' !in line
    ensures Opens(line) == NoDoc
  {
    TrimEndWithin(line);
    var s := TrimEnd(line);
    var before := s[..LastWord(s)];
    SuffixIn(before, "<<");
    SuffixIn(before, "<<-");
    SuffixIn(before, "<<~");
  }

  lemma SuffixIn(s: string, suffix: string)
    requires suffix != []
    ensures EndsWith(s, suffix) ==> suffix[0] in s
  {
  }
}
