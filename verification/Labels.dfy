/** Mechanical HCL labels: what a display name becomes, and how collisions are numbered apart. */
module Labels {
  import opened Strings

  predicate Lower(c: char) { 'a' <= c <= 'z' }
  predicate Upper(c: char) { 'A' <= c <= 'Z' }
  predicate DigitChar(c: char) { '0' <= c <= '9' }
  predicate Plain(c: char) { Lower(c) || DigitChar(c) }

  /** What gen-imports.py accepts as a label. */
  predicate LabelOk(s: string) {
    && s != [] && (Lower(s[0]) || s[0] == '_')
    && forall i :: 0 <= i < |s| ==> Plain(s[i]) || s[i] == '_'
  }

  // ---- to_label ----------------------------------------------------------------------------------

  /** An underscore between a lower-case letter or digit and the capital that follows it. */
  function SplitCamel(s: string): string {
    if |s| < 2 then s
    else if Plain(s[0]) && Upper(s[1]) then [s[0], '_'] + SplitCamel(s[1..])
    else [s[0]] + SplitCamel(s[1..])
  }

  function DropWhile(drop: char -> bool, s: string): (r: string)
    ensures |r| <= |s| && (r != [] ==> !drop(r[0])) && (forall c :: c in r ==> c in s)
  {
    if s != [] && drop(s[0]) then DropWhile(drop, s[1..]) else s
  }

  /** Every run of characters of a kind becomes one underscore. */
  function Collapse(run: char -> bool, s: string): (r: string)
    ensures forall c :: c in r ==> c == '_' || (c in s && !run(c))
    decreases |s|
  {
    if s == [] then []
    else if run(s[0]) then ['_'] + Collapse(run, DropWhile(run, s[1..]))
    else [s[0]] + Collapse(run, s[1..])
  }

  function DropLast(drop: char -> bool, s: string): (r: string)
    ensures |r| <= |s| && r == s[..|r|] && (r != [] ==> !drop(r[|r| - 1]))
  {
    if s != [] && drop(s[|s| - 1]) then DropLast(drop, s[..|s| - 1]) else s
  }

  function StripUnderscores(s: string): (r: string)
    ensures forall c :: c in r ==> c in s
    ensures r != [] ==> r[0] != '_' && r[|r| - 1] != '_'
  {
    DropLast(c => c == '_', DropWhile(c => c == '_', s))
  }

  /** Lower case, one underscore for every run of anything else, none at the ends. */
  function Snake(lower: string -> string, name: string): (r: string)
    ensures forall c :: c in r ==> Plain(c) || c == '_'
    ensures r != [] ==> r[0] != '_' && r[|r| - 1] != '_'
  {
    StripUnderscores(Collapse(c => c == '_', Collapse(c => !Plain(c), lower(SplitCamel(name)))))
  }

  /** A label for a display name; `lower` is Unicode lower-casing, about which nothing is assumed. */
  function ToLabel(lower: string -> string, name: string): (r: string)
    ensures LabelOk(r)
  {
    var s := Snake(lower, name);
    var t := if s == [] then "unnamed" else s;
    assert forall i :: 0 <= i < |t| ==> t[i] in t;
    if DigitChar(t[0]) then "x_" + t else t
  }

  /** The letters and digits of a text, in order. */
  function Alnums(s: string): string { if s == [] then [] else (if Plain(s[0]) then [s[0]] else []) + Alnums(s[1..]) }

  lemma {:induction false} AlnumsConcat(a: string, b: string)
    ensures Alnums(a + b) == Alnums(a) + Alnums(b)
  {
    hide Plain;
    if a == [] {
      assert a + b == b;
    } else {
      var first := if Plain(a[0]) then [a[0]] else [];
      assert (a + b)[1..] == a[1..] + b && (a + b)[0] == a[0];
      assert Alnums(a + b) == first + Alnums(a[1..] + b) && Alnums(a) == first + Alnums(a[1..]);
      hide Alnums;
      AlnumsConcat(a[1..], b);
      assert first + (Alnums(a[1..]) + Alnums(b)) == (first + Alnums(a[1..])) + Alnums(b);
    }
  }

  lemma {:induction false} DropWhileKeeps(drop: char -> bool, s: string)
    requires forall c :: drop(c) ==> !Plain(c)
    ensures Alnums(DropWhile(drop, s)) == Alnums(s)
  {
    if s != [] && drop(s[0]) { DropWhileKeeps(drop, s[1..]); }
  }

  lemma {:induction false} DropLastKeeps(drop: char -> bool, s: string)
    requires forall c :: drop(c) ==> !Plain(c)
    ensures Alnums(DropLast(drop, s)) == Alnums(s)
  {
    if s != [] && drop(s[|s| - 1]) {
      DropLastKeeps(drop, s[..|s| - 1]);
      assert s == s[..|s| - 1] + [s[|s| - 1]];
      AlnumsConcat(s[..|s| - 1], [s[|s| - 1]]);
    }
  }

  lemma {:induction false} CollapseKeeps(run: char -> bool, s: string)
    requires forall c :: run(c) ==> !Plain(c)
    ensures Alnums(Collapse(run, s)) == Alnums(s)
    decreases |s|
  {
    if s != [] {
      if run(s[0]) {
        DropWhileKeeps(run, s[1..]);
        CollapseKeeps(run, DropWhile(run, s[1..]));
        assert (['_'] + Collapse(run, DropWhile(run, s[1..])))[1..] == Collapse(run, DropWhile(run, s[1..]));
      } else {
        CollapseKeeps(run, s[1..]);
        assert ([s[0]] + Collapse(run, s[1..]))[1..] == Collapse(run, s[1..]);
      }
    }
  }

  /**
   * No letter or digit is lost, added or moved: a label spells the lower-cased name, behind an
   * `x` if that starts with a digit, and a name without any is called unnamed.
   */
  lemma LabelSpellsName(lower: string -> string, name: string)
    ensures var spelled := Alnums(lower(SplitCamel(name)));
            Alnums(ToLabel(lower, name)) == if spelled == [] then "unnamed"
                                            else if DigitChar(spelled[0]) then "x" + spelled else spelled
  {
    hide Snake, SplitCamel;
    var s := Snake(lower, name);
    SnakeSpells(lower, name);
    UnnamedSpells();
    if s != [] {
      assert s[0] in s && Plain(s[0]);
      assert Alnums(s)[0] == s[0];
      AlnumsConcat("x_", s);
    }
  }

  lemma SnakeSpells(lower: string -> string, name: string)
    ensures Alnums(Snake(lower, name)) == Alnums(lower(SplitCamel(name)))
  {
    hide Alnums, Collapse, SplitCamel;
    var t := lower(SplitCamel(name));
    var once := Collapse(c => !Plain(c), t);
    CollapseKeeps(c => !Plain(c), t);
    CollapseKeeps(c => c == '_', once);
    StripSpells(Collapse(c => c == '_', once));
  }

  lemma StripSpells(s: string)
    ensures Alnums(StripUnderscores(s)) == Alnums(s)
  {
    hide Alnums, DropWhile, DropLast;
    DropWhileKeeps(c => c == '_', s);
    DropLastKeeps(c => c == '_', DropWhile(c => c == '_', s));
  }

  lemma UnnamedSpells()
    ensures Alnums("unnamed") == "unnamed" && Alnums("x_") == "x"
  {
    var u := "unnamed";
    assert u[1..] == "nnamed" && u[1..][1..] == "named" && u[1..][1..][1..] == "amed";
    assert "amed"[1..] == "med" && "med"[1..] == "ed" && "ed"[1..] == "d" && "d"[1..] == "";
    assert "x_"[1..] == "_" && "_"[1..] == "";
  }

  // ---- the words of a name -----------------------------------------------------------------------

  /** A capital that starts a word: right behind a lower-case letter or a digit. */
  predicate StartsWord(s: string, i: nat)
    requires i < |s|
  {
    && i > 0 && 65 <= s[i] as int <= 90
    && (97 <= s[i - 1] as int <= 122 || 48 <= s[i - 1] as int <= 57)
  }

  /** A name with an underscore before every capital that starts a word, character by character. */
  function Parted(s: string, n: nat): string
    requires n <= |s|
  {
    if n == 0 then "" else Parted(s, n - 1) + (if StartsWord(s, n - 1) then "_" else "") + [s[n - 1]]
  }

  function Mark(s: string, i: nat): string
    requires i < |s|
  {
    if StartsWord(s, i) then "_" else ""
  }

  lemma PartedStep(s: string, n: nat)
    requires n < |s|
    ensures Parted(s, n + 1) == Parted(s, n) + Mark(s, n) + [s[n]]
  {
    hide StartsWord;
  }

  lemma SplitCamelStep(s: string, k: nat)
    requires k < |s|
    ensures k + 1 < |s| ==> SplitCamel(s[k..]) == [s[k]] + Mark(s, k + 1) + SplitCamel(s[k + 1..])
    ensures k + 1 == |s| ==> SplitCamel(s[k..]) == [s[k]]
  {
    hide Plain, Upper;
    var t := s[k..];
    assert t[0] == s[k];
    if k + 1 < |s| {
      assert t[1] == s[k + 1] && t[1..] == s[k + 1..];
      BreaksAlike(s[k], s[k + 1]);
    } else {
      assert t == [s[k]];
    }
  }

  lemma BreaksAlike(c: char, d: char)
    ensures Plain(c) && Upper(d)
            <==> 65 <= d as int <= 90 && (97 <= c as int <= 122 || 48 <= c as int <= 57)
  {
  }

  lemma {:induction false} SplitCamelFrom(s: string, k: nat)
    requires k < |s|
    ensures Parted(s, |s|) == Parted(s, k) + Mark(s, k) + SplitCamel(s[k..])
    decreases |s| - k
  {
    hide Parted, SplitCamel, Mark;
    PartedStep(s, k);
    SplitCamelStep(s, k);
    if k + 1 < |s| {
      SplitCamelFrom(s, k + 1);
      Regroup(Parted(s, k) + Mark(s, k), [s[k]], Mark(s, k + 1), SplitCamel(s[k + 1..]));
    }
  }

  lemma Regroup(a: string, b: string, c: string, d: string)
    ensures (a + b) + c + d == a + (b + c + d)
  {
  }

  lemma SplitCamelParts(s: string)
    ensures SplitCamel(s) == Parted(s, |s|)
  {
    if s != [] {
      SplitCamelFrom(s, 0);
      assert s[0..] == s && Parted(s, 0) + Mark(s, 0) == "";
    }
  }

  predicate WordPart(c: char) { 97 <= c as int <= 122 || 48 <= c as int <= 57 }

  /** How many of the first characters of a text are letters or digits. */
  function RunLength(s: string): (n: nat)
    ensures n <= |s| && (s != [] && WordPart(s[0]) ==> n > 0)
  {
    if s == [] || !WordPart(s[0]) then 0 else 1 + RunLength(s[1..])
  }

  /** The longest runs of lower-case letters and digits in a text, in order. */
  function Words(s: string): seq<string>
    decreases |s|
  {
    if s == [] then []
    else if !WordPart(s[0]) then Words(s[1..])
    else [s[..RunLength(s)]] + Words(s[RunLength(s)..])
  }

  /** Words with one underscore between. */
  function Joined(ws: seq<string>): string {
    if ws == [] then "" else if |ws| == 1 then ws[0] else ws[0] + ("_" + Joined(ws[1..]))
  }

  /** The same words, one underscore before the first or after the last where the text has something there. */
  function Framed(before: bool, ws: seq<string>, after: bool): string {
    (if before then "_" else "") + Joined(ws) + (if after && ws != [] then "_" else "")
  }

  lemma PlainIsWordPart(c: char)
    ensures Plain(c) <==> WordPart(c)
  {
  }

  lemma {:induction false} CollapseRun(run: char -> bool, s: string)
    requires forall c :: run(c) <==> !WordPart(c)
    requires s != [] && WordPart(s[0])
    ensures 0 < RunLength(s) <= |s|
    ensures var n := RunLength(s); Collapse(run, s) == s[..n] + Collapse(run, s[n..])
    ensures var n := RunLength(s); n < |s| ==> !WordPart(s[n])
    decreases |s|
  {
    hide Words, Collapse, WordPart, RunLength;
    CollapseStep(run, s);
    RunStep(s);
    var rest := s[1..];
    var m := RunLength(rest);
    if rest != [] && WordPart(rest[0]) {
      CollapseRun(run, rest);
    } else {
      NoRun(rest);
      assert rest[..0] + Collapse(run, rest) == Collapse(run, rest) && rest[0..] == rest;
    }
    SliceSteps(s, m);
    assert [s[0]] + (rest[..m] + Collapse(run, rest[m..])) == ([s[0]] + rest[..m]) + Collapse(run, rest[m..]);
  }

  lemma SliceSteps(s: string, m: nat)
    requires m < |s|
    ensures s[1..][m..] == s[m + 1..] && s[..m + 1] == [s[0]] + s[1..][..m]
    ensures m + 1 < |s| ==> s[m + 1] == s[1..][m]
  {
  }

  lemma RunStep(s: string)
    requires s != [] && WordPart(s[0])
    ensures RunLength(s) == 1 + RunLength(s[1..])
  {
  }

  lemma NoRun(s: string)
    requires s == [] || !WordPart(s[0])
    ensures RunLength(s) == 0
  {
  }

  lemma CollapseStep(run: char -> bool, s: string)
    requires s != [] && !run(s[0])
    ensures Collapse(run, s) == [s[0]] + Collapse(run, s[1..])
  {
  }

  lemma {:induction false} WordsAfterDrop(run: char -> bool, s: string)
    requires forall c :: run(c) <==> !WordPart(c)
    ensures Words(DropWhile(run, s)) == Words(s)
    ensures var t := DropWhile(run, s); (t == [] <==> Words(s) == []) && (t != [] ==> WordPart(t[0]))
  {
    if s != [] && run(s[0]) {
      WordsAfterDrop(run, s[1..]);
    } else if s != [] {
      assert WordPart(s[0]);
    }
  }

  lemma {:induction false} LastStays(run: char -> bool, s: string)
    requires forall c :: run(c) <==> !WordPart(c)
    ensures var t := DropWhile(run, s);
            t != [] ==> s != [] && t[|t| - 1] == s[|s| - 1]
  {
    if s != [] && run(s[0]) { LastStays(run, s[1..]); }
  }

  lemma {:induction false} NoWordAtEnd(s: string)
    requires s != [] && Words(s) == []
    ensures !WordPart(s[|s| - 1]) && EndsOther(s)
  {
    if |s| > 1 { NoWordAtEnd(s[1..]); }
  }

  predicate StartsOther(s: string) { s != [] && !WordPart(s[0]) }

  predicate EndsOther(s: string) { s != [] && !WordPart(s[|s| - 1]) }

  /** The words of a text, with an underscore where it starts or ends with something else. */
  function FrameOf(s: string): string { Framed(StartsOther(s), Words(s), EndsOther(s)) }

  lemma FramesWord(s: string)
    requires s != [] && WordPart(s[0]) && 0 < RunLength(s) <= |s|
    requires RunLength(s) < |s| ==> !WordPart(s[RunLength(s)])
    ensures FrameOf(s) == s[..RunLength(s)] + FrameOf(s[RunLength(s)..])
  {
    hide Framed, WordPart, Words, RunLength, StartsOther, EndsOther;
    var n := RunLength(s);
    var rest := s[n..];
    WordsStep(s);
    EndsOfRest(s, n);
    if rest == [] { NoWords(); } else if Words(rest) == [] { NoWordAtEnd(rest); }
    FrameWord(s[..n], Words(rest), StartsOther(rest), EndsOther(rest));
  }

  lemma EndsOfRest(s: string, n: nat)
    requires s != [] && WordPart(s[0]) && n == RunLength(s) && 0 < n <= |s| && (n < |s| ==> !WordPart(s[n]))
    ensures !StartsOther(s) && (StartsOther(s[n..]) <==> s[n..] != [])
    ensures (EndsOther(s) <==> EndsOther(s[n..])) && (s[n..] == [] ==> !EndsOther(s[n..]))
  {
    hide WordPart, RunLength;
    if n == |s| { RunIsWord(s); } else { assert s[n..][0] == s[n] && s[n..][|s[n..]| - 1] == s[|s| - 1]; }
  }

  lemma WordsStep(s: string)
    requires s != [] && WordPart(s[0])
    ensures Words(s) == [s[..RunLength(s)]] + Words(s[RunLength(s)..])
  {
    hide WordPart, RunLength;
  }

  lemma NoWords()
    ensures Words("") == []
  {
  }

  lemma FramesGap(s: string, t: string)
    requires s != [] && !WordPart(s[0]) && Words(t) == Words(s[1..])
    requires (t == [] <==> Words(s[1..]) == []) && (t != [] ==> WordPart(t[0]))
    requires t != [] ==> |s| > 1 && t[|t| - 1] == s[|s| - 1]
    ensures FrameOf(s) == "_" + FrameOf(t)
  {
    hide WordPart, Framed, Words;
    GapHasNoWord(s);
    NoWords();
    FrameGap(Words(s), EndsOther(s));
  }

  lemma GapHasNoWord(s: string)
    requires s != [] && !WordPart(s[0])
    ensures Words(s) == Words(s[1..])
  {
  }

  lemma FrameGap(ws: seq<string>, after: bool)
    ensures Framed(true, ws, after) == "_" + Framed(false, ws, after)
    ensures ws == [] ==> Framed(false, ws, after) == Framed(false, ws, false)
  {
    hide Joined;
    assert "" + Joined(ws) == Joined(ws);
  }

  /** Collapsing a text leaves its words, framed. */
  lemma {:induction false} CollapseFrames(run: char -> bool, s: string)
    requires forall c :: run(c) <==> !WordPart(c)
    ensures Collapse(run, s) == FrameOf(s)
    decreases |s|
  {
    hide FrameOf, Words, WordPart;
    if s == [] {
      NothingFramed();
    } else if WordPart(s[0]) {
      CollapseRun(run, s);
      CollapseFrames(run, s[RunLength(s)..]);
      FramesWord(s);
    } else {
      var t := DropWhile(run, s[1..]);
      WordsAfterDrop(run, s[1..]);
      LastStays(run, s[1..]);
      CollapseFrames(run, t);
      FramesGap(s, t);
    }
  }

  lemma NothingFramed()
    ensures FrameOf("") == ""
  {
  }

  lemma {:induction false} RunIsWord(s: string)
    requires RunLength(s) == |s| > 0
    ensures WordPart(s[|s| - 1])
  {
    if |s| > 1 { RunIsWord(s[1..]); }
  }

  // ---- the label -----------------------------------------------------------------------------------

  predicate NoDoubles(s: string) { forall i :: 0 < i < |s| ==> !(s[i - 1] == '_' && s[i] == '_') }

  lemma {:induction false} CollapseAgain(run: char -> bool, s: string)
    requires forall c :: run(c) <==> c == '_'
    requires NoDoubles(s)
    ensures Collapse(run, s) == s
    decreases |s|
  {
    if s != [] {
      assert NoDoubles(s[1..]) by {
        forall i | 0 < i < |s[1..]| ensures !(s[1..][i - 1] == '_' && s[1..][i] == '_') {
          assert s[1..][i - 1] == s[i] && s[1..][i] == s[i + 1];
        }
      }
      CollapseAgain(run, s[1..]);
      if s[0] == '_' {
        assert s[1..] != [] ==> s[1] != '_';
        assert DropWhile(run, s[1..]) == s[1..];
      }
    }
  }

  lemma {:induction false} CollapsedHasNoDoubles(run: char -> bool, s: string)
    requires forall c :: run(c) <==> !WordPart(c)
    ensures NoDoubles(Collapse(run, s))
    ensures var t := Collapse(run, s); t != [] && t[0] == '_' ==> s != [] && !WordPart(s[0])
    decreases |s|
  {
    if s != [] {
      if WordPart(s[0]) {
        CollapsedHasNoDoubles(run, s[1..]);
      } else {
        CollapsedHasNoDoubles(run, DropWhile(run, s[1..]));
      }
    }
  }

  /** Words are letters and digits only, and none is empty. */
  lemma {:induction false} WordsAreWords(s: string)
    ensures forall w :: w in Words(s) ==> w != [] && forall c :: c in w ==> WordPart(c)
    decreases |s|
  {
    if s != [] {
      if WordPart(s[0]) {
        RunIsPart(s);
        WordsAreWords(s[RunLength(s)..]);
      } else {
        WordsAreWords(s[1..]);
      }
    }
  }

  lemma {:induction false} RunIsPart(s: string)
    ensures forall c :: c in s[..RunLength(s)] ==> WordPart(c)
  {
    if s != [] && WordPart(s[0]) {
      RunIsPart(s[1..]);
      assert s[..RunLength(s)] == [s[0]] + s[1..][..RunLength(s[1..])];
    }
  }

  lemma {:induction false} JoinedEnds(ws: seq<string>)
    requires ws != [] && forall w :: w in ws ==> w != [] && forall c :: c in w ==> WordPart(c)
    ensures Joined(ws) != [] && WordPart(Joined(ws)[0]) && WordPart(Joined(ws)[|Joined(ws)| - 1])
  {
    var w := ws[0];
    assert w in ws && forall x :: x in ws[1..] ==> x in ws;
    assert w[0] in w && w[|w| - 1] in w;
    if |ws| > 1 {
      JoinedEnds(ws[1..]);
      assert Joined(ws)[|Joined(ws)| - 1] == Joined(ws[1..])[|Joined(ws[1..])| - 1];
    }
  }

  lemma DropNone(drop: char -> bool, s: string)
    requires s != [] ==> !drop(s[0]) && !drop(s[|s| - 1])
    ensures DropWhile(drop, s) == s && DropLast(drop, s) == s
  {
  }

  lemma DropFirst(drop: char -> bool, c: char, s: string)
    requires drop(c) && (s != [] ==> !drop(s[0]))
    ensures DropWhile(drop, [c] + s) == s
  {
    assert ([c] + s)[1..] == s;
  }

  lemma DropEnd(drop: char -> bool, s: string, c: char)
    requires drop(c) && (s != [] ==> !drop(s[|s| - 1]))
    ensures DropLast(drop, s + [c]) == s
  {
    assert (s + [c])[..|s|] == s;
  }

  /** Stripping the underscores at the ends takes the frame away. */
  lemma StripFrame(before: bool, ws: seq<string>, after: bool)
    requires forall w :: w in ws ==> w != [] && forall c :: c in w ==> WordPart(c)
    ensures StripUnderscores(Framed(before, ws, after)) == Joined(ws)
  {
    hide DropWhile, DropLast, Joined;
    var drop := c => c == '_';
    NothingJoined();
    if ws != [] { JoinedEnds(ws); }
    var j := Joined(ws);
    hide WordPart;
    StripFramed(drop, before, j, after && ws != []);
    assert Framed(before, ws, after) == FramedText(before, j, after && ws != []);
  }

  function FramedText(before: bool, j: string, after: bool): string {
    (if before then "_" else "") + j + (if after then "_" else "")
  }

  lemma StripFramed(drop: char -> bool, before: bool, j: string, after: bool)
    requires forall c :: drop(c) <==> c == '_'
    requires j != [] ==> !drop(j[0]) && !drop(j[|j| - 1])
    requires after ==> j != []
    ensures DropLast(drop, DropWhile(drop, FramedText(before, j, after))) == j
    ensures StripUnderscores(FramedText(before, j, after)) == j
  {
    hide DropWhile, DropLast;
    var t := j + (if after then "_" else "");
    assert FramedText(before, j, after) == (if before then "_" else "") + t;
    if before { DropFirst(drop, '_', t); } else { DropNoneAhead(drop, t); assert "" + t == t; }
    if after { DropEnd(drop, j, '_'); } else { DropNone(drop, j); assert t == j; }
    SameDrop(drop, FramedText(before, j, after));
  }

  lemma DropNoneAhead(drop: char -> bool, s: string)
    requires s != [] ==> !drop(s[0])
    ensures DropWhile(drop, s) == s
  {
  }

  lemma {:induction false} DropsSame(a: char -> bool, b: char -> bool, s: string)
    requires forall c :: a(c) <==> b(c)
    ensures DropWhile(a, s) == DropWhile(b, s) && DropLast(a, s) == DropLast(b, s)
  {
    if s != [] {
      DropsSame(a, b, s[1..]);
      DropsSame(a, b, s[..|s| - 1]);
    }
  }

  lemma SameDrop(drop: char -> bool, s: string)
    requires forall c :: drop(c) <==> c == '_'
    ensures StripUnderscores(s) == DropLast(drop, DropWhile(drop, s))
  {
    hide DropWhile, DropLast;
    DropsSame(c => c == '_', drop, s);
    DropsSame(c => c == '_', drop, DropWhile(drop, s));
  }

  /**
   * Main result on labels: the words of the lower-cased parted name, joined by underscores;
   * `unnamed` if there are none, and behind an `x_` if they start with a digit.
   */
  lemma LabelIsWords(lower: string -> string, name: string)
    ensures Words(lower(Parted(name, |name|))) != [] ==> Joined(Words(lower(Parted(name, |name|)))) != ""
    ensures var ws := Words(lower(Parted(name, |name|)));
            ToLabel(lower, name)
            == if ws == [] then "unnamed"
               else if 48 <= Joined(ws)[0] as int <= 57 then "x_" + Joined(ws) else Joined(ws)
  {
    hide SplitCamel, Parted, Words, Collapse, StripUnderscores, Joined, WordPart, Framed;
    SplitCamelParts(name);
    var s := lower(SplitCamel(name));
    forall c ensures Plain(c) <==> WordPart(c) { PlainIsWordPart(c); }
    CollapsedHasNoDoubles(c => !Plain(c), s);
    CollapseAgain(c => c == '_', Collapse(c => !Plain(c), s));
    CollapseFrames(c => !Plain(c), s);
    WordsAreWords(s);
    StripFrame(StartsOther(s), Words(s), EndsOther(s));
    if Words(s) != [] { JoinedEnds(Words(s)); } else { NothingJoined(); }
  }

  lemma NothingJoined()
    ensures Joined([]) == ""
  {
  }

  lemma FrameWord(w: string, ws: seq<string>, more: bool, after: bool)
    requires more || (ws == [] && !after)
    ensures w + Framed(more, ws, after)
            == Framed(false, [w] + ws, if ws == [] then more else after)
  {
    var all := [w] + ws;
    assert all[1..] == ws;
  }

  // ---- numbering ---------------------------------------------------------------------------------

  function Decimal(n: nat): (s: string)
    ensures s != [] && forall i :: 0 <= i < |s| ==> DigitChar(s[i])
  {
    (if n < 10 then [] else Decimal(n / 10)) + ['0' + (n % 10) as char]
  }

  function NumberOf(s: string): nat
    requires forall i :: 0 <= i < |s| ==> DigitChar(s[i])
  {
    if s == [] then 0 else NumberOf(s[..|s| - 1]) * 10 + (assert DigitChar(s[|s| - 1]); (s[|s| - 1] - '0') as nat)
  }

  lemma {:induction false} NumberOfDecimal(n: nat)
    ensures NumberOf(Decimal(n)) == n
  {
    var front := if n < 10 then [] else Decimal(n / 10);
    assert Decimal(n)[..|Decimal(n)| - 1] == front;
    if n >= 10 { NumberOfDecimal(n / 10); }
  }

  /** The n-th label tried for a base: the base itself, then `base_2`, `base_3` and so on. */
  function Numbered(base: string, n: nat): string { if n == 1 then base else base + ("_" + Decimal(n)) }

  lemma NumberedDiffer(base: string, m: nat, n: nat)
    requires 1 <= m && 1 <= n && Numbered(base, m) == Numbered(base, n)
    ensures m == n
  {
    assert |Numbered(base, m)| == |base| <==> m == 1;
    assert |Numbered(base, n)| == |base| <==> n == 1;
    if m != 1 {
      assert Numbered(base, m)[|base| + 1..] == Decimal(m) && Numbered(base, n)[|base| + 1..] == Decimal(n);
      NumberOfDecimal(m);
      NumberOfDecimal(n);
    }
  }

  lemma NumberedIsLabel(base: string, n: nat)
    requires LabelOk(base) && n >= 1
    ensures LabelOk(Numbered(base, n)) && Numbered(base, n) != ""
  {
  }

  /**
   * The first label of a base that is free for a type. The search ends because only
   * finitely many are taken.
   */
  method FreeLabel(kind: string, base: string, used: set<(string, string)>) returns (name: string, ghost n: nat)
    ensures n >= 1 && name == Numbered(base, n) && (kind, name) !in used
    ensures forall m :: 1 <= m < n ==> (kind, Numbered(base, m)) in used
  {
    hide Decimal;
    name := base;
    var k := 1;
    ghost var tried: set<(string, string)> := {};
    while (kind, name) in used
      invariant k >= 1 && name == Numbered(base, k)
      invariant tried == (set m | 1 <= m < k :: (kind, Numbered(base, m)))
      invariant tried <= used
      decreases |used - tried|
    {
      forall m | 1 <= m < k ensures Numbered(base, m) != name {
        if Numbered(base, m) == name { NumberedDiffer(base, m, k); }
      }
      assert (kind, name) !in tried;
      Shrinks(used, tried, (kind, name));
      tried := tried + {(kind, name)};
      k := k + 1;
      name := Numbered(base, k);
    }
    n := k;
  }

  lemma Shrinks<T>(s: set<T>, t: set<T>, x: T)
    requires x in s && x !in t
    ensures |s - (t + {x})| < |s - t|
  {
    assert s - (t + {x}) == (s - t) - {x};
  }
}
