/**
 * A reader of JSON texts after the grammar of RFC 8259, which knows nothing of how the canonical
 * text is written, and the round trip: the canonical text is the JSON of its value.
 */
module JsonReader {
  import opened Strings
  import opened Json
  import opened JsonProofs

  // ---- the reader ------------------------------------------------------------------------------

  /** White space between tokens (section 2). */
  predicate Blank(c: char) { c == ' ' || c == '\t' || c == '\n' || c == '\r' }

  function Skip(s: string): (r: string)
    ensures |r| <= |s|
  {
    if s != [] && Blank(s[0]) then Skip(s[1..]) else s
  }

  function HexValue(c: char): Option<int> {
    if '0' <= c <= '9' then Some(c as int - '0' as int)
    else if 'a' <= c <= 'f' then Some(c as int - 'a' as int + 10)
    else if 'A' <= c <= 'F' then Some(c as int - 'A' as int + 10)
    else None
  }

  /** The character of a four-digit escape; a lone half of a surrogate pair is none. */
  function FourHex(a: char, b: char, c: char, d: char): Option<char> {
    var w, x, y, z := HexValue(a), HexValue(b), HexValue(c), HexValue(d);
    if w.None? || x.None? || y.None? || z.None? then None
    else
      var n := w.value * 4096 + x.value * 256 + y.value * 16 + z.value;
      if 0 <= n < 0xD800 || 0xE000 <= n < 0x10000 then Some(n as char) else None
  }

  /** An escape (section 7), from its backslash on. */
  function ReadEscape(s: string): (r: Option<(char, string)>)
    ensures r.Some? ==> |r.value.1| < |s|
  {
    if |s| < 2 then None
    else match s[1]
      case '\"' => Some(('\"', s[2..]))
      case '\\' => Some(('\\', s[2..]))
      case '/' => Some(('/', s[2..]))
      case 'b' => Some(('\U{08}', s[2..]))
      case 'f' => Some(('\U{0C}', s[2..]))
      case 'n' => Some(('\U{0A}', s[2..]))
      case 'r' => Some(('\U{0D}', s[2..]))
      case 't' => Some(('\U{09}', s[2..]))
      case 'u' =>
        if |s| < 6 then None
        else
          var c := FourHex(s[2], s[3], s[4], s[5]);
          if c.None? then None else Some((c.value, s[6..]))
      case _ => None
  }

  function Before(c: char, r: Option<(string, string)>): Option<(string, string)> {
    if r.None? then None else Some(([c] + r.value.0, r.value.1))
  }

  /** The characters of a string, from behind its opening quote to behind its closing one. */
  function ReadChars(s: string): (r: Option<(string, string)>)
    ensures r.Some? ==> |r.value.1| < |s|
    decreases |s|
  {
    if s == [] || s[0] < ' ' then None
    else if s[0] == '\"' then Some(("", s[1..]))
    else if s[0] == '\\' then
      var e := ReadEscape(s);
      if e.None? then None else Before(e.value.0, ReadChars(e.value.1))
    else Before(s[0], ReadChars(s[1..]))
  }

  /** How many characters from the front could belong to a number. */
  function NumberRun(s: string): (n: nat)
    ensures n <= |s|
  {
    if s != [] && NumChar(s[0]) then 1 + NumberRun(s[1..]) else 0
  }

  /** A value (section 3) at the front of a text, and what comes after it. A number is its text. */
  function ReadValue(s: string): (r: Option<(Json, string)>)
    ensures r.Some? ==> |r.value.1| < |s|
    decreases |s|, 2
  {
    var t := Skip(s);
    if t == [] then None
    else if t[0] == '\"' then
      var x := ReadChars(t[1..]);
      if x.None? then None else Some((Str(x.value.0), x.value.1))
    else if t[0] == '[' then ReadArray(t[1..])
    else if t[0] == '{' then ReadObject(t[1..])
    else if "null" <= t then Some((Null, t[4..]))
    else if "true" <= t then Some((Bool(true), t[4..]))
    else if "false" <= t then Some((Bool(false), t[5..]))
    else
      var n := NumberRun(t);
      if n > 0 && NumberText(t[..n]) then Some((Num(t[..n]), t[n..])) else None
  }

  /** An array (section 5), from behind its opening bracket. */
  function ReadArray(s: string): (r: Option<(Json, string)>)
    ensures r.Some? ==> |r.value.1| < |s|
    decreases |s|, 4
  {
    var t := Skip(s);
    if t != [] && t[0] == ']' then Some((Arr([]), t[1..]))
    else
      var xs := ReadItems(s);
      if xs.None? then None else Some((Arr(xs.value.0), xs.value.1))
  }

  function ReadItems(s: string): (r: Option<(seq<Json>, string)>)
    ensures r.Some? ==> |r.value.1| < |s|
    decreases |s|, 3
  {
    var x := ReadValue(s);
    if x.None? then None
    else
      var t := Skip(x.value.1);
      if t == [] then None
      else if t[0] == ']' then Some(([x.value.0], t[1..]))
      else if t[0] != ',' then None
      else
        var xs := ReadItems(t[1..]);
        if xs.None? then None else Some(([x.value.0] + xs.value.0, xs.value.1))
  }

  /** An object (section 4), from behind its opening brace. */
  function ReadObject(s: string): (r: Option<(Json, string)>)
    ensures r.Some? ==> |r.value.1| < |s|
    decreases |s|, 4
  {
    var t := Skip(s);
    if t != [] && t[0] == '}' then Some((Obj([]), t[1..]))
    else
      var ms := ReadMembers(s);
      if ms.None? then None else Some((Obj(ms.value.0), ms.value.1))
  }

  function ReadMember(s: string): (r: Option<(Member, string)>)
    ensures r.Some? ==> |r.value.1| < |s|
    decreases |s|, 2
  {
    var t := Skip(s);
    if t == [] || t[0] != '\"' then None
    else
      var key := ReadChars(t[1..]);
      if key.None? then None
      else
        var u := Skip(key.value.1);
        if u == [] || u[0] != ':' then None
        else
          var x := ReadValue(u[1..]);
          if x.None? then None else Some((Member(key.value.0, x.value.0), x.value.1))
  }

  function ReadMembers(s: string): (r: Option<(seq<Member>, string)>)
    ensures r.Some? ==> |r.value.1| < |s|
    decreases |s|, 3
  {
    var m := ReadMember(s);
    if m.None? then None
    else
      var t := Skip(m.value.1);
      if t == [] then None
      else if t[0] == '}' then Some(([m.value.0], t[1..]))
      else if t[0] != ',' then None
      else
        var ms := ReadMembers(t[1..]);
        if ms.None? then None else Some(([m.value.0] + ms.value.0, ms.value.1))
  }

  /** A text that is one value and nothing else. */
  function Parse(s: string): Option<Json> {
    var r := ReadValue(s);
    if r.Some? && Skip(r.value.1) == [] then Some(r.value.0) else None
  }

  // ---- what is read back -------------------------------------------------------------------------

  /** A value as its text has it: undefined is null, and members come by key. */
  function Normal(v: Json): Json
    decreases v
  {
    match v
    case Undefined => Null
    case Arr(items) => Arr(seq(|items|, i requires 0 <= i < |items| => Normal(items[i])))
    case Obj(ms) => Obj(NormalMembers(v, SortByKey(ms)))
    case _ => v
  }

  function NormalMembers(whole: Json, ms: seq<Member>): (r: seq<Member>)
    requires forall m :: m in ms ==> m.value < whole
    ensures |r| == |ms| && forall i :: 0 <= i < |ms| ==> r[i] == Member(ms[i].key, Normal(ms[i].value))
    decreases whole, |ms|
  {
    if ms == [] then [] else [Member(ms[0].key, Normal(ms[0].value))] + NormalMembers(whole, ms[1..])
  }

  /** No undefined, and the members of every object strictly by key. */
  predicate Ordered(v: Json) {
    match v
    case Undefined => false
    case Arr(items) => forall i :: 0 <= i < |items| ==> Ordered(items[i])
    case Obj(ms) => SortedByKey(ms) && forall i :: 0 <= i < |ms| ==> Ordered(ms[i].value)
    case _ => true
  }

  /** What is read back is the same content, in order. */
  lemma {:induction false} NormalIsSame(v: Json)
    requires Held(v)
    ensures Same(v, Normal(v)) && Ordered(Normal(v))
    decreases v
  {
    match v {
      case Arr(items) =>
        forall i | 0 <= i < |items| ensures Same(items[i], Normal(items[i])) && Ordered(Normal(items[i])) {
          NormalIsSame(items[i]);
        }
      case Obj(ms) =>
        var ns := SortByKey(ms);
        SortSorts(ms);
        forall i | 0 <= i < |ns| ensures Same(ns[i].value, Normal(ns[i].value)) && Ordered(Normal(ns[i].value)) {
          assert ns[i] in ns;
          assert ns[i] in ms;
          NormalIsSame(ns[i].value);
        }
        NormalMembersSame(v, ms);
      case _ =>
    }
  }

  lemma NormalMembersSame(v: Json, ms: seq<Member>)
    requires v == Obj(ms) && Held(v)
    requires forall i :: 0 <= i < |SortByKey(ms)| ==> Same(SortByKey(ms)[i].value, Normal(SortByKey(ms)[i].value))
    ensures Same(v, Normal(v))
  {
    hide Normal, SortByKey, Same;
    var ns := SortByKey(ms);
    var rs := NormalMembers(v, ns);
    SortKeepsKeys(ms);
    forall m | m in ns ensures m.key in Keys(rs) {
      var i :| 0 <= i < |ns| && ns[i] == m;
      assert rs[i] in rs;
    }
    forall r | r in rs ensures r.key in Keys(ns) {
      var i :| 0 <= i < |rs| && rs[i] == r;
      assert ns[i] in ns;
    }
    forall m, r | m in ms && r in rs && m.key == r.key ensures Same(m.value, r.value) {
      var j :| 0 <= j < |rs| && rs[j] == r;
      assert ns[j] in ns;
      assert ns[j] in ms;
      OneOfKey(ms, m, ns[j]);
    }
    AgreeIsSame(ms, rs);
    NormalOfObject(v);
  }

  lemma OneOfKey(ms: seq<Member>, m: Member, n: Member)
    requires DistinctKeys(ms) && m in ms && n in ms && m.key == n.key
    ensures m == n
  {
  }

  lemma AgreeIsSame(ms: seq<Member>, ns: seq<Member>)
    requires Agree(ms, ns)
    ensures Same(Obj(ms), Obj(ns))
  {
  }

  lemma NormalOfObject(v: Json)
    requires v.Obj?
    ensures Normal(v) == Obj(NormalMembers(v, SortByKey(v.members)))
  {
  }

  // ---- the round trip ------------------------------------------------------------------------------

  lemma ReadsEscape(c: char, rest: string)
    ensures ReadChars(EscapeChar(c) + rest) == Before(c, ReadChars(rest))
  {
    hide ReadChars;
    var s := EscapeChar(c) + rest;
    ReadCharsStep(s);
    if Mnemonic(c).Some? {
      assert s[0] == '\\' && s[2..] == rest;
    } else if c < ' ' {
      assert s[0] == '\\' && s[1] == 'u' && s[6..] == rest;
      assert s[2] == '0' && s[3] == '0' && s[4] == HexDigit(c as int / 16) && s[5] == HexDigit(c as int % 16);
      HexReads(c);
    } else {
      assert s[0] == c && s[1..] == rest;
    }
  }

  /** `e` stands for the one character `c` inside a string. */
  predicate StandsFor(e: string, c: char) { ReadChars(e + "\"") == Some(([c], "")) }

  /** What stands for a character starts as it reads: with the character, or with an escape of it. */
  lemma StandsShape(e: string, c: char)
    requires StandsFor(e, c)
    ensures |e| >= 1
    ensures e[0] != '\\' ==> e[0] == c && c >= ' ' && c != '\"'
    ensures e[0] == '\\' ==> ReadEscape(e + "\"").Some? && ReadEscape(e + "\"").value.0 == c
  {
    hide ReadEscape;
    var s := e + "\"";
    ReadCharsEnds(s);
    assert e == [] ==> s == "\"";
    if s[0] != '\"' && s[0] >= ' ' { FirstRead(s, c); }
  }

  lemma ReadCharsEnds(s: string)
    ensures s != [] && s[0] == '\"' ==> ReadChars(s) == Some(("", s[1..]))
    ensures s != [] && s[0] < ' ' ==> ReadChars(s) == None
  {
  }

  lemma FirstRead(s: string, c: char)
    requires ReadChars(s) == Some(([c], "")) && s != [] && s[0] != '\"' && s[0] >= ' '
    ensures s[0] != '\\' ==> s[0] == c
    ensures s[0] == '\\' ==> ReadEscape(s).Some? && ReadEscape(s).value.0 == c
  {
    hide ReadEscape;
    ReadCharsStep(s);
    if s[0] == '\\' {
      var e := ReadEscape(s);
      if e.Some? {
        var r := ReadChars(e.value.1);
        assert Before(e.value.0, r) == Some(([c], ""));
        assert ([e.value.0] + r.value.0)[0] == e.value.0;
      }
    } else {
      var r := ReadChars(s[1..]);
      assert Before(s[0], r) == Some(([c], ""));
      assert ([s[0]] + r.value.0)[0] == s[0];
    }
  }

  /** Of everything that stands for a character, the canonical text has the shortest; its digits are lower case. */
  lemma EscapeIsShortest(c: char, e: string)
    ensures StandsFor(EscapeChar(c), c)
    ensures StandsFor(e, c) ==> |EscapeChar(c)| <= |e|
    ensures forall d :: d in EscapeChar(c) && c < ' ' ==> !('A' <= d <= 'Z')
  {
    ReadsEscape(c, "\"");
    ReadCharsEnds("\"");
    assert "\""[1..] == "" && [c] + "" == [c];
    if StandsFor(e, c) {
      StandsShape(e, c);
      if e[0] == '\\' && |e| < 6 { ShortEscape(e + "\"", c); }
    }
  }

  /** A short escape is one of the eight letters. */
  lemma ShortEscape(s: string, c: char)
    requires 2 <= |s| <= 6 && s[|s| - 1] == '\"' && ReadEscape(s).Some? && ReadEscape(s).value.0 == c
    ensures |EscapeChar(c)| <= 2
  {
    QuoteIsNoHex();
  }

  lemma QuoteIsNoHex()
    ensures HexValue('\"').None?
  {
  }

  lemma HexReads(c: char)
    requires c < ' '
    ensures FourHex('0', '0', HexDigit(c as int / 16), HexDigit(c as int % 16)) == Some(c)
  {
  }

  lemma ReadCharsStep(s: string)
    requires s != [] && s[0] != '\"' && s[0] >= ' '
    ensures s[0] == '\\' ==>
              ReadChars(s) == var e := ReadEscape(s);
                              if e.None? then None else Before(e.value.0, ReadChars(e.value.1))
    ensures s[0] != '\\' ==> ReadChars(s) == Before(s[0], ReadChars(s[1..]))
  {
    hide ReadEscape;
  }

  lemma {:induction false} ReadsChars(a: string, r: string)
    ensures ReadChars(Escape(a) + ("\"" + r)) == Some((a, r))
  {
    hide EscapeChar;
    if a == [] {
      assert Escape(a) + ("\"" + r) == "\"" + r && ("\"" + r)[1..] == r;
    } else {
      var rest := Escape(a[1..]) + ("\"" + r);
      assert Escape(a) + ("\"" + r) == EscapeChar(a[0]) + rest;
      ReadsEscape(a[0], rest);
      ReadsChars(a[1..], r);
      assert [a[0]] + a[1..] == a;
    }
  }

  lemma {:induction false} NumberRunIs(t: string, r: string)
    requires (forall i :: 0 <= i < |t| ==> NumChar(t[i])) && EndsNumber(r)
    ensures NumberRun(t + r) == |t|
  {
    if t == [] {
      assert t + r == r;
    } else {
      assert (t + r)[1..] == t[1..] + r;
      NumberRunIs(t[1..], r);
    }
  }

  lemma ReadsNumber(t: string, r: string)
    requires NumberText(t) && EndsNumber(r)
    ensures ReadValue(t + r) == Some((Num(t), r))
  {
    hide ReadArray, ReadObject, ReadChars;
    NumberRunIs(t, r);
    assert (t + r)[..|t|] == t && (t + r)[|t|..] == r && (t + r)[0] == t[0];
  }

  lemma SkipsNothing(s: string)
    requires s == [] || !Blank(s[0])
    ensures Skip(s) == s
  {
  }

  lemma {:induction false} ReadsBack(v: Json, r: string)
    requires Held(v) && EndsNumber(r)
    ensures ReadValue(Canonical(v) + r) == Some((Normal(v), r))
    decreases v
  {
    hide Escape, Items, Members, SortByKey, ReadChars, ReadArray, ReadObject, Normal;
    TextShape(v, r);
    NormalCases(v);
    match v {
      case Num(t) => ReadsNumber(t, r);
      case Str(x) =>
        assert ("\"" + (Escape(x) + ("\"" + r)))[1..] == Escape(x) + ("\"" + r);
        ReadsChars(x, r);
      case Arr(xs) =>
        assert ("[" + (Items(v, xs) + ("]" + r)))[1..] == Items(v, xs) + ("]" + r);
        ReadsArray(v, xs, r);
        assert Normal(v).items == NormalItems(xs);
      case Obj(ms) =>
        var ns := SortByKey(ms);
        assert ("{" + (Members(v, ns) + ("}" + r)))[1..] == Members(v, ns) + ("}" + r);
        SortedMembersAreHeld(v);
        ReadsObject(v, ns, r);
      case _ =>
        assert (Canonical(v) + r)[|Canonical(v)|..] == r;
    }
  }

  lemma NormalCases(v: Json)
    ensures v.Undefined? ==> Normal(v) == Null
    ensures v.Obj? ==> Normal(v) == Obj(NormalMembers(v, SortByKey(v.members)))
    ensures v.Arr? ==>
              Normal(v).Arr? && |Normal(v).items| == |v.items|
              && forall i :: 0 <= i < |v.items| ==> Normal(v).items[i] == Normal(v.items[i])
    ensures !v.Undefined? && !v.Obj? && !v.Arr? ==> Normal(v) == v
  {
  }

  function NormalItems(xs: seq<Json>): seq<Json> { seq(|xs|, i requires 0 <= i < |xs| => Normal(xs[i])) }

  lemma {:induction false} ReadsArray(whole: Json, xs: seq<Json>, r: string)
    requires forall i :: 0 <= i < |xs| ==> xs[i] < whole && Held(xs[i])
    ensures ReadArray(Items(whole, xs) + ("]" + r)) == Some((Arr(NormalItems(xs)), r))
    decreases whole, |xs| + 1
  {
    hide Canonical, Items, Held, Normal, ReadItems;
    ItemsShape(whole, xs, r);
    var s := Items(whole, xs) + ("]" + r);
    if xs == [] {
      assert s == "]" + r && s[0] == ']' && s[1..] == r;
      SkipsNothing(s);
      assert NormalItems(xs) == [];
    } else {
      FirstOfItems(whole, xs, r);
      ReadsItems(whole, xs, r);
    }
  }

  lemma FirstOfItems(whole: Json, xs: seq<Json>, r: string)
    requires xs != [] && forall i :: 0 <= i < |xs| ==> xs[i] < whole && Held(xs[i])
    ensures var s := Items(whole, xs) + ("]" + r); s != [] && !Blank(s[0]) && s[0] != ']'
  {
    TextStarts(xs[0]);
  }

  lemma {:induction false} ReadsItems(whole: Json, xs: seq<Json>, r: string)
    requires xs != [] && forall i :: 0 <= i < |xs| ==> xs[i] < whole && Held(xs[i])
    ensures ReadItems(Items(whole, xs) + ("]" + r)) == Some((NormalItems(xs), r))
    decreases whole, |xs|
  {
    hide Canonical, Items, MoreItems, Held, Normal, ReadValue, EndsNumber;
    var rest := xs[1..];
    ItemsShape(whole, xs, r);
    MoreItemsShape(whole, rest, r);
    var after := MoreItems(whole, rest) + ("]" + r);
    ReadsBack(xs[0], after);
    assert NormalItems(xs) == [Normal(xs[0])] + NormalItems(rest);
    if rest == [] {
      assert after[1..] == r;
      assert NormalItems(xs) == [Normal(xs[0])];
    } else {
      assert after[1..] == Items(whole, rest) + ("]" + r);
      ReadsItems(whole, rest, r);
    }
  }

  lemma {:induction false} ReadsObject(whole: Json, ms: seq<Member>, r: string)
    requires forall m :: m in ms ==> m.value < whole && Held(m.value)
    ensures ReadObject(Members(whole, ms) + ("}" + r)) == Some((Obj(NormalMembers(whole, ms)), r))
    decreases whole, |ms| + 1
  {
    hide Canonical, Members, Held, Normal, ReadMembers, Escape;
    MembersShape(whole, ms, r);
    var s := Members(whole, ms) + ("}" + r);
    if ms == [] {
      assert s == "}" + r && s[0] == '}' && s[1..] == r;
      SkipsNothing(s);
    } else {
      ReadsMembers(whole, ms, r);
    }
  }

  lemma {:induction false} ReadsMembers(whole: Json, ms: seq<Member>, r: string)
    requires ms != [] && forall m :: m in ms ==> m.value < whole && Held(m.value)
    ensures ReadMembers(Members(whole, ms) + ("}" + r)) == Some((NormalMembers(whole, ms), r))
    decreases whole, |ms|
  {
    hide Canonical, Members, MoreMembers, Held, Normal, ReadMember, EndsNumber, Escape;
    var rest := ms[1..];
    MembersShape(whole, ms, r);
    MoreMembersShape(whole, rest, r);
    var after := MoreMembers(whole, rest) + ("}" + r);
    var x := Canonical(ms[0].value) + after;
    ReadsBack(ms[0].value, after);
    ReadsMember(ms[0].key, ms[0].value, after);
    if rest == [] {
      assert after[1..] == r;
      assert NormalMembers(whole, ms) == [Member(ms[0].key, Normal(ms[0].value))];
    } else {
      assert after[1..] == Members(whole, rest) + ("}" + r);
      ReadsMembers(whole, rest, r);
    }
  }

  lemma ReadsMember(key: string, value: Json, after: string)
    requires ReadValue(Canonical(value) + after) == Some((Normal(value), after))
    ensures ReadMember("\"" + (Escape(key) + ("\"" + (":" + (Canonical(value) + after)))))
            == Some((Member(key, Normal(value)), after))
  {
    hide Canonical, Normal, ReadValue, Escape, ReadChars;
    var x := Canonical(value) + after;
    var s := "\"" + (Escape(key) + ("\"" + (":" + x)));
    assert s[1..] == Escape(key) + ("\"" + (":" + x));
    ReadsChars(key, ":" + x);
    assert (":" + x)[1..] == x;
  }

  /**
   * Main result: the canonical text is the JSON of its value. In front of anything that cannot
   * prolong a number, it reads back as that value, undefined as null and members by key, and
   * the rest is left.
   */
  lemma CanonicalIsJson(v: Json, r: string)
    requires Held(v) && EndsNumber(r)
    ensures ReadValue(Canonical(v) + r) == Some((Normal(v), r))
    ensures Parse(Canonical(v)) == Some(Normal(v))
    ensures Same(v, Normal(v)) && Ordered(Normal(v))
  {
    hide ReadValue, Normal, Canonical;
    ReadsBack(v, r);
    ReadsBack(v, "");
    assert Canonical(v) + "" == Canonical(v);
    NormalIsSame(v);
  }
}
