/** The canonical text determines a JSON value exactly up to member order. */
module JsonProofs {
  import opened Strings
  import opened Json

  /** What may follow a value inside a larger text: anything that cannot prolong a number. */
  predicate EndsNumber(rest: string) { rest == [] || !NumChar(rest[0]) }

  // ---- strings -----------------------------------------------------------------------

  lemma EscapeCharShape(c: char)
    ensures EscapeChar(c) != [] && EscapeChar(c)[0] != '\"'
  {
  }

  lemma MnemonicUnique(c: char, d: char)
    requires Mnemonic(c).Some? && Mnemonic(c) == Mnemonic(d)
    ensures c == d && Mnemonic(c) != Some('u')
  {
  }

  lemma HexUnique(c: char, d: char)
    requires c < ' ' && d < ' '
    requires HexDigit(c as int / 16) == HexDigit(d as int / 16)
    requires HexDigit(c as int % 16) == HexDigit(d as int % 16)
    ensures c == d
  {
  }

  lemma EscapeCharUnique(c: char, d: char, r: string, s: string)
    requires EscapeChar(c) + r == EscapeChar(d) + s
    ensures c == d && r == s
  {
    hide Mnemonic, HexDigit;
    var x, y := EscapeChar(c), EscapeChar(d);
    assert |x| >= 1 && |y| >= 1 && (x + r)[0] == x[0] && (y + s)[0] == y[0];
    PlainIsNotBackslash(c);
    PlainIsNotBackslash(d);
    if |x| > 1 && |y| > 1 {
      assert (x + r)[1] == x[1] && (y + s)[1] == y[1];
      if Mnemonic(c).Some? {
        MnemonicUnique(c, c);
        MnemonicUnique(c, d);
      } else {
        if Mnemonic(d).Some? { MnemonicUnique(d, d); }
        assert (x + r)[4] == x[4] && (y + s)[4] == y[4];
        assert (x + r)[5] == x[5] && (y + s)[5] == y[5];
        HexUnique(c, d);
      }
    }
    Cancel(x, y, r, s);
  }

  lemma PlainIsNotBackslash(c: char)
    ensures c == '\\' ==> Mnemonic(c).Some?
  {
  }

  /** Cancelling two prefixes of equal length. */
  lemma Cancel(x: string, y: string, r: string, s: string)
    requires x + r == y + s && |x| == |y|
    ensures x == y && r == s
  {
    assert x == (x + r)[..|x|] && y == (y + s)[..|y|];
    assert r == (x + r)[|x|..] && s == (y + s)[|y|..];
  }

  lemma Associate(x: string, y: string, z: string)
    ensures (x + y) + z == x + (y + z)
  {
  }

  lemma {:induction false} QuoteUnique(a: string, b: string, r: string, s: string)
    requires Escape(a) + ("\"" + r) == Escape(b) + ("\"" + s)
    ensures a == b && r == s
  {
    hide EscapeChar;
    var left, right := Escape(a) + ("\"" + r), Escape(b) + ("\"" + s);
    if a != [] {
      EscapeCharShape(a[0]);
      assert left == EscapeChar(a[0]) + (Escape(a[1..]) + ("\"" + r));
    }
    if b != [] {
      EscapeCharShape(b[0]);
      assert right == EscapeChar(b[0]) + (Escape(b[1..]) + ("\"" + s));
    }
    assert a == [] ==> left == "\"" + r;
    assert b == [] ==> right == "\"" + s;
    if a == [] || b == [] {
      assert left[0] == right[0] == '\"';
      assert a == b;
      Cancel("\"", "\"", r, s);
    } else {
      EscapeCharUnique(a[0], b[0], Escape(a[1..]) + ("\"" + r), Escape(b[1..]) + ("\"" + s));
      QuoteUnique(a[1..], b[1..], r, s);
      assert a == [a[0]] + a[1..] && b == [b[0]] + b[1..];
    }
  }

  lemma ShorterNumberStops(t: string, u: string, r: string, s: string)
    requires NumberText(u) && EndsNumber(r) && t + r == u + s
    ensures |t| >= |u|
  {
    assert (t + r)[|t|..] == r;
  }

  lemma NumberUnique(t: string, u: string, r: string, s: string)
    requires NumberText(t) && NumberText(u) && EndsNumber(r) && EndsNumber(s)
    requires t + r == u + s
    ensures t == u && r == s
  {
    ShorterNumberStops(t, u, r, s);
    ShorterNumberStops(u, t, s, r);
    Cancel(t, u, r, s);
  }

  // ---- values ------------------------------------------------------------------------

  /** The first character of a value's text tells which constructor it came from. */
  function FirstChar(v: Json): char
    requires Held(v)
  {
    match v
    case Undefined => 'n'
    case Null => 'n'
    case Bool(b) => if b then 't' else 'f'
    case Num(t) => t[0]
    case Str(_) => '\"'
    case Arr(_) => '['
    case Obj(_) => '{'
  }

  lemma TextStarts(v: Json)
    requires Held(v)
    ensures Canonical(v) != [] && Canonical(v)[0] == FirstChar(v)
    ensures FirstChar(v) != ']' && FirstChar(v) != '}' && FirstChar(v) != ','
  {
  }

  lemma TextShape(v: Json, r: string)
    requires Held(v)
    ensures v.Str? ==> Canonical(v) + r == "\"" + (Escape(v.s) + ("\"" + r))
    ensures v.Arr? ==> Canonical(v) + r == "[" + (Items(v, v.items) + ("]" + r))
    ensures v.Obj? ==> Canonical(v) + r == "{" + (Members(v, SortByKey(v.members)) + ("}" + r))
    ensures (Canonical(v) + r)[0] == FirstChar(v)
  {
    hide Escape, Items, Members, SortByKey;
    TextStarts(v);
    match v {
      case Str(x) => Wrapped("\"", Escape(x), "\"", r);
      case Arr(xs) => Wrapped("[", Items(v, xs), "]", r);
      case Obj(ms) => Wrapped("{", Members(v, SortByKey(ms)), "}", r);
      case _ =>
    }
  }

  lemma Wrapped(open: string, body: string, close: string, r: string)
    ensures (open + (body + close)) + r == open + (body + (close + r))
  {
    Associate(open, body + close, r);
    Associate(body, close, r);
  }

  lemma {:induction false} TextUnique(a: Json, b: Json, r: string, s: string)
    requires Held(a) && Held(b) && EndsNumber(r) && EndsNumber(s)
    requires Canonical(a) + r == Canonical(b) + s
    ensures Same(a, b) && r == s
    decreases a
  {
    hide Escape, Items, Members, SortByKey;
    TextShape(a, r);
    TextShape(b, s);
    match a {
      case Num(t) =>
        NumberUnique(t, b.text, r, s);
      case Str(x) =>
        Cancel("\"", "\"", Escape(x) + ("\"" + r), Escape(b.s) + ("\"" + s));
        QuoteUnique(x, b.s, r, s);
      case Arr(xs) =>
        Cancel("[", "[", Items(a, xs) + ("]" + r), Items(b, b.items) + ("]" + s));
        ItemsUnique(a, xs, b, b.items, r, s);
      case Obj(ms) =>
        var ms', ns' := SortByKey(ms), SortByKey(b.members);
        Cancel("{", "{", Members(a, ms') + ("}" + r), Members(b, ns') + ("}" + s));
        SortedMembersAreHeld(a);
        SortedMembersAreHeld(b);
        MembersUnique(a, ms', b, ns', r, s);
        SortSorts(b.members);
        AlignedIsAgree(ms', ns');
        AgreeIffSame(ms, b.members);
      case _ =>
        Cancel(Canonical(a), Canonical(b), r, s);
    }
  }

  lemma SortedMembersAreHeld(v: Json)
    requires v.Obj? && Held(v)
    ensures forall m :: m in SortByKey(v.members) ==> Held(m.value)
  {
    forall m | m in SortByKey(v.members) ensures Held(m.value) {
      assert m in v.members;
    }
  }

  /** How a list of items and its closing bracket read, seen from the front. */
  lemma ItemsShape(whole: Json, xs: seq<Json>, r: string)
    requires forall i :: 0 <= i < |xs| ==> xs[i] < whole && Held(xs[i])
    ensures xs == [] ==> Items(whole, xs) + ("]" + r) == "]" + r
    ensures xs != [] ==> Items(whole, xs) + ("]" + r)
                         == Canonical(xs[0]) + (MoreItems(whole, xs[1..]) + ("]" + r))
    ensures xs != [] ==> (Items(whole, xs) + ("]" + r))[0] != ']'
  {
    hide Canonical, Held, MoreItems;
    if xs != [] {
      TextStarts(xs[0]);
      Associate(Canonical(xs[0]), MoreItems(whole, xs[1..]), "]" + r);
    }
  }

  lemma MoreItemsShape(whole: Json, xs: seq<Json>, r: string)
    requires forall i :: 0 <= i < |xs| ==> xs[i] < whole && Held(xs[i])
    ensures xs == [] ==> MoreItems(whole, xs) + ("]" + r) == "]" + r
    ensures xs != [] ==> MoreItems(whole, xs) + ("]" + r) == "," + (Items(whole, xs) + ("]" + r))
    ensures EndsNumber(MoreItems(whole, xs) + ("]" + r))
  {
    hide Held, Items;
    if xs != [] { Associate(",", Items(whole, xs), "]" + r); }
  }

  lemma {:induction false} ItemsUnique(a: Json, xs: seq<Json>, b: Json, ys: seq<Json>, r: string, s: string)
    requires forall i :: 0 <= i < |xs| ==> xs[i] < a && Held(xs[i])
    requires forall i :: 0 <= i < |ys| ==> ys[i] < b && Held(ys[i])
    requires Items(a, xs) + ("]" + r) == Items(b, ys) + ("]" + s)
    ensures r == s && |xs| == |ys| && forall i :: 0 <= i < |xs| ==> Same(xs[i], ys[i])
    decreases a, |xs|
  {
    hide Canonical, Items, MoreItems, Held, Same, EndsNumber;
    ItemsShape(a, xs, r);
    ItemsShape(b, ys, s);
    if xs == [] || ys == [] {
      assert xs == ys == [];
      Cancel("]", "]", r, s);
    } else {
      var xs', ys' := xs[1..], ys[1..];
      MoreItemsShape(a, xs', r);
      MoreItemsShape(b, ys', s);
      var r', s' := MoreItems(a, xs') + ("]" + r), MoreItems(b, ys') + ("]" + s);
      TextUnique(xs[0], ys[0], r', s');
      if xs' == [] || ys' == [] {
        assert r'[0] == s'[0];
        assert xs' == ys' == [];
        Cancel("]", "]", r, s);
      } else {
        Cancel(",", ",", Items(a, xs') + ("]" + r), Items(b, ys') + ("]" + s));
        ItemsUnique(a, xs', b, ys', r, s);
        forall i | 0 <= i < |xs| ensures Same(xs[i], ys[i]) {
          if i > 0 { assert xs[i] == xs'[i - 1] && ys[i] == ys'[i - 1]; }
        }
      }
    }
  }

  /** Same keys in the same places, with the same content under each. */
  predicate Aligned(ms: seq<Member>, ns: seq<Member>) {
    |ms| == |ns| && forall i :: 0 <= i < |ms| ==> ms[i].key == ns[i].key && Same(ms[i].value, ns[i].value)
  }

  /** How a list of members and its closing brace read, seen from the front. */
  lemma MembersShape(whole: Json, ms: seq<Member>, r: string)
    requires forall m :: m in ms ==> m.value < whole && Held(m.value)
    ensures ms == [] ==> Members(whole, ms) + ("}" + r) == "}" + r
    ensures ms != [] ==> Members(whole, ms) + ("}" + r)
                         == "\"" + (Escape(ms[0].key) + ("\"" + (":" +
                              (Canonical(ms[0].value) + (MoreMembers(whole, ms[1..]) + ("}" + r))))))
  {
    hide Canonical, Held, Escape, MoreMembers;
    if ms != [] {
      var key, text, after := Escape(ms[0].key), Canonical(ms[0].value), MoreMembers(whole, ms[1..]);
      Associate(Quote(ms[0].key), ":" + (text + after), "}" + r);
      Associate(":", text + after, "}" + r);
      Associate(text, after, "}" + r);
      Wrapped("\"", key, "\"", ":" + (text + (after + ("}" + r))));
    }
  }

  lemma MoreMembersShape(whole: Json, ms: seq<Member>, r: string)
    requires forall m :: m in ms ==> m.value < whole && Held(m.value)
    ensures ms == [] ==> MoreMembers(whole, ms) + ("}" + r) == "}" + r
    ensures ms != [] ==> MoreMembers(whole, ms) + ("}" + r) == "," + (Members(whole, ms) + ("}" + r))
    ensures EndsNumber(MoreMembers(whole, ms) + ("}" + r))
  {
    hide Held, Members;
    if ms != [] { Associate(",", Members(whole, ms), "}" + r); }
  }

  lemma {:induction false} MembersUnique(a: Json, ms: seq<Member>, b: Json, ns: seq<Member>, r: string, s: string)
    requires forall m :: m in ms ==> m.value < a && Held(m.value)
    requires forall n :: n in ns ==> n.value < b && Held(n.value)
    requires Members(a, ms) + ("}" + r) == Members(b, ns) + ("}" + s)
    ensures r == s && Aligned(ms, ns)
    decreases a, |ms|
  {
    hide Canonical, Members, MoreMembers, Held, Same, Escape, EndsNumber;
    MembersShape(a, ms, r);
    MembersShape(b, ns, s);
    assert ms == [] ==> (Members(a, ms) + ("}" + r))[0] == '}';
    assert ns == [] ==> (Members(b, ns) + ("}" + s))[0] == '}';
    if ms == [] || ns == [] {
      assert ms == ns == [];
      Cancel("}", "}", r, s);
    } else {
      var ms', ns' := ms[1..], ns[1..];
      MoreMembersShape(a, ms', r);
      MoreMembersShape(b, ns', s);
      var r', s' := MoreMembers(a, ms') + ("}" + r), MoreMembers(b, ns') + ("}" + s);
      var x, y := Canonical(ms[0].value) + r', Canonical(ns[0].value) + s';
      Cancel("\"", "\"", Escape(ms[0].key) + ("\"" + (":" + x)), Escape(ns[0].key) + ("\"" + (":" + y)));
      QuoteUnique(ms[0].key, ns[0].key, ":" + x, ":" + y);
      Cancel(":", ":", x, y);
      TextUnique(ms[0].value, ns[0].value, r', s');
      if ms' == [] || ns' == [] {
        assert r'[0] == s'[0];
        assert ms' == ns' == [];
        Cancel("}", "}", r, s);
      } else {
        Cancel(",", ",", Members(a, ms') + ("}" + r), Members(b, ns') + ("}" + s));
        MembersUnique(a, ms', b, ns', r, s);
        forall i | 0 <= i < |ms| ensures ms[i].key == ns[i].key && Same(ms[i].value, ns[i].value) {
          if i > 0 { assert ms[i] == ms'[i - 1] && ns[i] == ns'[i - 1]; }
        }
      }
    }
  }

  // ---- sameness of objects, seen through the sort --------------------------------------

  lemma SortKeepsKeys(ms: seq<Member>)
    ensures Keys(SortByKey(ms)) == Keys(ms)
  {
    hide SortByKey;
    forall m | m in ms ensures m.key in Keys(SortByKey(ms)) { assert m in SortByKey(ms); }
    forall m | m in SortByKey(ms) ensures m.key in Keys(ms) { assert m in ms; }
  }

  /** Two member lists agree: the same keys, and the same content wherever keys meet. */
  predicate Agree(ms: seq<Member>, ns: seq<Member>) {
    && Keys(ms) == Keys(ns)
    && forall m, n :: m in ms && n in ns && m.key == n.key ==> Same(m.value, n.value)
  }

  lemma AgreeIffSame(ms: seq<Member>, ns: seq<Member>)
    ensures Agree(SortByKey(ms), SortByKey(ns)) <==> Same(Obj(ms), Obj(ns))
  {
    hide SortByKey;
    SortKeepsKeys(ms);
    SortKeepsKeys(ns);
    var ms', ns' := SortByKey(ms), SortByKey(ns);
    if Agree(ms', ns') {
      forall i, j | 0 <= i < |ms| && 0 <= j < |ns| && ms[i].key == ns[j].key
        ensures Same(ms[i].value, ns[j].value)
      {
        assert ms[i] in ms' && ns[j] in ns';
      }
    }
    if Same(Obj(ms), Obj(ns)) {
      forall m, n | m in ms' && n in ns' && m.key == n.key ensures Same(m.value, n.value) {
        var i :| 0 <= i < |ms| && ms[i] == m;
        var j :| 0 <= j < |ns| && ns[j] == n;
      }
    }
  }

  lemma KeyIsHeld(ms: seq<Member>, key: string) returns (m: Member)
    requires key in Keys(ms)
    ensures m in ms && m.key == key
  {
    m :| m in ms && m.key == key;
  }

  lemma SortedFirstIsLeast(ms: seq<Member>, m: Member)
    requires SortedByKey(ms) && m in ms
    ensures m == ms[0] || (Less(ms[0].key, m.key) && m in ms[1..])
  {
    var i :| 0 <= i < |ms| && ms[i] == m;
    if i > 0 { assert m == ms[1..][i - 1]; }
  }

  lemma TailIsSorted(ms: seq<Member>)
    requires SortedByKey(ms) && ms != []
    ensures SortedByKey(ms[1..]) && forall m :: m in ms[1..] ==> m in ms && Less(ms[0].key, m.key)
  {
    hide Less;
  }

  lemma FirstKeysAgree(ms: seq<Member>, ns: seq<Member>)
    requires SortedByKey(ms) && SortedByKey(ns) && Keys(ms) == Keys(ns) && ms != [] && ns != []
    ensures ms[0].key == ns[0].key
  {
    hide Less;
    assert ms[0] in ms && ns[0] in ns;
    var n := KeyIsHeld(ns, ms[0].key);
    var m := KeyIsHeld(ms, ns[0].key);
    SortedFirstIsLeast(ns, n);
    SortedFirstIsLeast(ms, m);
    if n != ns[0] { LessAsymmetric(ns[0].key, n.key); }
  }

  lemma TailKeys(ms: seq<Member>)
    requires SortedByKey(ms) && ms != []
    ensures Keys(ms[1..]) == Keys(ms) - {ms[0].key}
  {
    hide Less;
    TailIsSorted(ms);
    forall m | m in ms[1..] ensures m.key != ms[0].key { LessAsymmetric(ms[0].key, m.key); }
    forall m | m in ms && m.key != ms[0].key ensures m in ms[1..] { SortedFirstIsLeast(ms, m); }
  }

  lemma {:induction false} AgreeIsAligned(ms: seq<Member>, ns: seq<Member>)
    requires SortedByKey(ms) && SortedByKey(ns) && Agree(ms, ns)
    ensures Aligned(ms, ns)
  {
    hide Less, Same;
    assert ms != [] ==> ms[0].key in Keys(ms);
    assert ns != [] ==> ns[0].key in Keys(ns);
    if ms != [] {
      FirstKeysAgree(ms, ns);
      TailKeys(ms);
      TailKeys(ns);
      TailIsSorted(ms);
      TailIsSorted(ns);
      AgreeIsAligned(ms[1..], ns[1..]);
      forall k | 0 <= k < |ms| ensures ms[k].key == ns[k].key && Same(ms[k].value, ns[k].value) {
        if k > 0 { assert ms[k] == ms[1..][k - 1] && ns[k] == ns[1..][k - 1]; }
      }
    }
  }

  lemma {:induction false} AlignedIsAgree(ms: seq<Member>, ns: seq<Member>)
    requires Aligned(ms, ns) && DistinctKeys(ns)
    ensures Agree(ms, ns)
  {
    hide Same;
    forall m | m in ms ensures m.key in Keys(ns) {
      var i :| 0 <= i < |ms| && ms[i] == m;
      assert ns[i] in ns;
    }
    forall n | n in ns ensures n.key in Keys(ms) {
      var i :| 0 <= i < |ns| && ns[i] == n;
      assert ms[i] in ms;
    }
    forall m, n | m in ms && n in ns && m.key == n.key ensures Same(m.value, n.value) {
      var i :| 0 <= i < |ms| && ms[i] == m;
      var j :| 0 <= j < |ns| && ns[j] == n;
      assert i == j;
    }
  }

  // ---- the same content has one text ---------------------------------------------------

  lemma {:induction false} SameText(a: Json, b: Json)
    requires Held(a) && Held(b) && Same(a, b)
    ensures Canonical(a) == Canonical(b)
    decreases a
  {
    match a {
      case Arr(xs) =>
        forall i | 0 <= i < |xs| ensures Canonical(xs[i]) == Canonical(b.items[i]) { SameText(xs[i], b.items[i]); }
        SameItemsText(a, xs, b, b.items);
      case Obj(ms) =>
        var ms', ns' := SortByKey(ms), SortByKey(b.members);
        SortSorts(ms);
        SortSorts(b.members);
        AgreeIffSame(ms, b.members);
        AgreeIsAligned(ms', ns');
        forall i | 0 <= i < |ms'| ensures Canonical(ms'[i].value) == Canonical(ns'[i].value) {
          assert ms'[i] in ms' && ns'[i] in ns';
          assert ms'[i] in ms && ns'[i] in b.members;
          SameText(ms'[i].value, ns'[i].value);
        }
        SameMembersText(a, ms', b, ns');
      case _ =>
    }
  }

  lemma {:induction false} SameItemsText(a: Json, xs: seq<Json>, b: Json, ys: seq<Json>)
    requires |xs| == |ys|
    requires forall i :: 0 <= i < |xs| ==> xs[i] < a && ys[i] < b && Canonical(xs[i]) == Canonical(ys[i])
    ensures Items(a, xs) == Items(b, ys)
    decreases |xs|
  {
    if |xs| > 1 { SameItemsText(a, xs[1..], b, ys[1..]); }
  }

  lemma {:induction false} SameMembersText(a: Json, ms: seq<Member>, b: Json, ns: seq<Member>)
    requires |ms| == |ns|
    requires forall m :: m in ms ==> m.value < a
    requires forall n :: n in ns ==> n.value < b
    requires forall i :: 0 <= i < |ms| ==> ms[i].key == ns[i].key && Canonical(ms[i].value) == Canonical(ns[i].value)
    ensures Members(a, ms) == Members(b, ns)
    decreases |ms|
  {
    if |ms| > 1 { SameMembersText(a, ms[1..], b, ns[1..]); }
  }

  /** Main result: one text per JSON value up to member order, and no text for two of them. */
  lemma CanonicalIffSame(a: Json, b: Json)
    requires Held(a) && Held(b)
    ensures Canonical(a) == Canonical(b) <==> Same(a, b)
  {
    if Canonical(a) == Canonical(b) {
      assert Canonical(a) + "" == Canonical(b) + "";
      TextUnique(a, b, "", "");
    }
    if Same(a, b) { SameText(a, b); }
  }

  // ---- what a restart does to the text ---------------------------------------------------

  lemma {:induction false} ReloadedMember(whole: Json, ms: seq<Member>, r: Member)
    requires forall m :: m in ms ==> m.value < whole
    ensures r in ReloadMembers(whole, ms)
            <==> exists m :: m in ms && m.value != Undefined && r == Member(m.key, Reload(m.value))
    decreases |ms|
  {
    hide Reload;
    if ms != [] {
      ReloadedMember(whole, ms[1..], r);
      assert ms == [ms[0]] + ms[1..];
    }
  }

  lemma {:induction false} ReloadedKeysDistinct(whole: Json, ms: seq<Member>)
    requires DistinctKeys(ms) && forall m :: m in ms ==> m.value < whole
    ensures DistinctKeys(ReloadMembers(whole, ms))
    decreases |ms|
  {
    if ms != [] {
      var rest := ReloadMembers(whole, ms[1..]);
      ReloadedKeysDistinct(whole, ms[1..]);
      forall i | 0 <= i < |rest| ensures rest[i].key != ms[0].key {
        ReloadedMember(whole, ms[1..], rest[i]);
        var m :| m in ms[1..] && rest[i].key == m.key;
        var k :| 0 <= k < |ms[1..]| && ms[1..][k] == m;
        assert ms[k + 1] == m;
      }
    }
  }

  lemma {:induction false} ReloadSame(v: Json)
    requires Held(v)
    ensures Held(Reload(v)) && (Same(v, Reload(v)) <==> NoUndefinedMember(v))
    decreases v
  {
    match v {
      case Arr(items) =>
        forall i | 0 <= i < |items|
          ensures Held(Reload(items[i])) && (Same(items[i], Reload(items[i])) <==> NoUndefinedMember(items[i]))
        {
          ReloadSame(items[i]);
        }
      case Obj(ms) =>
        var rs := ReloadMembers(v, ms);
        ReloadedKeysDistinct(v, ms);
        forall i | 0 <= i < |rs| ensures Held(rs[i].value) {
          ReloadedMember(v, ms, rs[i]);
          var m :| m in ms && rs[i] == Member(m.key, Reload(m.value));
          ReloadSame(m.value);
        }
        ReloadSameMembers(v, ms);
      case _ =>
    }
  }

  lemma {:induction false} ReloadSameMembers(v: Json, ms: seq<Member>)
    requires v == Obj(ms) && Held(v)
    ensures Same(v, Reload(v)) <==> NoUndefinedMember(v)
    decreases v, 0
  {
    var rs := ReloadMembers(v, ms);
    forall i, j | 0 <= i < |ms| && 0 <= j < |rs| && ms[i].key == rs[j].key
      ensures ms[i].value != Undefined && rs[j].value == Reload(ms[i].value)
    {
      ReloadedMember(v, ms, rs[j]);
      var m :| m in ms && m.value != Undefined && rs[j] == Member(m.key, Reload(m.value));
      var k :| 0 <= k < |ms| && ms[k] == m;
      assert k == i;
    }
    forall i | 0 <= i < |ms|
      ensures ms[i].value != Undefined ==> exists j :: 0 <= j < |rs| && rs[j] == Member(ms[i].key, Reload(ms[i].value))
      ensures Same(ms[i].value, Reload(ms[i].value)) <==> NoUndefinedMember(ms[i].value)
    {
      ReloadSame(ms[i].value);
      if ms[i].value != Undefined {
        assert ms[i] in ms;
        ReloadedMember(v, ms, Member(ms[i].key, Reload(ms[i].value)));
      }
    }
    if Same(v, Reload(v)) {
      forall i | 0 <= i < |ms| ensures ms[i].value != Undefined && NoUndefinedMember(ms[i].value) {
        assert ms[i] in ms && ms[i].key in Keys(rs);
        var r := KeyIsHeld(rs, ms[i].key);
        var j :| 0 <= j < |rs| && rs[j] == r;
      }
    }
    if NoUndefinedMember(v) {
      forall m | m in ms ensures m.key in Keys(rs) { ReloadedMember(v, ms, Member(m.key, Reload(m.value))); }
      forall r | r in rs ensures r.key in Keys(ms) { ReloadedMember(v, ms, r); }
    }
  }

  /**
   * The text of a value survives a restart exactly when no object in it has an undefined
   * member: in memory such a member is hashed as null, on disk it is gone.
   */
  lemma TextSurvivesReload(v: Json)
    requires Held(v)
    ensures Canonical(Reload(v)) == Canonical(v) <==> NoUndefinedMember(v)
  {
    ReloadSame(v);
    CanonicalIffSame(v, Reload(v));
  }
}
