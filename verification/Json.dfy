/**
 * JSON values and the canonical text that the audit hash covers.
 *
 * A number is its rendered text, and `Undefined` is the JavaScript value that JSON
 * itself cannot carry: it may sit in a value held in memory, but not in one that was
 * written to disk and read back.
 */
module Json {
  import opened Strings

  datatype Json =
    | Undefined
    | Null
    | Bool(b: bool)
    | Num(text: string)
    | Str(s: string)
    | Arr(items: seq<Json>)
    | Obj(members: seq<Member>)

  datatype Member = Member(key: string, value: Json)

  predicate DistinctKeys(ms: seq<Member>) {
    forall i, j :: 0 <= i < j < |ms| ==> ms[i].key != ms[j].key
  }

  predicate IsDigit(c: char) { '0' <= c <= '9' }

  predicate NumChar(c: char) { IsDigit(c) || c == '-' || c == '+' || c == '.' || c == 'e' || c == 'E' }

  predicate NumberText(t: string) {
    t != [] && (IsDigit(t[0]) || t[0] == '-') && forall i :: 0 <= i < |t| ==> NumChar(t[i])
  }

  /** A value some JavaScript expression can hold: object keys are distinct, numbers are finite. */
  predicate Held(v: Json) {
    match v
    case Num(t) => NumberText(t)
    case Arr(items) => forall i :: 0 <= i < |items| ==> Held(items[i])
    case Obj(ms) => DistinctKeys(ms) && forall i :: 0 <= i < |ms| ==> Held(ms[i].value)
    case _ => true
  }

  /** No object, at any depth, has a member whose value is undefined. */
  predicate NoUndefinedMember(v: Json) {
    match v
    case Arr(items) => forall i :: 0 <= i < |items| ==> NoUndefinedMember(items[i])
    case Obj(ms) => forall i :: 0 <= i < |ms| ==> ms[i].value != Undefined && NoUndefinedMember(ms[i].value)
    case _ => true
  }

  /** What is left after JSON.stringify and JSON.parse: undefined members are dropped, undefined items are null. */
  function Reload(v: Json): Json
    decreases v
  {
    match v
    case Undefined => Null
    case Arr(items) => Arr(seq(|items|, i requires 0 <= i < |items| => Reload(items[i])))
    case Obj(ms) => Obj(ReloadMembers(v, ms))
    case _ => v
  }

  function ReloadMembers(whole: Json, ms: seq<Member>): seq<Member>
    requires forall m :: m in ms ==> m.value < whole
    decreases whole, |ms|
  {
    if ms == [] then []
    else if ms[0].value == Undefined then ReloadMembers(whole, ms[1..])
    else [Member(ms[0].key, Reload(ms[0].value))] + ReloadMembers(whole, ms[1..])
  }

  function Keys(ms: seq<Member>): set<string> { set m | m in ms :: m.key }

  /**
   * Equality of JSON values up to the order in which object members were inserted:
   * the notion of "the same content" that everything below is measured against.
   * Undefined counts as null, which is how the canonical text writes it.
   */
  predicate Same(a: Json, b: Json) {
    match (a, b)
    case (Arr(xs), Arr(ys)) =>
      |xs| == |ys| && forall i :: 0 <= i < |xs| ==> Same(xs[i], ys[i])
    case (Obj(ms), Obj(ns)) =>
      && Keys(ms) == Keys(ns)
      && forall i, j :: 0 <= i < |ms| && 0 <= j < |ns| && ms[i].key == ns[j].key ==> Same(ms[i].value, ns[j].value)
    case _ => (if a.Undefined? then Null else a) == (if b.Undefined? then Null else b)
  }

  // ---- sorting members by key --------------------------------------------------------

  predicate SortedByKey(ms: seq<Member>) {
    forall i, j :: 0 <= i < j < |ms| ==> Less(ms[i].key, ms[j].key)
  }

  function InsertByKey(m: Member, ms: seq<Member>): (r: seq<Member>)
    ensures |r| == |ms| + 1
    ensures forall x :: x in r <==> x == m || x in ms
  {
    if ms == [] || Less(m.key, ms[0].key) then [m] + ms
    else
      assert ms == [ms[0]] + ms[1..];
      [ms[0]] + InsertByKey(m, ms[1..])
  }

  function SortByKey(ms: seq<Member>): (r: seq<Member>)
    ensures |r| == |ms|
    ensures forall x :: x in r <==> x in ms
  {
    if ms == [] then []
    else
      assert ms == [ms[0]] + ms[1..];
      InsertByKey(ms[0], SortByKey(ms[1..]))
  }

  lemma {:induction false} InsertKeepsSorted(m: Member, ms: seq<Member>)
    requires SortedByKey(ms) && m.key !in Keys(ms)
    ensures SortedByKey(InsertByKey(m, ms))
  {
    if ms == [] {
    } else if Less(m.key, ms[0].key) {
      forall j | 0 < j < |ms| ensures Less(m.key, ms[j].key) { LessTransitive(m.key, ms[0].key, ms[j].key); }
    } else {
      LessTotal(m.key, ms[0].key);
      var rest := InsertByKey(m, ms[1..]);
      InsertKeepsSorted(m, ms[1..]);
      forall j | 0 <= j < |rest| ensures Less(ms[0].key, rest[j].key) {
        assert rest[j] in rest;
        if rest[j] != m {
          var k :| 0 <= k < |ms[1..]| && ms[1..][k] == rest[j];
          assert ms[1..][k] == ms[k + 1];
        }
      }
    }
  }

  lemma {:induction false} SortSorts(ms: seq<Member>)
    requires DistinctKeys(ms)
    ensures SortedByKey(SortByKey(ms)) && DistinctKeys(SortByKey(ms))
  {
    if ms != [] {
      var rest := SortByKey(ms[1..]);
      SortSorts(ms[1..]);
      assert ms[0].key !in Keys(rest) by {
        forall m | m in rest ensures m.key != ms[0].key {
          assert m in ms[1..];
          var k :| 0 <= k < |ms[1..]| && ms[1..][k] == m;
          assert ms[1..][k] == ms[k + 1];
        }
      }
      InsertKeepsSorted(ms[0], rest);
    }
    var r := SortByKey(ms);
    forall i, j | 0 <= i < j < |r| ensures r[i].key != r[j].key { LessAsymmetric(r[i].key, r[j].key); }
  }

  // ---- the text ----------------------------------------------------------------------

  function HexDigit(n: int): char
    requires 0 <= n < 16
  {
    if n < 10 then '0' + n as char else 'a' + (n - 10) as char
  }

  /** The letter of a two-character escape, for the characters that have one. */
  function Mnemonic(c: char): Option<char> {
    if c == '\"' || c == '\\' then Some(c)
    else if c == '\U{08}' then Some('b')
    else if c == '\U{0C}' then Some('f')
    else if c == '\n' then Some('n')
    else if c == '\r' then Some('r')
    else if c == '\t' then Some('t')
    else None
  }

  /** One character inside a JSON string literal, as JSON.stringify writes it. */
  function EscapeChar(c: char): string {
    var m := Mnemonic(c);
    if m.Some? then ['\\', m.value]
    else if c < ' ' then ['\\', 'u', '0', '0', HexDigit(c as int / 16), HexDigit(c as int % 16)]
    else [c]
  }

  function Escape(s: string): string {
    if s == [] then [] else EscapeChar(s[0]) + Escape(s[1..])
  }

  function Quote(s: string): string { "\"" + (Escape(s) + "\"") }

  /** canonicalJson: no white space, object keys sorted, arrays in order. */
  function Canonical(v: Json): string
    decreases v
  {
    match v
    case Undefined => "null"
    case Null => "null"
    case Bool(b) => if b then "true" else "false"
    case Num(t) => t
    case Str(s) => Quote(s)
    case Arr(items) => "[" + (Items(v, items) + "]")
    case Obj(ms) => "{" + (Members(v, SortByKey(ms)) + "}")
  }

  /** The items of an array, joined by commas. `whole` is the value they belong to. */
  function Items(whole: Json, items: seq<Json>): string
    requires forall i :: 0 <= i < |items| ==> items[i] < whole
    decreases whole, |items|, 0
  {
    if items == [] then "" else Canonical(items[0]) + MoreItems(whole, items[1..])
  }

  function MoreItems(whole: Json, items: seq<Json>): string
    requires forall i :: 0 <= i < |items| ==> items[i] < whole
    decreases whole, |items|, 1
  {
    if items == [] then "" else "," + Items(whole, items)
  }

  function Members(whole: Json, ms: seq<Member>): string
    requires forall m :: m in ms ==> m.value < whole
    decreases whole, |ms|, 0
  {
    if ms == [] then ""
    else Quote(ms[0].key) + (":" + (Canonical(ms[0].value) + MoreMembers(whole, ms[1..])))
  }

  function MoreMembers(whole: Json, ms: seq<Member>): string
    requires forall m :: m in ms ==> m.value < whole
    decreases whole, |ms|, 1
  {
    if ms == [] then "" else "," + Members(whole, ms)
  }
}
