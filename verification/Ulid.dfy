/** ULIDs: reading the creation time back out of an id, and what the order of ids says about time. */
module Ulid {
  import opened Strings

  const CROCKFORD: string := "0123456789ABCDEFGHJKMNPQRSTVWXYZ"
  const ULID_TIME_LEN := 10
  const ULID_LEN := 26

  /**
   * The value of one character. Lower case is read as upper case; so are the three other
   * characters whose upper case JavaScript finds in the alphabet, the long s and the two
   * ligatures of s and t.
   */
  function Digit(c: char): Option<nat> {
    var u := if 'a' <= c <= 'z' then c - 'a' + 'A'
             else if c in {'\U{017F}', '\U{FB05}', '\U{FB06}'} then 'S' else c;
    if '0' <= u <= '9' then Some((u - '0') as nat)
    else if 'A' <= u <= 'H' then Some((u - 'A') as nat + 10)
    else if 'J' <= u <= 'K' then Some((u - 'J') as nat + 18)
    else if 'M' <= u <= 'N' then Some((u - 'M') as nat + 20)
    else if 'P' <= u <= 'T' then Some((u - 'P') as nat + 22)
    else if 'V' <= u <= 'Z' then Some((u - 'V') as nat + 27)
    else None
  }

  /** The digits are the positions in the alphabet, which ascends. */
  lemma DigitIsPosition(i: nat)
    requires i < 32
    ensures |CROCKFORD| == 32 && Digit(CROCKFORD[i]) == Some(i)
    ensures '0' <= CROCKFORD[i] <= '9' || 'A' <= CROCKFORD[i] <= 'Z'
  {
  }

  predicate WellFormed(id: string) {
    |id| == ULID_LEN && forall i :: 0 <= i < |id| ==> Digit(id[i]).Some?
  }

  predicate Digits(s: string) { forall i :: 0 <= i < |s| ==> Digit(s[i]).Some? }

  /** The number a digit string denotes, most significant digit first. */
  function Value(s: string): nat
    requires Digits(s)
  {
    if s == [] then 0 else Value(s[..|s| - 1]) * 32 + Digit(s[|s| - 1]).value
  }

  method UlidTimeMs(id: string) returns (r: Option<nat>)
    ensures r.Some? <==> |id| == 26 && forall i :: 0 <= i < 26 ==> Digit(id[i]).Some?
    ensures r.Some? ==> Digits(id[..10]) && r.value == Value(id[..10])
  {
    if |id| != ULID_LEN { return None; }
    var ms := 0;
    for i := 0 to ULID_LEN
      invariant Digits(id[..i])
      invariant i <= ULID_TIME_LEN ==> ms == Value(id[..i])
      invariant i >= ULID_TIME_LEN ==> Digits(id[..ULID_TIME_LEN]) && ms == Value(id[..ULID_TIME_LEN])
    {
      var digit := Digit(id[i]);
      if digit.None? { return None; }
      assert id[..i + 1][..i] == id[..i];
      if i < ULID_TIME_LEN { ms := ms * 32 + digit.value; }
    }
    assert id[..ULID_LEN] == id;
    return Some(ms);
  }

  /** A number in `len` Crockford digits, as the ULID factory writes a timestamp. */
  function Encode(ms: nat, len: nat): string {
    if len == 0 then "" else Encode(ms / 32, len - 1) + [CROCKFORD[ms % 32]]
  }

  function Pow32(n: nat): nat { if n == 0 then 1 else 32 * Pow32(n - 1) }

  /** Decoding inverts encoding. */
  lemma {:induction false} DecodeEncode(ms: nat, len: nat)
    requires ms < Pow32(len)
    ensures |Encode(ms, len)| == len && Digits(Encode(ms, len)) && Value(Encode(ms, len)) == ms
  {
    if len > 0 {
      DecodeEncode(ms / 32, len - 1);
      DigitIsPosition(ms % 32);
      var s := Encode(ms, len);
      assert s[..|s| - 1] == Encode(ms / 32, len - 1);
    }
  }

  /** As the factory writes it: digits and upper-case letters of the alphabet only. */
  predicate Canonical(s: string) {
    forall i :: 0 <= i < |s| ==> Digit(s[i]).Some? && ('0' <= s[i] <= '9' || 'A' <= s[i] <= 'Z')
  }

  lemma {:induction false} EncodedIsCanonical(ms: nat, len: nat)
    ensures |Encode(ms, len)| == len && Canonical(Encode(ms, len))
  {
    hide Digit;
    if len > 0 {
      EncodedIsCanonical(ms / 32, len - 1);
      DigitIsPosition(ms % 32);
    }
  }

  lemma DigitsAscend(c: char, d: char)
    requires Digit(c).Some? && ('0' <= c <= '9' || 'A' <= c <= 'Z')
    requires Digit(d).Some? && ('0' <= d <= '9' || 'A' <= d <= 'Z')
    ensures (c < d <==> Digit(c).value < Digit(d).value) && (c == d <==> Digit(c).value == Digit(d).value)
    ensures Digit(c).value < 32 && Digit(d).value < 32
  {
  }

  const UPPER: string := "0123456789ABCDEFGHJKMNPQRSTVWXYZ"
  const LOWER: string := "0123456789abcdefghjkmnpqrstvwxyz"

  lemma UpperIsAlphabet(d: nat)
    requires d < 32
    ensures |UPPER| == |LOWER| == 32 && UPPER[d] == CROCKFORD[d]
  {
  }

  lemma LowerOfUpper(d: nat)
    requires d < 32
    ensures |UPPER| == |LOWER| == 32
    ensures LOWER[d] == if UPPER[d] <= '9' then UPPER[d] else (UPPER[d] as int + 32) as char
  {
  }

  lemma SameLetter(c: char, u: char)
    requires 'A' <= u <= 'Z' && c as int == u as int + 32
    ensures Digit(c) == Digit(u)
  {
  }

  lemma OddLetters(c: char)
    requires c as int in {383, 64261, 64262}
    ensures Digit(c) == Digit('S') == Some(25)
  {
  }

  /** Every character that has a value is a digit or letter, or one of the three odd ones. */
  lemma DigitShapes(c: char)
    requires Digit(c).Some?
    ensures Digit(c).value < 32
    ensures '0' <= c <= '9' || 'A' <= c <= 'Z' || 'a' <= c <= 'z' || c as int in {383, 64261, 64262}
  {
  }

  /** A character has the value `d` exactly if its upper case stands at place `d` of the alphabet. */
  lemma DigitIff(c: char, d: nat)
    ensures |UPPER| == |LOWER| == 32
    ensures Digit(c) == Some(d)
            <==> d < 32 && (c == UPPER[d] || c == LOWER[d] || (UPPER[d] == 'S' && c as int in {383, 64261, 64262}))
  {
    hide Digit;
    UpperIsAlphabet(0);
    if d < 32 {
      DigitIsPosition(d);
      UpperIsAlphabet(d);
      LowerOfUpper(d);
      if UPPER[d] > '9' { SameLetter(LOWER[d], UPPER[d]); }
      if c as int in {383, 64261, 64262} { OddLetters(c); }
    }
    if Digit(c) == Some(d) {
      DigitShapes(c);
      var u := if 'a' <= c <= 'z' then (c as int - 32) as char else if c as int > 127 then 'S' else c;
      if 'a' <= c <= 'z' { SameLetter(c, u); } else if c as int > 127 { OddLetters(c); }
      DigitsAscend(u, UPPER[d]);
    }
  }

  lemma {:induction false} LessBySplit(a: string, b: string, x: string, y: string)
    requires |a| == |b|
    ensures Less(a + x, b + y) <==> Less(a, b) || (a == b && Less(x, y))
  {
    if a == [] {
      assert a + x == x && b + y == y;
    } else {
      assert (a + x)[1..] == a[1..] + x && (b + y)[1..] == b[1..] + y;
      assert a == [a[0]] + a[1..] && b == [b[0]] + b[1..];
      LessBySplit(a[1..], b[1..], x, y);
    }
  }

  /** Among canonical digit strings of one length, string order is numeric order. */
  lemma {:induction false} OrderIsNumeric(a: string, b: string)
    requires |a| == |b| && Canonical(a) && Canonical(b)
    ensures (Less(a, b) <==> Value(a) < Value(b)) && (a == b <==> Value(a) == Value(b))
  {
    hide Digit;
    if a != [] {
      var n := |a| - 1;
      var a', b' := a[..n], b[..n];
      assert a == a' + [a[n]] && b == b' + [b[n]];
      OrderIsNumeric(a', b');
      DigitsAscend(a[n], b[n]);
      LessBySplit(a', b', [a[n]], [b[n]]);
      assert Less([a[n]], [b[n]]) <==> a[n] < b[n];
    }
  }

  /** Encoding keeps the order of timestamps. */
  lemma EncodingKeepsOrder(ms: nat, ms': nat, len: nat)
    requires ms < Pow32(len) && ms' < Pow32(len)
    ensures Less(Encode(ms, len), Encode(ms', len)) <==> ms < ms'
  {
    hide Digit;
    DecodeEncode(ms, len);
    DecodeEncode(ms', len);
    EncodedIsCanonical(ms, len);
    EncodedIsCanonical(ms', len);
    OrderIsNumeric(Encode(ms, len), Encode(ms', len));
  }

  /** The millisecond an id was minted at. */
  function TimeOf(id: string): nat
    requires WellFormed(id)
  {
    Value(id[..ULID_TIME_LEN])
  }

  /** Ids of the factory are ordered no differently from the times they carry. */
  lemma IdOrderIsTimeOrder(a: string, b: string)
    requires WellFormed(a) && WellFormed(b) && Canonical(a) && Canonical(b)
    ensures Less(a, b) ==> TimeOf(a) <= TimeOf(b)
    ensures TimeOf(a) < TimeOf(b) ==> Less(a, b)
  {
    hide Digit;
    var n := ULID_TIME_LEN;
    assert a == a[..n] + a[n..] && b == b[..n] + b[n..];
    LessBySplit(a[..n], b[..n], a[n..], b[n..]);
    OrderIsNumeric(a[..n], b[..n]);
  }
}
