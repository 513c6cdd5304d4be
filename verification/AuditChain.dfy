/** The hash-chained entries, their verification, and what a chain head pins down. */
module AuditChain {
  import opened Strings
  import opened Json
  import opened JsonProofs

  /** The hashed part of an audit entry. `None` is a field left undefined. */
  datatype Content = Content(
    id: string, at: string, actor: string, action: string, targetType: string, targetId: string,
    before: Option<Json>, after: Option<Json>, requestId: Option<string>, interimProfile: Option<bool>)

  datatype ChainEntry = ChainEntry(content: Content, prevHash: string, hash: string)

  /** SHA-256 in hexadecimal, as far as the chain relies on it. */
  type Digest = string -> string

  ghost predicate Collisionless(sha: Digest) {
    && (forall x, y :: sha(x) == sha(y) ==> x == y)
    && (forall x :: sha(x) != "" && '\n' !in sha(x))
  }

  predicate HeldField(f: Option<Json>) { f.Some? ==> Held(f.value) && f.value != Undefined }

  predicate HeldContent(c: Content) { HeldField(c.before) && HeldField(c.after) }

  predicate SameField(f: Option<Json>, g: Option<Json>) {
    f.Some? == g.Some? && (f.Some? ==> Same(f.value, g.value))
  }

  /** Equal in every hashed field, object members of `before` and `after` taken in any order. */
  predicate SameContent(c: Content, d: Content) {
    && c.id == d.id && c.at == d.at && c.actor == d.actor && c.action == d.action
    && c.targetType == d.targetType && c.targetId == d.targetId
    && SameField(c.before, d.before) && SameField(c.after, d.after)
    && c.requestId == d.requestId && c.interimProfile == d.interimProfile
  }

  function Field(key: string, value: Option<Json>): seq<Member> {
    if value.Some? then [Member(key, value.value)] else []
  }

  function StrField(s: Option<string>): Option<Json> { if s.Some? then Some(Str(s.value)) else None }

  function BoolField(b: Option<bool>): Option<Json> { if b.Some? then Some(Bool(b.value)) else None }

  /** The fields every entry has. */
  function FixedMembers(c: Content): seq<Member> {
    [Member("id", Str(c.id)), Member("at", Str(c.at)), Member("actor", Str(c.actor)),
     Member("action", Str(c.action)), Member("targetType", Str(c.targetType)), Member("targetId", Str(c.targetId))]
  }

  function HashedMembers(c: Content): seq<Member> {
    FixedMembers(c) + Field("before", c.before) + Field("after", c.after)
    + Field("requestId", StrField(c.requestId)) + Field("interimProfile", BoolField(c.interimProfile))
  }

  function EntryForHash(c: Content): Json { Obj(HashedMembers(c)) }

  function Preimage(prevHash: string, c: Content): string { prevHash + "\n" + Canonical(EntryForHash(c)) }

  function EntryHash(sha: Digest, prevHash: string, c: Content): string { sha(Preimage(prevHash, c)) }

  // ---- the hash covers exactly the content -------------------------------------------------

  /** Which value a member list of hashed fields holds under a key. */
  function FieldValue(c: Content, key: string): Option<Json> {
    if key == "id" then Some(Str(c.id))
    else if key == "at" then Some(Str(c.at))
    else if key == "actor" then Some(Str(c.actor))
    else if key == "action" then Some(Str(c.action))
    else if key == "targetType" then Some(Str(c.targetType))
    else if key == "targetId" then Some(Str(c.targetId))
    else if key == "before" then c.before
    else if key == "after" then c.after
    else if key == "requestId" then StrField(c.requestId)
    else if key == "interimProfile" then BoolField(c.interimProfile)
    else None
  }

  lemma InField(key: string, f: Option<Json>, m: Member)
    ensures m in Field(key, f) <==> m.key == key && f == Some(m.value)
  {
  }

  predicate IsFixed(key: string) {
    key == "id" || key == "at" || key == "actor" || key == "action" || key == "targetType" || key == "targetId"
  }

  lemma FixedMember(c: Content, m: Member)
    ensures m in FixedMembers(c) <==> IsFixed(m.key) && FieldValue(c, m.key) == Some(m.value)
  {
    hide StrField, BoolField;
  }

  lemma OptionalsAreNotFixed()
    ensures !IsFixed("before") && !IsFixed("after") && !IsFixed("requestId") && !IsFixed("interimProfile")
  {
  }

  /** The value under a key that is not fixed. */
  lemma OptionalValue(c: Content, key: string)
    requires !IsFixed(key)
    ensures FieldValue(c, key)
            == if key == "before" then c.before
               else if key == "after" then c.after
               else if key == "requestId" then StrField(c.requestId)
               else if key == "interimProfile" then BoolField(c.interimProfile)
               else None
  {
    hide StrField, BoolField;
  }

  lemma HashedMember(c: Content, m: Member)
    ensures m in HashedMembers(c) <==> FieldValue(c, m.key) == Some(m.value)
  {
    hide Field, StrField, BoolField, FixedMembers, IsFixed, FieldValue;
    OptionalsAreNotFixed();
    FixedMember(c, m);
    InField("before", c.before, m);
    InField("after", c.after, m);
    InField("requestId", StrField(c.requestId), m);
    InField("interimProfile", BoolField(c.interimProfile), m);
    if !IsFixed(m.key) { OptionalValue(c, m.key); }
  }

  lemma AddField(ms: seq<Member>, key: string, f: Option<Json>)
    requires DistinctKeys(ms) && key !in Keys(ms)
    ensures DistinctKeys(ms + Field(key, f)) && Keys(ms + Field(key, f)) <= Keys(ms) + {key}
  {
    assert forall m :: m in ms ==> m.key in Keys(ms);
  }

  const FIXED_KEYS: set<string> := {"id", "at", "actor", "action", "targetType", "targetId"}

  lemma FixedKeysDistinct(c: Content)
    ensures DistinctKeys(HashedMembers(c)[..6]) && Keys(HashedMembers(c)[..6]) == FIXED_KEYS
  {
    var ms := HashedMembers(c)[..6];
    assert ms == [Member("id", Str(c.id)), Member("at", Str(c.at)), Member("actor", Str(c.actor)),
                  Member("action", Str(c.action)), Member("targetType", Str(c.targetType)),
                  Member("targetId", Str(c.targetId))];
  }

  lemma OptionalKeysAreNew()
    ensures "before" !in FIXED_KEYS
    ensures "after" !in FIXED_KEYS + {"before"}
    ensures "requestId" !in FIXED_KEYS + {"before"} + {"after"}
    ensures "interimProfile" !in FIXED_KEYS + {"before"} + {"after"} + {"requestId"}
  {
  }

  lemma HashedKeysDistinct(c: Content)
    ensures DistinctKeys(HashedMembers(c))
  {
    hide Field, DistinctKeys, Keys, StrField, BoolField, FIXED_KEYS;
    OptionalKeysAreNew();
    var ms := HashedMembers(c)[..6];
    var ms1 := ms + Field("before", c.before);
    var ms2 := ms1 + Field("after", c.after);
    var ms3 := ms2 + Field("requestId", StrField(c.requestId));
    assert HashedMembers(c) == ms3 + Field("interimProfile", BoolField(c.interimProfile));
    FixedKeysDistinct(c);
    AddField(ms, "before", c.before);
    AddField(ms1, "after", c.after);
    AddField(ms2, "requestId", StrField(c.requestId));
    AddField(ms3, "interimProfile", BoolField(c.interimProfile));
  }

  lemma EntryForHashHeld(c: Content)
    requires HeldContent(c)
    ensures Held(EntryForHash(c))
  {
    HashedKeysDistinct(c);
    forall m | m in HashedMembers(c) ensures Held(m.value) { HashedMember(c, m); }
  }

  lemma FieldsSame(c: Content, d: Content, key: string)
    requires SameContent(c, d)
    ensures SameField(FieldValue(c, key), FieldValue(d, key))
  {
  }

  lemma SameFields(c: Content, d: Content)
    requires forall key :: SameField(FieldValue(c, key), FieldValue(d, key))
    ensures SameContent(c, d)
  {
    assert SameField(FieldValue(c, "id"), FieldValue(d, "id"));
    assert SameField(FieldValue(c, "at"), FieldValue(d, "at"));
    assert SameField(FieldValue(c, "actor"), FieldValue(d, "actor"));
    assert SameField(FieldValue(c, "action"), FieldValue(d, "action"));
    assert SameField(FieldValue(c, "targetType"), FieldValue(d, "targetType"));
    assert SameField(FieldValue(c, "targetId"), FieldValue(d, "targetId"));
    assert SameField(FieldValue(c, "before"), FieldValue(d, "before"));
    assert SameField(FieldValue(c, "after"), FieldValue(d, "after"));
    assert SameField(FieldValue(c, "requestId"), FieldValue(d, "requestId"));
    assert SameField(FieldValue(c, "interimProfile"), FieldValue(d, "interimProfile"));
  }

  lemma ContentDecidesObject(c: Content, d: Content)
    ensures Same(EntryForHash(c), EntryForHash(d)) <==> forall key :: SameField(FieldValue(c, key), FieldValue(d, key))
  {
    hide FieldValue, HashedMembers;
    var ms, ns := HashedMembers(c), HashedMembers(d);
    if Same(Obj(ms), Obj(ns)) {
      forall key ensures SameField(FieldValue(c, key), FieldValue(d, key)) {
        var f, g := FieldValue(c, key), FieldValue(d, key);
        if f.Some? || g.Some? {
          if f.Some? { HashedMember(c, Member(key, f.value)); }
          if g.Some? { HashedMember(d, Member(key, g.value)); }
          assert key in Keys(ms) && key in Keys(ns);
          var m := KeyIsHeld(ms, key);
          var n := KeyIsHeld(ns, key);
          HashedMember(c, m);
          HashedMember(d, n);
          var i :| 0 <= i < |ms| && ms[i] == m;
          var j :| 0 <= j < |ns| && ns[j] == n;
        }
      }
    }
    if forall key :: SameField(FieldValue(c, key), FieldValue(d, key)) {
      ObjectsOfSameFields(c, d);
    }
  }

  lemma ObjectsOfSameFields(c: Content, d: Content)
    requires forall key :: SameField(FieldValue(c, key), FieldValue(d, key))
    ensures Same(EntryForHash(c), EntryForHash(d))
  {
    hide FieldValue, HashedMembers;
    var ms, ns := HashedMembers(c), HashedMembers(d);
    forall m | m in ms ensures m.key in Keys(ns) {
      HashedMember(c, m);
      HashedMember(d, Member(m.key, FieldValue(d, m.key).value));
    }
    forall n | n in ns ensures n.key in Keys(ms) {
      HashedMember(d, n);
      HashedMember(c, Member(n.key, FieldValue(c, n.key).value));
    }
    forall i, j | 0 <= i < |ms| && 0 <= j < |ns| && ms[i].key == ns[j].key
      ensures Same(ms[i].value, ns[j].value)
    {
      HashedMember(c, ms[i]);
      HashedMember(d, ns[j]);
    }
  }

  /** The hashed text of an entry and its content determine each other. */
  lemma HashedTextIffSame(c: Content, d: Content)
    requires HeldContent(c) && HeldContent(d)
    ensures Canonical(EntryForHash(c)) == Canonical(EntryForHash(d)) <==> SameContent(c, d)
  {
    EntryForHashHeld(c);
    EntryForHashHeld(d);
    CanonicalIffSame(EntryForHash(c), EntryForHash(d));
    ContentDecidesObject(c, d);
    if SameContent(c, d) {
      forall key ensures SameField(FieldValue(c, key), FieldValue(d, key)) { FieldsSame(c, d, key); }
    }
    if forall key :: SameField(FieldValue(c, key), FieldValue(d, key)) { SameFields(c, d); }
  }

  /** The preimage splits in one way only: no newline can belong to the previous hash. */
  lemma PreimageSplits(p: string, c: Content, q: string, d: Content)
    requires '\n' !in p && '\n' !in q
    requires Preimage(p, c) == Preimage(q, d)
    ensures p == q && Canonical(EntryForHash(c)) == Canonical(EntryForHash(d))
  {
    var x, y := Canonical(EntryForHash(c)), Canonical(EntryForHash(d));
    Associate(p, "\n", x);
    Associate(q, "\n", y);
    NewlineEnds(p, q, x, y);
    NewlineEnds(q, p, y, x);
    Cancel(p, q, "\n" + x, "\n" + y);
    Cancel("\n", "\n", x, y);
  }

  lemma NewlineEnds(p: string, q: string, x: string, y: string)
    requires '\n' !in q && p + ("\n" + x) == q + ("\n" + y)
    ensures |p| >= |q|
  {
    assert (p + ("\n" + x))[|p|] == '\n';
  }

  /** Equal hashes come from the same predecessor and the same content, and conversely. */
  lemma HashIffSame(sha: Digest, p: string, c: Content, q: string, d: Content)
    requires Collisionless(sha) && HeldContent(c) && HeldContent(d) && '\n' !in p && '\n' !in q
    ensures EntryHash(sha, p, c) == EntryHash(sha, q, d) <==> p == q && SameContent(c, d)
  {
    HashedTextIffSame(c, d);
    if EntryHash(sha, p, c) == EntryHash(sha, q, d) { PreimageSplits(p, c, q, d); }
  }

  // ---- verifyChain -----------------------------------------------------------------------

  /** The hash the next entry must link to, after `es` appended to a chain ending in `start`. */
  function Tip(start: string, es: seq<ChainEntry>): string {
    if es == [] then start else es[|es| - 1].hash
  }

  /** Entry `i` links to its predecessor and carries its own recomputed hash. */
  predicate IntactAt(sha: Digest, start: string, es: seq<ChainEntry>, i: nat)
    requires i < |es|
  {
    && es[i].prevHash == Tip(start, es[..i])
    && es[i].hash == EntryHash(sha, Tip(start, es[..i]), es[i].content)
  }

  ghost predicate Linked(sha: Digest, start: string, es: seq<ChainEntry>) {
    forall i :: 0 <= i < |es| ==> IntactAt(sha, start, es, i)
  }

  /** The outcome of a verification; its rendering as code and message is one to one. */
  datatype Verdict =
    | Intact(count: nat)
    | BrokenAt(badUlid: string)
    | HeadMismatch(computed: string, head: string)

  function Code(v: Verdict): int {
    match v
    case Intact(_) => 0
    case BrokenAt(_) => 1
    case HeadMismatch(_, _) => 2
  }

  /** What verifyChain must answer: the first entry that is not intact, else the tip against the head. */
  ghost predicate IsVerdict(sha: Digest, es: seq<ChainEntry>, head: Option<string>, v: Verdict) {
    match v
    case BrokenAt(id) =>
      exists i :: 0 <= i < |es| && !IntactAt(sha, "", es, i) && es[i].content.id == id
                  && forall k :: 0 <= k < i ==> IntactAt(sha, "", es, k)
    case HeadMismatch(computed, h) =>
      Linked(sha, "", es) && head == Some(h) && h != Tip("", es)
      && computed == (if Tip("", es) == "" then "(empty)" else Tip("", es))
    case Intact(n) =>
      Linked(sha, "", es) && n == |es| && (head.Some? ==> head.value == Tip("", es))
  }

  method VerifyChain(sha: Digest, entries: seq<ChainEntry>, head: Option<string>) returns (v: Verdict)
    ensures IsVerdict(sha, entries, head, v)
    ensures Code(v) == match v case Intact(_) => 0 case BrokenAt(_) => 1 case HeadMismatch(_, _) => 2
  {
    var prevHash := "";
    for i := 0 to |entries|
      invariant prevHash == Tip("", entries[..i])
      invariant forall k :: 0 <= k < i ==> IntactAt(sha, "", entries, k)
    {
      var e := entries[i];
      var recomputed := EntryHash(sha, prevHash, e.content);
      if e.prevHash != prevHash || e.hash != recomputed { return BrokenAt(e.content.id); }
      prevHash := e.hash;
    }
    assert entries[..|entries|] == entries;
    if head.Some? && prevHash != head.value {
      return HeadMismatch(if prevHash == "" then "(empty)" else prevHash, head.value);
    }
    return Intact(|entries|);
  }

  /** There is one verdict per chain and head. */
  lemma VerdictUnique(sha: Digest, es: seq<ChainEntry>, head: Option<string>, v: Verdict, w: Verdict)
    requires IsVerdict(sha, es, head, v) && IsVerdict(sha, es, head, w)
    ensures v == w
  {
  }

  // ---- the head pins the history ----------------------------------------------------------

  lemma LinkedSplits(sha: Digest, start: string, es: seq<ChainEntry>, fs: seq<ChainEntry>)
    ensures Linked(sha, start, es + fs) <==> Linked(sha, start, es) && Linked(sha, Tip(start, es), fs)
    ensures Tip(start, es + fs) == Tip(Tip(start, es), fs)
  {
    hide EntryHash;
    forall i | 0 <= i < |es| ensures IntactAt(sha, start, es + fs, i) == IntactAt(sha, start, es, i) {
      assert (es + fs)[..i] == es[..i];
    }
    forall i | 0 <= i < |fs|
      ensures IntactAt(sha, start, es + fs, |es| + i) == IntactAt(sha, Tip(start, es), fs, i)
    {
      assert (es + fs)[..|es| + i] == es + fs[..i];
    }
    if Linked(sha, start, es + fs) {
      forall i | 0 <= i < |fs| ensures IntactAt(sha, Tip(start, es), fs, i) {
        assert IntactAt(sha, start, es + fs, |es| + i);
      }
      forall i | 0 <= i < |es| ensures IntactAt(sha, start, es, i) {
        assert IntactAt(sha, start, es + fs, i);
      }
    }
    if Linked(sha, start, es) && Linked(sha, Tip(start, es), fs) {
      forall i | 0 <= i < |es + fs| ensures IntactAt(sha, start, es + fs, i) {
        if i >= |es| { assert IntactAt(sha, Tip(start, es), fs, i - |es|); }
      }
    }
  }

  lemma LastIntact(sha: Digest, start: string, es: seq<ChainEntry>)
    requires es != [] && Linked(sha, start, es)
    ensures Linked(sha, start, es[..|es| - 1])
    ensures es[|es| - 1].prevHash == Tip(start, es[..|es| - 1])
    ensures es[|es| - 1].hash == EntryHash(sha, Tip(start, es[..|es| - 1]), es[|es| - 1].content)
  {
    var front, last := es[..|es| - 1], es[|es| - 1..];
    assert es == front + last;
    LinkedSplits(sha, start, front, last);
    assert IntactAt(sha, start, es, |es| - 1);
  }

  predicate HeldEntries(es: seq<ChainEntry>) { forall e :: e in es ==> HeldContent(e.content) }

  /** The same chain: equal length, and equal in every hashed field, link and hash. */
  predicate SameChain(es: seq<ChainEntry>, fs: seq<ChainEntry>) {
    && |es| == |fs|
    && forall i :: 0 <= i < |es| ==>
         SameContent(es[i].content, fs[i].content) && es[i].prevHash == fs[i].prevHash && es[i].hash == fs[i].hash
  }

  lemma TipHasNoNewline(sha: Digest, es: seq<ChainEntry>)
    requires Collisionless(sha) && Linked(sha, "", es)
    ensures '\n' !in Tip("", es) && (Tip("", es) == "" <==> es == [])
  {
    if es != [] { LastIntact(sha, "", es); }
  }

  lemma SameChainGrows(es: seq<ChainEntry>, fs: seq<ChainEntry>)
    requires es != [] && fs != [] && SameChain(es[..|es| - 1], fs[..|fs| - 1])
    requires SameChain(es[|es| - 1..], fs[|fs| - 1..])
    ensures SameChain(es, fs)
  {
    hide SameContent;
    forall i | 0 <= i < |es|
      ensures SameContent(es[i].content, fs[i].content) && es[i].prevHash == fs[i].prevHash && es[i].hash == fs[i].hash
    {
      if i < |es| - 1 {
        assert es[i] == es[..|es| - 1][i] && fs[i] == fs[..|fs| - 1][i];
      } else {
        assert es[i] == es[|es| - 1..][0] && fs[i] == fs[|fs| - 1..][0];
      }
    }
  }

  /** Two chains that end in the same head are the same chain. */
  lemma {:induction false} HeadPinsHistory(sha: Digest, es: seq<ChainEntry>, fs: seq<ChainEntry>)
    requires Collisionless(sha) && HeldEntries(es) && HeldEntries(fs)
    requires Linked(sha, "", es) && Linked(sha, "", fs) && Tip("", es) == Tip("", fs)
    ensures SameChain(es, fs)
  {
    hide EntryHash, Linked, SameContent, HeldContent, Collisionless;
    TipHasNoNewline(sha, es);
    TipHasNoNewline(sha, fs);
    if es != [] {
      var e, f := es[|es| - 1], fs[|fs| - 1];
      var es', fs' := es[..|es| - 1], fs[..|fs| - 1];
      LastIntact(sha, "", es);
      LastIntact(sha, "", fs);
      TipHasNoNewline(sha, es');
      TipHasNoNewline(sha, fs');
      HashIffSame(sha, Tip("", es'), e.content, Tip("", fs'), f.content);
      HeadPinsHistory(sha, es', fs');
      SameChainGrows(es, fs);
    }
  }

  lemma {:induction false} SameChainLinked(sha: Digest, es: seq<ChainEntry>, fs: seq<ChainEntry>)
    requires HeldEntries(es) && HeldEntries(fs) && Linked(sha, "", es) && SameChain(es, fs)
    ensures Linked(sha, "", fs) && Tip("", es) == Tip("", fs)
  {
    forall i | 0 <= i < |fs| ensures IntactAt(sha, "", fs, i) {
      assert IntactAt(sha, "", es, i);
      assert es[i] in es && fs[i] in fs;
      HashedTextIffSame(es[i].content, fs[i].content);
    }
  }

  /**
   * Main result: against the head of a verified chain, a list of entries verifies clean
   * exactly when it is that chain. Any edit, deletion, insertion, reordering or truncation
   * gets a non-zero code.
   */
  lemma TamperingShows(sha: Digest, es: seq<ChainEntry>, fs: seq<ChainEntry>, v: Verdict)
    requires Collisionless(sha) && HeldEntries(es) && HeldEntries(fs) && Linked(sha, "", es)
    requires IsVerdict(sha, fs, Some(Tip("", es)), v)
    ensures Code(v) == 0 <==> SameChain(es, fs)
  {
    if Code(v) == 0 { HeadPinsHistory(sha, es, fs); }
    if SameChain(es, fs) { SameChainLinked(sha, es, fs); }
  }

  /** A head hash never comes back: the tips of different prefixes of a chain differ. */
  lemma NoHeadRepeats(sha: Digest, es: seq<ChainEntry>, i: nat, j: nat)
    requires Collisionless(sha) && HeldEntries(es) && Linked(sha, "", es)
    requires i <= |es| && j <= |es|
    ensures Tip("", es[..i]) == Tip("", es[..j]) <==> i == j
  {
    assert es == es[..i] + es[i..] && es == es[..j] + es[j..];
    LinkedSplits(sha, "", es[..i], es[i..]);
    LinkedSplits(sha, "", es[..j], es[j..]);
    if Tip("", es[..i]) == Tip("", es[..j]) { HeadPinsHistory(sha, es[..i], es[..j]); }
  }
}
