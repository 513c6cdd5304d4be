/** What the audit hash is taken over, told by a reader: the predecessor, a newline, and the entry as JSON. */
module HashedText {
  import opened Strings
  import opened Json
  import opened JsonProofs
  import opened JsonReader
  import opened AuditChain

  /** An object has a member with this content, or none of that name. */
  ghost predicate Shows(v: Json, key: string, f: Option<Json>) {
    v.Obj? && if f.None? then key !in Keys(v.members)
              else exists m :: m in v.members && m.key == key && Same(f.value, m.value)
  }

  function Text(s: Option<string>): Option<Json> { if s.None? then None else Some(Str(s.value)) }

  function Flag(b: Option<bool>): Option<Json> { if b.None? then None else Some(Bool(b.value)) }

  /** An object that tells an entry: every field under its name, those left undefined absent, and nothing else. */
  ghost predicate Tells(v: Json, c: Content) {
    && Shows(v, "id", Some(Str(c.id))) && Shows(v, "at", Some(Str(c.at)))
    && Shows(v, "actor", Some(Str(c.actor))) && Shows(v, "action", Some(Str(c.action)))
    && Shows(v, "targetType", Some(Str(c.targetType))) && Shows(v, "targetId", Some(Str(c.targetId)))
    && Shows(v, "before", c.before) && Shows(v, "after", c.after)
    && Shows(v, "requestId", Text(c.requestId)) && Shows(v, "interimProfile", Flag(c.interimProfile))
    && forall m :: m in v.members ==>
         m.key in {"id", "at", "actor", "action", "targetType", "targetId", "before", "after", "requestId",
                   "interimProfile"}
  }

  lemma FieldShows(c: Content, v: Json, key: string)
    requires v.Obj? && Same(EntryForHash(c), v)
    ensures Shows(v, key, FieldValue(c, key))
  {
    hide FieldValue, HashedMembers;
    var ms := HashedMembers(c);
    var f := FieldValue(c, key);
    if f.Some? {
      HashedMember(c, Member(key, f.value));
      assert key in Keys(ms);
      var n := KeyIsHeld(v.members, key);
      var i :| 0 <= i < |ms| && ms[i] == Member(key, f.value);
      var j :| 0 <= j < |v.members| && v.members[j] == n;
    } else if key in Keys(v.members) {
      var m := KeyIsHeld(ms, key);
      HashedMember(c, m);
    }
  }

  lemma OnlyFields(c: Content, v: Json, m: Member)
    requires v.Obj? && Same(EntryForHash(c), v) && m in v.members
    ensures FieldValue(c, m.key).Some?
  {
    hide FieldValue, HashedMembers;
    assert m.key in Keys(v.members);
    var n := KeyIsHeld(HashedMembers(c), m.key);
    HashedMember(c, n);
  }

  lemma SameTells(c: Content, v: Json)
    requires v.Obj? && Same(EntryForHash(c), v)
    ensures Tells(v, c)
  {
    hide HashedMembers, Shows, Same;
    FieldShows(c, v, "id");
    FieldShows(c, v, "at");
    FieldShows(c, v, "actor");
    FieldShows(c, v, "action");
    FieldShows(c, v, "targetType");
    FieldShows(c, v, "targetId");
    FieldShows(c, v, "before");
    FieldShows(c, v, "after");
    FieldShows(c, v, "requestId");
    FieldShows(c, v, "interimProfile");
    forall m | m in v.members
      ensures m.key in {"id", "at", "actor", "action", "targetType", "targetId", "before", "after", "requestId",
                        "interimProfile"}
    {
      OnlyFields(c, v, m);
    }
  }

  /**
   * Main result: the hash of an entry is that of its predecessor's hash, a newline, and a JSON
   * object that tells the entry, members by key.
   */
  lemma HashedIsJson(sha: Digest, prevHash: string, c: Content) returns (text: string, v: Json)
    requires HeldContent(c)
    ensures EntryHash(sha, prevHash, c) == sha(prevHash + "\n" + text)
    ensures Parse(text) == Some(v) && Tells(v, c) && Ordered(v)
  {
    hide Canonical, Normal, Parse, HashedMembers, Ordered, ReadValue, Tells;
    text, v := Canonical(EntryForHash(c)), Normal(EntryForHash(c));
    EntryForHashHeld(c);
    CanonicalIsJson(EntryForHash(c), "");
    NormalOfObject(EntryForHash(c));
    SameTells(c, v);
  }
}
