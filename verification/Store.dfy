/**
 * The store seam: rows, the audit rows and chain heads, and the all-or-nothing batch.
 *
 * Audit entries and chain heads are kept apart from the other rows; their keys never
 * meet in the key scheme, so no caller's row write can reach them.
 */
module Store {
  import opened Strings
  import opened Json
  import opened AuditChain

  type Item = map<string, Json>

  datatype Key = Key(pk: string, sk: string)

  /** The key of an audit entry: its project, its month partition, and its ULID as sort key. */
  datatype AuditKey = AuditKey(project: string, month: int, id: string)

  datatype ChainHead = ChainHead(hash: string, lastUlid: string, count: nat)

  /** `value` None asks for the attribute to be absent. */
  datatype Guard = Guard(attr: string, value: Option<Json>)

  datatype RowWrite =
    | Put(key: Key, item: Item, ifNotExists: bool, ifEquals: Option<Guard>)
    | Update(key: Key, set_: Item, remove: set<string>, ifEquals: Option<Guard>)
    | Delete(key: Key, ifEquals: Option<Guard>)

  /** The two writes of an audit append: the entry, and the head moved on from `expected`. */
  datatype Append = Append(key: AuditKey, entry: ChainEntry, expected: Option<ChainHead>, head: ChainHead)

  datatype Db = Db(heads: map<string, ChainHead>, audit: map<AuditKey, ChainEntry>, rows: map<Key, Item>)

  function HeadOf(db: Db, project: string): Option<ChainHead> {
    if project in db.heads then Some(db.heads[project]) else None
  }

  function RowOf(db: Db, key: Key): Option<Item> {
    if key in db.rows then Some(db.rows[key]) else None
  }

  function Attr(item: Item, attr: string): Option<Json> {
    if attr in item then Some(item[attr]) else None
  }

  /** The seam's ifEquals: never true of a missing row; attribute values compare structurally. */
  predicate GuardHolds(row: Option<Item>, g: Guard) {
    row.Some? && SameField(Attr(row.value, g.attr), g.value)
  }

  predicate WriteHolds(db: Db, w: RowWrite) {
    && (w.Put? && w.ifNotExists ==> w.key !in db.rows)
    && (w.ifEquals.Some? ==> GuardHolds(RowOf(db, w.key), w.ifEquals.value))
  }

  predicate WritesHold(db: Db, ws: seq<RowWrite>) { forall i :: 0 <= i < |ws| ==> WriteHolds(db, ws[i]) }

  predicate AppendHolds(db: Db, a: Append) {
    && a.key !in db.audit
    && (match a.expected
        case None => a.key.project !in db.heads
        case Some(h) => a.key.project in db.heads && db.heads[a.key.project].hash == h.hash)
  }

  function ApplyWrite(rows: map<Key, Item>, w: RowWrite): map<Key, Item> {
    match w
    case Put(key, item, _, _) => rows[key := item]
    case Update(key, s, remove, _) =>
      rows[key := ((if key in rows then rows[key] else map[]) + s) - remove]
    case Delete(key, _) => rows - {key}
  }

  function ApplyWrites(rows: map<Key, Item>, ws: seq<RowWrite>): map<Key, Item>
    decreases |ws|
  {
    if ws == [] then rows else ApplyWrites(ApplyWrite(rows, ws[0]), ws[1..])
  }

  // ---- what a batch leaves ---------------------------------------------------------------------

  function ItemAt(rows: map<Key, Item>, key: Key): Option<Item> { if key in rows then Some(rows[key]) else None }

  /** What a write asks of the row it finds. */
  predicate Asks(was: Option<Item>, w: RowWrite) {
    && (w.Put? && w.ifNotExists ==> was == None)
    && (w.ifEquals.Some? ==>
          var g := w.ifEquals.value;
          was.Some? && if g.attr in was.value then SameField(Some(was.value[g.attr]), g.value) else g.value == None)
  }

  /** What a write leaves of it: just the item, no row, or the row with some attributes set and some removed. */
  ghost predicate Leaves(was: Option<Item>, w: RowWrite, now: Option<Item>) {
    match w
    case Put(_, item, _, _) => now == Some(item)
    case Delete(_, _) => now == None
    case Update(_, set_, remove, _) =>
      now.Some? && forall attr ::
        Attr(now.value, attr) == if attr in remove then None
                                 else if attr in set_ then Some(set_[attr])
                                 else if was.Some? then Attr(was.value, attr) else None
  }

  /** Every row the batch names met its write's condition and is what the write leaves of it; the others stay. */
  ghost predicate BatchLanded(rows: map<Key, Item>, ws: seq<RowWrite>, rows': map<Key, Item>) {
    && (forall i :: 0 <= i < |ws| ==>
          Asks(ItemAt(rows, ws[i].key), ws[i]) && Leaves(ItemAt(rows, ws[i].key), ws[i], ItemAt(rows', ws[i].key)))
    && (forall key :: (forall i :: 0 <= i < |ws| ==> ws[i].key != key) ==> ItemAt(rows', key) == ItemAt(rows, key))
  }

  lemma OneLeaves(rows: map<Key, Item>, w: RowWrite)
    ensures Leaves(ItemAt(rows, w.key), w, ItemAt(ApplyWrite(rows, w), w.key))
    ensures forall key :: key != w.key ==> ItemAt(ApplyWrite(rows, w), key) == ItemAt(rows, key)
  {
  }

  lemma {:induction false} BatchLeaves(rows: map<Key, Item>, ws: seq<RowWrite>)
    requires forall i, j :: 0 <= i < j < |ws| ==> ws[i].key != ws[j].key
    ensures forall i :: 0 <= i < |ws| ==>
              Leaves(ItemAt(rows, ws[i].key), ws[i], ItemAt(ApplyWrites(rows, ws), ws[i].key))
    ensures forall key :: (forall i :: 0 <= i < |ws| ==> ws[i].key != key) ==>
              ItemAt(ApplyWrites(rows, ws), key) == ItemAt(rows, key)
    decreases |ws|
  {
    hide ApplyWrite, Leaves;
    if ws != [] {
      var rest, rows1 := ws[1..], ApplyWrite(rows, ws[0]);
      OneLeaves(rows, ws[0]);
      BatchLeaves(rows1, rest);
      forall i | 0 <= i < |ws|
        ensures Leaves(ItemAt(rows, ws[i].key), ws[i], ItemAt(ApplyWrites(rows, ws), ws[i].key))
      {
        if i > 0 {
          assert ws[i] == rest[i - 1];
        } else {
          assert forall j :: 0 <= j < |rest| ==> rest[j] == ws[j + 1];
        }
      }
    }
  }

  /** Main result on the batch: what was accepted landed, all of it, on rows that were as it asked. */
  lemma AcceptedLands(db: Db, ws: seq<RowWrite>, a: Option<Append>)
    requires Admissible(ws, a.Some?) && BatchHolds(db, ws, a)
    ensures BatchLanded(db.rows, ws, ApplyBatch(db, ws, a).rows)
  {
    hide ApplyWrites, Leaves;
    BatchLeaves(db.rows, ws);
    forall i | 0 <= i < |ws| ensures Asks(ItemAt(db.rows, ws[i].key), ws[i]) { assert WriteHolds(db, ws[i]); }
  }

  /** A batch has room for 100 writes, with an audit entry for 98. */
  lemma AdmissibleIff(ws: seq<RowWrite>)
    ensures Admissible(ws, false) <==> |ws| <= 100 && forall i, j :: 0 <= i < j < |ws| ==> ws[i].key != ws[j].key
    ensures Admissible(ws, true) <==> |ws| <= 98 && forall i, j :: 0 <= i < j < |ws| ==> ws[i].key != ws[j].key
  {
  }

  function ApplyAppend(db: Db, a: Append): Db {
    db.(heads := db.heads[a.key.project := a.head], audit := db.audit[a.key := a.entry])
  }

  const MAX_TRANSACT_WRITES := 100

  /** A batch the seam accepts at all: not too long, and no row written twice. */
  predicate Admissible(ws: seq<RowWrite>, audited: bool) {
    && |ws| + (if audited then 2 else 0) <= MAX_TRANSACT_WRITES
    && forall i, j :: 0 <= i < j < |ws| ==> ws[i].key != ws[j].key
  }

  predicate BatchHolds(db: Db, ws: seq<RowWrite>, a: Option<Append>) {
    WritesHold(db, ws) && (a.Some? ==> AppendHolds(db, a.value))
  }

  function ApplyBatch(db: Db, ws: seq<RowWrite>, a: Option<Append>): Db {
    var db' := db.(rows := ApplyWrites(db.rows, ws));
    if a.Some? then ApplyAppend(db', a.value) else db'
  }

  // ---- recordIn ----------------------------------------------------------------------------

  /** The abstract parts of the environment: the digest, the calendar, and the ULID factory. */
  datatype World = World(
    sha: Digest,
    dateMs: string -> int,          // Date.parse of an ISO timestamp
    month: int -> int,              // year * 12 + month of a millisecond instant, UTC
    mint: (string, int) -> string)  // the monotonic factory: last id minted, seed time

  /** Ids come out of the factory in strictly increasing order. */
  ghost predicate WorldOk(w: World) {
    Collisionless(w.sha) && forall last, seed :: Less(last, w.mint(last, seed))
  }

  lemma MintIncreases(w: World, last: string, seed: int)
    requires WorldOk(w)
    ensures Less(last, w.mint(last, seed))
  {
  }

  datatype AuditInput = AuditInput(
    action: string, actor: string, targetType: string, targetId: string,
    before: Option<Json>, after: Option<Json>, requestId: Option<string>, interimProfile: Option<bool>)

  /** The hash a verification compares the tip with: that of the head row, if there is one. */
  function HeadHash(head: Option<ChainHead>): Option<string> {
    if head.Some? then Some(head.value.hash) else None
  }

  predicate HeldInput(e: AuditInput) { HeldField(e.before) && HeldField(e.after) }

  function ContentFor(e: AuditInput, at: string, id: string): Content {
    Content(id, at, e.actor, e.action, e.targetType, e.targetId, e.before, e.after, e.requestId, e.interimProfile)
  }

  /** An entry tells what was submitted, when, and under which id. */
  predicate Recounts(c: Content, e: AuditInput, at: string, id: string) {
    && c.id == id && c.at == at && c.actor == e.actor && c.action == e.action
    && c.targetType == e.targetType && c.targetId == e.targetId && c.before == e.before && c.after == e.after
    && c.requestId == e.requestId && c.interimProfile == e.interimProfile
  }

  lemma ContentRecounts(e: AuditInput, at: string, id: string)
    ensures Recounts(ContentFor(e, at, id), e, at, id)
  {
  }

  function KeyFor(w: World, project: string, c: Content): AuditKey {
    AuditKey(project, w.month(w.dateMs(c.at)), c.id)
  }

  function RecordIn(w: World, project: string, head: Option<ChainHead>, e: AuditInput, at: string, id: string): Append {
    var prevHash := if head.Some? then head.value.hash else "";
    var count := if head.Some? then head.value.count else 0;
    var content := ContentFor(e, at, id);
    var hash := EntryHash(w.sha, prevHash, content);
    Append(KeyFor(w, project, content), ChainEntry(content, prevHash, hash), head, ChainHead(hash, id, count + 1))
  }

  // ---- chains kept in a store ----------------------------------------------------------------

  type Logs = map<string, seq<ChainEntry>>

  function LogOf(logs: Logs, project: string): seq<ChainEntry> {
    if project in logs then logs[project] else []
  }

  /** The head row of a chain: none before the first entry. */
  function HeadFor(log: seq<ChainEntry>): Option<ChainHead> {
    if log == [] then None else Some(ChainHead(Tip("", log), log[|log| - 1].content.id, |log|))
  }

  ghost predicate IdsIncrease(log: seq<ChainEntry>) {
    forall i, j :: 0 <= i < j < |log| ==> Less(log[i].content.id, log[j].content.id)
  }

  /** `log` is what the store holds for the project, in append order, under the head it holds. */
  ghost predicate Holds(w: World, db: Db, project: string, log: seq<ChainEntry>) {
    && HeldEntries(log) && Linked(w.sha, "", log) && IdsIncrease(log)
    && HeadOf(db, project) == HeadFor(log)
    && (forall i :: 0 <= i < |log| ==>
          KeyFor(w, project, log[i].content) in db.audit && db.audit[KeyFor(w, project, log[i].content)] == log[i])
    && (forall k :: k in db.audit && k.project == project ==>
          db.audit[k] in log && k == KeyFor(w, project, db.audit[k].content))
  }

  predicate AtMost(id: string, last: string) { id == last || Less(id, last) }

  /** Every project's chain is held, and no id is beyond the last one minted. */
  ghost predicate Consistent(w: World, db: Db, logs: Logs, last: string) {
    && (forall project :: Holds(w, db, project, LogOf(logs, project)))
    && (forall k :: k in db.audit ==> AtMost(k.id, last))
  }

  ghost function StoredKeys(db: Db, project: string): set<AuditKey> {
    set k | k in db.audit && k.project == project
  }

  function KeysFor(w: World, project: string, log: seq<ChainEntry>): set<AuditKey> {
    set e | e in log :: KeyFor(w, project, e.content)
  }

  lemma KeysForLast(w: World, project: string, log: seq<ChainEntry>)
    requires IdsIncrease(log) && log != []
    ensures var front, key := log[..|log| - 1], KeyFor(w, project, log[|log| - 1].content);
            KeysFor(w, project, log) == KeysFor(w, project, front) + {key} && key !in KeysFor(w, project, front)
  {
    hide Less;
    var front, last := log[..|log| - 1], log[|log| - 1];
    assert log == front + [last];
    forall e | e in front ensures e.content.id != last.content.id {
      var i :| 0 <= i < |front| && front[i] == e;
      LessAsymmetric(log[i].content.id, last.content.id);
    }
  }

  lemma {:induction false} KeysForCount(w: World, project: string, log: seq<ChainEntry>)
    requires IdsIncrease(log)
    ensures |KeysFor(w, project, log)| == |log|
  {
    hide Less, KeyFor;
    if log != [] {
      KeysForLast(w, project, log);
      KeysForCount(w, project, log[..|log| - 1]);
    } else {
      assert KeysFor(w, project, log) == {};
    }
  }

  /** The head counts the rows: as many entries are stored for a project as its chain is long. */
  lemma HeadCountsRows(w: World, db: Db, project: string, log: seq<ChainEntry>)
    requires Holds(w, db, project, log)
    ensures |StoredKeys(db, project)| == |log|
    ensures HeadOf(db, project).Some? ==> HeadOf(db, project).value.count == |StoredKeys(db, project)|
  {
    hide Linked;
    forall k | k in KeysFor(w, project, log) ensures k in StoredKeys(db, project) {
      var e :| e in log && KeyFor(w, project, e.content) == k;
      var i :| 0 <= i < |log| && log[i] == e;
    }
    assert StoredKeys(db, project) == KeysFor(w, project, log);
    KeysForCount(w, project, log);
  }
}
