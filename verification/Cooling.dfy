/** The settle of an approval whose cooling-off window has elapsed: what it writes, and what one of them does. */
module Cooling {
  import opened Strings
  import opened Json
  import opened AuditChain
  import opened Store
  import opened AuditProtocol
  import opened AsyncStore
  import Manifests

  const COOLING := Str("APPROVED_COOLING")

  function CoolingElapsed(w: World, req: Item, nowMs: int): bool {
    && Attr(req, "status") == Some(COOLING)
    && Attr(req, "earliestApplyAt").Some? && req["earliestApplyAt"].Str?
    && nowMs >= w.dateMs(req["earliestApplyAt"].s)
  }

  /** Where a non-interim approval would have landed at once. */
  function CoolingTargetStatus(req: Item): string {
    var schedule := Attr(req, "schedule");
    if schedule.Some? && schedule.value.Obj? && Manifests.Field(schedule.value.members, "kind") == Str("window")
    then "AWAITING_DEPLOY_APPROVAL" else "APPLIED"
  }

  function EventsOf(req: Item): seq<Json> {
    if Attr(req, "events").Some? && req["events"].Arr? then req["events"].items else []
  }

  function SettleLabel(req: Item): string {
    if CoolingTargetStatus(req) == "APPLIED" then "Cooling-off window elapsed \U{2014} APPLIED"
    else
      var at := Manifests.Field(req["schedule"].members, "at");
      "Cooling-off window elapsed \U{2014} scheduled to apply at " + (if at.Str? then at.s else "undefined")
  }

  /** The event a settle adds to the request. */
  function SettleEvent(req: Item, at: string): Json {
    Obj([Member("at", Str(at)),
         Member("type", Str(if CoolingTargetStatus(req) == "APPLIED" then "applied" else "scheduled")),
         Member("label", Str(SettleLabel(req)))])
  }

  function Settled(req: Item, at: string): Item {
    map["status" := Str(CoolingTargetStatus(req)), "updatedAt" := Str(at),
        "events" := Arr(EventsOf(req) + [SettleEvent(req, at)])]
  }

  /** A row after a settle computed from `req`. */
  function Updated(row: Item, req: Item, at: string): Item { row + Settled(req, at) }

  /** The one guarded write of a settle. */
  function SettleWrite(key: Key, req: Item, at: string): RowWrite {
    Update(key, Settled(req, at), {}, Some(Guard("status", Some(COOLING))))
  }

  function SettleEntry(req: Item, id: string): AuditInput {
    var target := CoolingTargetStatus(req);
    AuditInput("request-apply", "system:cooling-window-elapsed", "request", id,
               Some(Obj([Member("status", COOLING)])), Some(Obj([Member("status", Str(target))])), Some(id), None)
  }

  // ---- what a settle leaves --------------------------------------------------------------------

  /** The request waits, and the instant it waits for has come. */
  predicate Due(w: World, req: Item, nowMs: int) {
    && "status" in req && req["status"] == Str("APPROVED_COOLING")
    && "earliestApplyAt" in req && req["earliestApplyAt"].Str? && w.dateMs(req["earliestApplyAt"].s) <= nowMs
  }

  /** The request was scheduled for a window. */
  predicate Planned(req: Item) {
    "schedule" in req && req["schedule"].Obj? && Manifests.Field(req["schedule"].members, "kind") == Str("window")
  }

  function WindowText(req: Item): string
    requires Planned(req)
  {
    var at := Manifests.Field(req["schedule"].members, "at");
    if at.Str? then at.s else "undefined"
  }

  /**
   * The row and the audit entry tell of one and the same settle: a request planned for a window
   * now awaits its deployment, any other is applied, and nothing else of the row has changed.
   */
  ghost predicate SettledAs(was: Item, req: Item, now: string, id: string, row: Item, c: Content) {
    var status := Str(if Planned(req) then "AWAITING_DEPLOY_APPROVAL" else "APPLIED");
    var kind := if Planned(req) then "scheduled" else "applied";
    var text := if Planned(req) then "Cooling-off window elapsed \U{2014} scheduled to apply at " + WindowText(req)
                else "Cooling-off window elapsed \U{2014} APPLIED";
    var events := if "events" in req && req["events"].Arr? then req["events"].items else [];
    && Attr(row, "status") == Some(status) && Attr(row, "updatedAt") == Some(Str(now))
    && Attr(row, "events")
       == Some(Arr(events + [Obj([Member("at", Str(now)), Member("type", Str(kind)), Member("label", Str(text))])]))
    && (forall attr :: attr !in {"status", "updatedAt", "events"} ==> Attr(row, attr) == Attr(was, attr))
    && c.action == "request-apply" && c.actor == "system:cooling-window-elapsed"
    && c.targetType == "request" && c.targetId == id && c.requestId == Some(id)
    && c.before == Some(Obj([Member("status", Str("APPROVED_COOLING"))]))
    && c.after == Some(Obj([Member("status", status)]))
  }

  lemma ElapsedIsDue(w: World, req: Item, nowMs: int)
    ensures CoolingElapsed(w, req, nowMs) <==> Due(w, req, nowMs)
  {
  }

  lemma SettleLeaves(was: Item, req: Item, now: string, id: string, at: string, entry: string)
    ensures SettledAs(was, req, now, id, Updated(was, req, now), ContentFor(SettleEntry(req, id), at, entry))
  {
    assert CoolingTargetStatus(req) == if Planned(req) then "AWAITING_DEPLOY_APPROVAL" else "APPLIED";
  }

  predicate StatusIs(db: Db, key: Key, status: Json) { key in db.rows && Attr(db.rows[key], "status") == Some(status) }

  lemma SettleEntryHeld(req: Item, id: string)
    ensures HeldInput(SettleEntry(req, id))
  {
  }

  lemma SettleHoldsIffCooling(db: Db, key: Key, req: Item, at: string)
    ensures WritesHold(db, [SettleWrite(key, req, at)]) <==> StatusIs(db, key, COOLING)
  {
    var ws := [SettleWrite(key, req, at)];
    assert WriteHolds(db, ws[0]) <==> StatusIs(db, key, COOLING);
  }

  predicate IsCooling(st: State, key: Key) { StatusIs(st.db, key, COOLING) }

  lemma SettleLands(st: State, key: Key, req: Item, at: string, a: Append)
    requires BatchHolds(st.db, [SettleWrite(key, req, at)], Some(a))
    ensures WritesHold(st.db, [SettleWrite(key, req, at)]) && key in st.db.rows
    ensures var st' := OwnStep(st, [SettleWrite(key, req, at)], a);
            && key in st'.db.rows && st'.db.rows[key] == Updated(st.db.rows[key], req, at)
            && StatusIs(st'.db, key, Str(CoolingTargetStatus(req)))
  {
    hide CoolingTargetStatus, SettleEvent, EventsOf;
    var ws := [SettleWrite(key, req, at)];
    assert WriteHolds(st.db, ws[0]);
    assert ApplyWrites(st.db.rows, ws) == ApplyWrites(ApplyWrite(st.db.rows, ws[0]), ws[1..]) && ws[1..] == [];
  }

  /**
   * A settle takes only the status into account: it keeps the events the request has
   * exactly when these are the events the settling caller had read.
   */
  lemma EventsKeptIff(st: State, key: Key, req: Item, at: string, a: Append)
    requires BatchHolds(st.db, [SettleWrite(key, req, at)], Some(a))
    ensures key in st.db.rows
    ensures var st' := OwnStep(st, [SettleWrite(key, req, at)], a);
            && key in st'.db.rows
            && (EventsOf(st'.db.rows[key]) == EventsOf(st.db.rows[key]) + [SettleEvent(req, at)]
                <==> EventsOf(st.db.rows[key]) == EventsOf(req))
  {
    hide CoolingTargetStatus, SettleEvent, OwnStep, BatchHolds;
    SettleLands(st, key, req, at, a);
    var e := SettleEvent(req, at);
    var stored, read := EventsOf(st.db.rows[key]), EventsOf(req);
    assert (stored + [e])[..|stored|] == stored && (read + [e])[..|read|] == read;
    if stored + [e] == read + [e] { assert |stored| == |read|; }
  }
}
