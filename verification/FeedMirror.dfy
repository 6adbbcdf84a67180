/** Mirroring an external feed into a calendar (internal/sources/poller.go). */
module FeedMirror {
  import opened Components
  import opened Texts
  import opened Timezones
  import opened OccurrenceIndex
  import opened ObjectStore

  method SanitizeHref(uid: string) returns (s: string)
    ensures s == SafeName(uid, "object")
  {
    s := "";
    for i := 0 to |uid|
      invariant |s| == i && (i > 0 ==> s == SafeName(uid[..i], "object"))
    {
      var c := uid[i];
      if 'a' <= c <= 'z' || 'A' <= c <= 'Z' || '0' <= c <= '9' || c == '-' || c == '_' || c == '.' {
        s := s + [c];
      } else {
        s := s + ['-'];
      }
    }
    assert uid[..|uid|] == uid;
    if s == "" { return "object"; }
  }

  function HrefOf(uid: string): string {
    SafeName(uid, "object") + ".ics"
  }

  /** What the mirror needs of its surroundings: the encoder, the zone database
      and the row ids the database hands out. */
  datatype Surroundings = Surroundings(
    codec: Codec, zones: ZoneDb, emit: Component -> Option<Blob>, allocate: map<int, Row> -> int)

  /** The statements that fail during one sync: of the PUT for a UID, of the DELETE
      at a href, and the listing. */
  datatype Faults = Faults(put: string -> set<Statement>, delete: string -> set<Statement>, listing: bool)

  ghost predicate NoFaults(faults: Faults) {
    (forall uid :: faults.put(uid) == {}) && (forall href :: faults.delete(href) == {}) && !faults.listing
  }

  /** Row ids are unused, and what is emitted decodes to what was encoded. */
  ghost predicate Faithful(w: Surroundings) {
    && WellFormedZones(w.zones)
    && (forall rows :: w.allocate(rows) !in rows)
    && (forall cal :: w.emit(cal).Some? ==> w.codec.decode(w.emit(cal).value) == Some(cal))
  }

  function UidsOf(events: seq<Component>): set<string> {
    set c | c in events && ValueOf(c, "UID") != "" :: ValueOf(c, "UID")
  }

  function FeedUids(feed: Component): set<string> {
    UidsOf(Events(feed.children))
  }

  /** The resource for one UID of the feed. */
  ghost function FeedResource(w: Surroundings, feed: Component, uid: string): Component {
    Bundle(Component(VCALENDAR, Header(), Group(Events(feed.children), uid)), w.zones)
  }

  ghost predicate AllEmit(w: Surroundings, feed: Component) {
    forall uid :: uid in FeedUids(feed) ==> w.emit(FeedResource(w, feed, uid)).Some?
  }

  /** Every object of the calendar is an event at the href of its UID. */
  ghost predicate Mirror(rows: map<int, Row>, calendarId: int) {
    forall id :: id in rows && rows[id].calendarId == calendarId ==>
      rows[id].componentType == VEVENT && rows[id].href == HrefOf(rows[id].uid)
  }

  ghost predicate OthersKept(before: map<int, Row>, now: map<int, Row>, calendarId: int) {
    && (forall id :: id in before && before[id].calendarId != calendarId ==> id in now && now[id] == before[id])
    && (forall id :: id in now && now[id].calendarId != calendarId ==> id in before && before[id] == now[id])
  }

  predicate DistinctHrefs(uids: set<string>) {
    forall u, v :: u in uids && v in uids && HrefOf(u) == HrefOf(v) ==> u == v
  }

  /** The object in a row is the feed's resource for its UID. */
  ghost predicate Mirrored(w: Surroundings, feed: Component, r: Row) {
    r.uid in FeedUids(feed) && Some(r.blob) == w.emit(FeedResource(w, feed, r.uid))
  }

  ghost predicate MirroredAt(w: Surroundings, feed: Component, rows: map<int, Row>, calendarId: int, href: string) {
    exists id :: id in rows && At(rows[id], calendarId, href) && Mirrored(w, feed, rows[id])
  }

  /** The calendar is a mirror and holds a feed resource at each of these hrefs. */
  ghost predicate Upserted(w: Surroundings, feed: Component, rows: map<int, Row>, calendarId: int, hrefs: set<string>) {
    && Mirror(rows, calendarId)
    && forall href :: href in hrefs ==> MirroredAt(w, feed, rows, calendarId, href)
  }

  /** No object at one of these hrefs was lost. */
  ghost predicate StillPresent(before: map<int, Row>, now: map<int, Row>, calendarId: int, hrefs: set<string>) {
    forall href :: href in hrefs && Present(before, calendarId, href) ==> Present(now, calendarId, href)
  }

  predicate Covered(rows: map<int, Row>, calendarId: int, hrefs: set<string>) {
    forall id :: id in rows && rows[id].calendarId == calendarId ==> rows[id].href in hrefs
  }

  // ----- Parsing what was emitted -----

  lemma {:induction false} TimedConcat(a: seq<Component>, b: seq<Component>)
    ensures Timed(a + b) == Timed(a) + Timed(b)
  {
    if b == [] {
      assert a + b == a;
    } else {
      TimedConcat(a, b[..|b| - 1]);
      assert (a + b)[..|a + b| - 1] == a + b[..|b| - 1];
    }
  }

  lemma {:induction false} TimedEvents(cs: seq<Component>)
    requires forall i :: 0 <= i < |cs| ==> cs[i].name == VEVENT
    ensures Timed(cs) == cs
  {
    if cs != [] {
      TimedEvents(cs[..|cs| - 1]);
      assert cs == cs[..|cs| - 1] + [cs[|cs| - 1]];
    }
  }

  lemma {:induction false} TimedZones(cs: seq<Component>)
    requires forall i :: 0 <= i < |cs| ==> cs[i].name == VTIMEZONE
    ensures Timed(cs) == []
  {
    if cs != [] { TimedZones(cs[..|cs| - 1]); }
  }

  lemma {:induction false} EventsNamed(children: seq<Component>, c: Component)
    requires c in Events(children)
    ensures c.name == VEVENT
  {
    var n := |children| - 1;
    if c in Events(children[..n]) { EventsNamed(children[..n], c); }
  }

  lemma {:induction false} ResourceTimed(w: Surroundings, feed: Component, uid: string)
    requires WellFormedZones(w.zones)
    ensures Timed(FeedResource(w, feed, uid).children) == Group(Events(feed.children), uid)
  {
    var group := Group(Events(feed.children), uid);
    forall i | 0 <= i < |group| ensures group[i].name == VEVENT {
      GroupMembers(Events(feed.children), uid, group[i]);
      EventsNamed(feed.children, group[i]);
    }
    var injected := Injected(group, w.zones);
    forall i | 0 <= i < |injected| ensures injected[i].name == VTIMEZONE { assert injected[i] in injected; }
    TimedConcat(injected, group);
    TimedZones(injected);
    TimedEvents(group);
  }

  /** The resource for a UID holds the feed's events of that UID, in order, behind the
      VTIMEZONE of every resolvable zone that they name. */
  lemma {:induction false} ResourceHolds(w: Surroundings, feed: Component, uid: string)
    requires WellFormedZones(w.zones)
    ensures var out, group := FeedResource(w, feed, uid).children, Group(Events(feed.children), uid); var k := |out| - |group|;
      && ValueOf(FeedResource(w, feed, uid), "VERSION") == "2.0"
      && k >= 0 && out[k..] == group && (forall i :: 0 <= i < k ==> out[i].name == "VTIMEZONE")
      && (forall tzid :: tzid in AllTzids(group) && w.zones(tzid).Some? ==> w.zones(tzid).value in out[..k])
  {
    var group := Group(Events(feed.children), uid);
    BundleResolves(Component(VCALENDAR, Header(), group), w.zones);
    forall c | c in group ensures c.name == VEVENT {
      GroupMembers(Events(feed.children), uid, c);
      EventsNamed(feed.children, c);
    }
    assert PresentZones(group) == {};
  }

  /** The emitted resource of a feed UID parses to an event with that UID. */
  lemma {:induction false} EmittedParses(w: Surroundings, feed: Component, uid: string)
    requires Faithful(w) && uid in FeedUids(feed) && w.emit(FeedResource(w, feed, uid)).Some?
    ensures var p := ParseBlob(w.codec, w.emit(FeedResource(w, feed, uid)).value);
      p.Some? && p.value.uid == uid && p.value.componentType == VEVENT
  {
    var group := Group(Events(feed.children), uid);
    var cal := FeedResource(w, feed, uid);
    var c :| c in Events(feed.children) && ValueOf(c, "UID") == uid;
    GroupMembers(Events(feed.children), uid, c);
    forall i | 0 <= i < |group| ensures group[i].name == VEVENT && ValueOf(group[i], "UID") == uid {
      GroupMembers(Events(feed.children), uid, group[i]);
      EventsNamed(feed.children, group[i]);
    }
    ResourceTimed(w, feed, uid);
    ParseAcceptsOneSeries(w.codec.k, w.codec.e, cal);
    assert w.codec.decode(w.emit(cal).value) == Some(cal);
  }

  // ----- One PUT and one DELETE of the mirror -----

  /** In a mirror, storing a feed resource meets no UID conflict, no type swap and
      no key clash. */
  lemma {:induction false} MirrorPutAccepted(w: Surroundings, feed: Component, db: Db, q: PutRequest, uid: string)
    requires Faithful(w) && UniqueKeys(db.rows) && Mirror(db.rows, q.calendarId) && q.calendarId in db.calendars
    requires uid in FeedUids(feed) && Some(q.blob) == w.emit(FeedResource(w, feed, uid))
    requires q.faults == {} && q.href == HrefOf(uid) && q.newId !in db.rows
    ensures PutError(db, w.codec, q) == None
    ensures ParseBlob(w.codec, q.blob).value.uid == uid && ParseBlob(w.codec, q.blob).value.componentType == VEVENT
  {
    EmittedParses(w, feed, uid);
    MirrorFits(db.rows, q.calendarId, uid);
    FaultlessPut(db, w.codec, q, uid);
  }

  lemma {:induction false} FaultlessPut(db: Db, codec: Codec, q: PutRequest, uid: string)
    requires ParseBlob(codec, q.blob).Some? && q.faults == {} && q.newId !in db.rows && q.calendarId in db.calendars
    requires ParseBlob(codec, q.blob).value.uid == uid && !TakesUid(db.rows, q.calendarId, uid, q.href)
    requires Present(db.rows, q.calendarId, q.href) ==>
      db.rows[IdAt(db.rows, q.calendarId, q.href)].componentType == ParseBlob(codec, q.blob).value.componentType
    ensures PutError(db, codec, q) == None
  {}

  /** In a mirror the UID is at its own href or absent, and what is there is an
      event. */
  lemma {:induction false} MirrorFits(rows: map<int, Row>, calendarId: int, uid: string)
    requires Mirror(rows, calendarId)
    ensures !TakesUid(rows, calendarId, uid, HrefOf(uid))
    ensures Present(rows, calendarId, HrefOf(uid)) ==> rows[IdAt(rows, calendarId, HrefOf(uid))].componentType == VEVENT
  {}

  lemma {:induction false} UpsertRow(w: Surroundings, feed: Component, rows: map<int, Row>, id: int, r: Row, hrefs: set<string>)
    requires Upserted(w, feed, rows, r.calendarId, hrefs) && (id in rows ==> At(rows[id], r.calendarId, r.href))
    requires Mirrored(w, feed, r) && r.componentType == VEVENT && r.href == HrefOf(r.uid)
    ensures Upserted(w, feed, rows[id := r], r.calendarId, hrefs + {r.href})
  {
    MirrorGrows(rows, id, r);
    MirroredNow(w, feed, rows, id, r);
    forall href | href in hrefs && href != r.href ensures MirroredAt(w, feed, rows[id := r], r.calendarId, href) {
      MirroredStill(w, feed, rows, id, r, href);
    }
  }

  lemma {:induction false} MirrorGrows(rows: map<int, Row>, id: int, r: Row)
    requires Mirror(rows, r.calendarId) && r.componentType == VEVENT && r.href == HrefOf(r.uid)
    ensures Mirror(rows[id := r], r.calendarId)
  {}

  lemma {:induction false} MirroredNow(w: Surroundings, feed: Component, rows: map<int, Row>, id: int, r: Row)
    requires Mirrored(w, feed, r)
    ensures MirroredAt(w, feed, rows[id := r], r.calendarId, r.href)
  {
    assert rows[id := r][id] == r;
  }

  lemma {:induction false} MirroredStill(w: Surroundings, feed: Component, rows: map<int, Row>, id: int, r: Row, href: string)
    requires MirroredAt(w, feed, rows, r.calendarId, href) && href != r.href
    requires id in rows ==> At(rows[id], r.calendarId, r.href)
    ensures MirroredAt(w, feed, rows[id := r], r.calendarId, href)
  {
    var j :| j in rows && At(rows[j], r.calendarId, href) && Mirrored(w, feed, rows[j]);
    assert rows[id := r][j] == rows[j];
  }

  /** A PUT of a feed resource keeps the mirror, and puts the resource in its place
      unless it fails. */
  lemma {:induction false} MirrorPut(w: Surroundings, feed: Component, db: Db, q: PutRequest, uid: string, hrefs: set<string>)
    requires Faithful(w) && UniqueKeys(db.rows) && Upserted(w, feed, db.rows, q.calendarId, hrefs)
    requires uid in FeedUids(feed) && Some(q.blob) == w.emit(FeedResource(w, feed, uid)) && q.href == HrefOf(uid)
    ensures Upserted(w, feed, PutState(db, w.codec, q).rows, q.calendarId,
                     if PutError(db, w.codec, q).None? then hrefs + {q.href} else hrefs)
  {
    if PutError(db, w.codec, q).None? {
      EmittedParses(w, feed, uid);
      var id := PutWrites(db, w.codec, q);
      UpsertRow(w, feed, db.rows, id, PutState(db, w.codec, q).rows[id], hrefs);
    }
  }

  lemma {:induction false} PutStillPresent(db: Db, codec: Codec, q: PutRequest, hrefs: set<string>)
    ensures StillPresent(db.rows, PutState(db, codec, q).rows, q.calendarId, hrefs)
  {
    if PutError(db, codec, q).None? {
      var id := PutWrites(db, codec, q);
      forall href | Present(db.rows, q.calendarId, href) ensures Present(PutState(db, codec, q).rows, q.calendarId, href) {
        var j :| j in db.rows && At(db.rows[j], q.calendarId, href);
        assert j in PutState(db, codec, q).rows && At(PutState(db, codec, q).rows[j], q.calendarId, href);
      }
    }
  }

  lemma {:induction false} PutOthersKept(before: map<int, Row>, db: Db, codec: Codec, q: PutRequest)
    requires OthersKept(before, db.rows, q.calendarId)
    ensures OthersKept(before, PutState(db, codec, q).rows, q.calendarId)
  {}

  lemma {:induction false} DeleteOthersKept(before: map<int, Row>, db: Db, q: DeleteRequest)
    requires OthersKept(before, db.rows, q.calendarId)
    ensures OthersKept(before, DeleteState(db, q).rows, q.calendarId)
  {}

  lemma {:induction false} MirrorDelete(w: Surroundings, feed: Component, db: Db, q: DeleteRequest, hrefs: set<string>)
    requires Upserted(w, feed, db.rows, q.calendarId, hrefs) && q.href !in hrefs
    ensures Upserted(w, feed, DeleteState(db, q).rows, q.calendarId, hrefs)
  {
    var rows := DeleteState(db, q).rows;
    forall href | href in hrefs ensures MirroredAt(w, feed, rows, q.calendarId, href) {
      var j :| j in db.rows && At(db.rows[j], q.calendarId, href) && Mirrored(w, feed, db.rows[j]);
      assert j in rows && rows[j] == db.rows[j];
    }
  }

  lemma {:induction false} DeleteStillPresent(db: Db, q: DeleteRequest, hrefs: set<string>)
    requires q.href !in hrefs
    ensures StillPresent(db.rows, DeleteState(db, q).rows, q.calendarId, hrefs)
  {
    forall href | href in hrefs && Present(db.rows, q.calendarId, href)
      ensures Present(DeleteState(db, q).rows, q.calendarId, href)
    {
      var j :| j in db.rows && At(db.rows[j], q.calendarId, href);
      assert j in DeleteState(db, q).rows && DeleteState(db, q).rows[j] == db.rows[j];
    }
  }

  // ----- sync -----

  function HrefsOf(uids: set<string>): set<string> {
    set u | u in uids :: HrefOf(u)
  }

  function FeedHrefs(feed: Component): set<string> {
    HrefsOf(FeedUids(feed))
  }

  lemma {:induction false} HrefsOfAdd(uids: set<string>, uid: string)
    ensures HrefsOf(uids + {uid}) == HrefsOf(uids) + {HrefOf(uid)}
  {}

  /** In a synced calendar every object is a feed resource. */
  lemma {:induction false} SyncedRows(w: Surroundings, feed: Component, rows: map<int, Row>, calendarId: int, id: int)
    requires Synced(w, feed, rows, calendarId) && UniqueKeys(rows) && id in rows && rows[id].calendarId == calendarId
    ensures Mirrored(w, feed, rows[id])
  {
    assert MirroredAt(w, feed, rows, calendarId, rows[id].href);
  }

  /** The outcome of a sync whose hypotheses hold: one object at each href of the
      feed and no other, each the feed's resource for a UID with that href. */
  ghost predicate Synced(w: Surroundings, feed: Component, rows: map<int, Row>, calendarId: int) {
    && Upserted(w, feed, rows, calendarId, FeedHrefs(feed))
    && Covered(rows, calendarId, FeedHrefs(feed))
  }

  ghost predicate HasUid(rows: map<int, Row>, calendarId: int, uid: string) {
    exists id :: id in rows && rows[id].calendarId == calendarId && rows[id].uid == uid
  }

  // ----- Which characters a href keeps -----

  predicate Allowed(c: char) {
    'a' <= c <= 'z' || 'A' <= c <= 'Z' || '0' <= c <= '9' || c == '-' || c == '_' || c == '.'
  }

  /** Character by character, the href of a UID. */
  lemma {:induction false} HrefCharacters(uid: string)
    ensures uid == "" ==> HrefOf(uid) == "object.ics"
    ensures uid != "" ==>
      && |HrefOf(uid)| == |uid| + 4 && HrefOf(uid)[|uid|..] == ".ics"
      && forall i :: 0 <= i < |uid| ==> HrefOf(uid)[i] == if Allowed(uid[i]) then uid[i] else '-'
  {
    if uid != "" {
      var name := SafeName(uid, "object");
      assert |name| == |uid| && HrefOf(uid)[..|uid|] == name;
    }
  }

  /** A character of which a href shows a dash. */
  predicate Dashed(c: char) {
    c == '-' || !Allowed(c)
  }

  /** Two UIDs of one length that differ only where both show a dash. */
  predicate Confusable(u: string, v: string) {
    |u| == |v| && forall i :: 0 <= i < |u| ==> u[i] == v[i] || (Dashed(u[i]) && Dashed(v[i]))
  }

  lemma {:induction false} SameHrefIff(u: string, v: string)
    requires u != "" && v != ""
    ensures HrefOf(u) == HrefOf(v) <==> Confusable(u, v)
  {
    HrefCharacters(u);
    HrefCharacters(v);
    if HrefOf(u) == HrefOf(v) {
      forall i | 0 <= i < |u| ensures u[i] == v[i] || (Dashed(u[i]) && Dashed(v[i])) {
        assert HrefOf(u)[i] == HrefOf(v)[i];
      }
    }
    if Confusable(u, v) {
      forall i | 0 <= i < |HrefOf(u)| ensures HrefOf(u)[i] == HrefOf(v)[i] {
        if i >= |u| { assert HrefOf(u)[i] == HrefOf(u)[|u|..][i - |u|] && HrefOf(v)[i] == HrefOf(v)[|v|..][i - |v|]; }
      }
    }
  }

  predicate NoneConfusable(uids: set<string>) {
    forall u, v :: u in uids && v in uids && Confusable(u, v) ==> u == v
  }

  lemma {:induction false} DistinctHrefsIff(uids: set<string>)
    requires "" !in uids
    ensures DistinctHrefs(uids) <==> NoneConfusable(uids)
  {
    forall u, v | u in uids && v in uids ensures HrefOf(u) == HrefOf(v) <==> Confusable(u, v) { SameHrefIff(u, v); }
  }

  lemma {:induction false} AllowedNotConfusable(uids: set<string>)
    requires forall u, i :: u in uids && 0 <= i < |u| ==> Allowed(u[i])
    ensures NoneConfusable(uids)
  {
    forall u, v | u in uids && v in uids && Confusable(u, v) ensures u == v {
      assert forall i :: 0 <= i < |u| ==> Allowed(u[i]) && Allowed(v[i]);
    }
  }

  /** After a sync there is an object for each feed UID exactly when no two of the
      UIDs are confusable; uniqueness of keys makes it exactly one. */
  lemma {:induction false} OneObjectPerUidIff(w: Surroundings, feed: Component, rows: map<int, Row>, calendarId: int)
    requires Synced(w, feed, rows, calendarId) && UniqueKeys(rows)
    ensures (forall uid :: uid in FeedUids(feed) ==> HasUid(rows, calendarId, uid)) <==> NoneConfusable(FeedUids(feed))
  {
    DistinctHrefsIff(FeedUids(feed));
    ObjectsByHref(w, feed, rows, calendarId);
  }

  /** So a feed whose UIDs hold allowed characters only ends with exactly one object
      for each UID, and no other object. */
  lemma {:induction false} OneObjectPerUid(w: Surroundings, feed: Component, rows: map<int, Row>, calendarId: int, uid: string) returns (id: int)
    requires Synced(w, feed, rows, calendarId) && UniqueKeys(rows) && uid in FeedUids(feed)
    requires forall u, i :: u in FeedUids(feed) && 0 <= i < |u| ==> Allowed(u[i])
    ensures id in rows && rows[id].calendarId == calendarId && rows[id].uid == uid && Mirrored(w, feed, rows[id])
    ensures forall j :: j in rows && rows[j].calendarId == calendarId && rows[j].uid == uid ==> j == id
    ensures forall j :: j in rows && rows[j].calendarId == calendarId ==> rows[j].uid in FeedUids(feed)
  {
    AllowedNotConfusable(FeedUids(feed));
    OneObjectPerUidIff(w, feed, rows, calendarId);
    assert HasUid(rows, calendarId, uid);
    id :| id in rows && rows[id].calendarId == calendarId && rows[id].uid == uid;
    forall j | j in rows && rows[j].calendarId == calendarId ensures Mirrored(w, feed, rows[j]) {
      SyncedRows(w, feed, rows, calendarId, j);
    }
  }

  lemma {:induction false} ObjectsByHref(w: Surroundings, feed: Component, rows: map<int, Row>, calendarId: int)
    requires Synced(w, feed, rows, calendarId) && UniqueKeys(rows)
    ensures (forall uid :: uid in FeedUids(feed) ==> HasUid(rows, calendarId, uid)) <==> DistinctHrefs(FeedUids(feed))
  {
    var uids := FeedUids(feed);
    if DistinctHrefs(uids) {
      forall uid | uid in uids ensures HasUid(rows, calendarId, uid) {
        assert HrefOf(uid) in FeedHrefs(feed) && MirroredAt(w, feed, rows, calendarId, HrefOf(uid));
        var id :| id in rows && At(rows[id], calendarId, HrefOf(uid)) && Mirrored(w, feed, rows[id]);
        assert rows[id].uid == uid;
      }
    }
    if forall uid :: uid in uids ==> HasUid(rows, calendarId, uid) {
      forall u, v | u in uids && v in uids && HrefOf(u) == HrefOf(v) ensures u == v {
        assert HasUid(rows, calendarId, u) && HasUid(rows, calendarId, v);
        var i :| i in rows && rows[i].calendarId == calendarId && rows[i].uid == u;
        var j :| j in rows && rows[j].calendarId == calendarId && rows[j].uid == v;
        assert rows[i].href == rows[j].href;
      }
    }
  }

  lemma {:induction false} UidsSnoc(events: seq<Component>, c: Component)
    ensures UidsOf(events + [c]) == UidsOf(events) + if ValueOf(c, "UID") != "" then {ValueOf(c, "UID")} else {}
  {
    assert forall e :: e in events + [c] <==> e in events || e == c;
  }

  /** The map holds the groups of these events. */
  ghost predicate Grouped(byUid: map<string, seq<Component>>, events: seq<Component>) {
    byUid.Keys == UidsOf(events) && GroupsHeld(byUid, events)
  }

  ghost predicate GroupsHeld(byUid: map<string, seq<Component>>, events: seq<Component>) {
    forall u :: u in byUid ==> byUid[u] == Group(events, u)
  }

  lemma {:induction false} HeldMore(byUid: map<string, seq<Component>>, events: seq<Component>, c: Component)
    requires GroupsHeld(byUid, events)
    requires ValueOf(c, "UID") in byUid || Group(events, ValueOf(c, "UID")) == []
    ensures var uid := ValueOf(c, "UID");
      GroupsHeld(byUid[uid := (if uid in byUid then byUid[uid] else []) + [c]], events + [c])
  {
    var uid := ValueOf(c, "UID");
    forall u | u in byUid || u == uid
      ensures Group(events + [c], u) == if u == uid then Group(events, u) + [c] else Group(events, u)
    {
      GroupSnoc(events, c, u);
    }
  }

  lemma {:induction false} HeldSame(byUid: map<string, seq<Component>>, events: seq<Component>, c: Component)
    requires GroupsHeld(byUid, events) && ValueOf(c, "UID") !in byUid
    ensures GroupsHeld(byUid, events + [c])
  {
    forall u | u in byUid ensures Group(events + [c], u) == Group(events, u) { GroupSnoc(events, c, u); }
  }

  lemma {:induction false} NoGroup(events: seq<Component>, u: string)
    requires u != "" && u !in UidsOf(events)
    ensures Group(events, u) == []
  {
    AbsentGroup(events, u);
  }

  method GroupByUid(children: seq<Component>) returns (byUid: map<string, seq<Component>>)
    ensures Grouped(byUid, Events(children))
  {
    byUid := map[];
    ghost var seen: seq<Component> := [];
    for i := 0 to |children|
      invariant seen == Events(children[..i])
      invariant byUid.Keys == UidsOf(seen) && GroupsHeld(byUid, seen)
    {
      var child := children[i];
      assert children[..i + 1][..i] == children[..i];
      if child.name != VEVENT { continue; }
      UidsSnoc(seen, child);
      var uid := ValueOf(child, "UID");
      if uid == "" {
        HeldSame(byUid, seen, child);
      } else {
        if uid !in byUid { NoGroup(seen, uid); }
        HeldMore(byUid, seen, child);
        byUid := byUid[uid := (if uid in byUid then byUid[uid] else []) + [child]];
      }
      seen := seen + [child];
    }
    assert children[..|children|] == children;
  }

  method EmitResource(w: Surroundings, ghost feed: Component, uid: string, comps: seq<Component>) returns (blob: Option<Blob>)
    requires comps == Group(Events(feed.children), uid)
    ensures blob == w.emit(FeedResource(w, feed, uid))
  {
    var cal := BundleTimezones(Component(VCALENDAR, Header(), comps), w.zones);
    blob := w.emit(cal);
  }

  /** The UIDs whose resource encodes and whose PUT does not fail. */
  ghost predicate Stored(w: Surroundings, feed: Component, faults: Faults, uid: string) {
    w.emit(FeedResource(w, feed, uid)).Some? && faults.put(uid) == {}
  }

  ghost function StoredUids(w: Surroundings, feed: Component, faults: Faults, uids: set<string>): set<string> {
    set u | u in uids && Stored(w, feed, faults, u)
  }

  /** What every step keeps, over the rows that the sync began with. */
  ghost predicate Going(store: Store, w: Surroundings, calendarId: int, before: map<int, Row>, present: bool, hrefs: set<string>)
    reads store
  {
    && Inv(store.State(), w.codec) && (calendarId in store.calendars <==> present)
    && OthersKept(before, store.rows, calendarId) && StillPresent(before, store.rows, calendarId, hrefs)
  }

  lemma {:induction false} PutKeepsCalendars(db: Db, codec: Codec, q: PutRequest)
    ensures PutState(db, codec, q).calendars.Keys == db.calendars.Keys
  {}

  lemma {:induction false} StillPresentOn(a: map<int, Row>, b: map<int, Row>, c: map<int, Row>, calendarId: int, hrefs: set<string>)
    requires StillPresent(a, b, calendarId, hrefs) && StillPresent(b, c, calendarId, hrefs)
    ensures StillPresent(a, c, calendarId, hrefs)
  {}

  lemma {:induction false} PutUpserts(w: Surroundings, feed: Component, faults: Faults, db: Db, q: PutRequest, uid: string, hrefs: set<string>)
    requires Faithful(w) && Inv(db, w.codec) && q.faults == faults.put(uid) && q.calendarId in db.calendars
    requires uid in FeedUids(feed) && Some(q.blob) == w.emit(FeedResource(w, feed, uid))
    requires q.href == HrefOf(uid) && q.newId !in db.rows
    requires Upserted(w, feed, db.rows, q.calendarId, hrefs)
    ensures q.faults == {} ==> PutError(db, w.codec, q) == None
    ensures Upserted(w, feed, PutState(db, w.codec, q).rows, q.calendarId,
                     if Stored(w, feed, faults, uid) then hrefs + {q.href} else hrefs)
  {
    MirrorPut(w, feed, db, q, uid, hrefs);
    if q.faults == {} { MirrorPutAccepted(w, feed, db, q, uid); }
  }

  /** One step of the upsert loop: encode a UID's events and store them. A group
      that does not encode, or cannot be stored, is passed over. */
  method PutOne(store: Store, w: Surroundings, faults: Faults, calendarId: int, feed: Component, uid: string,
                comps: seq<Component>, now: int, ghost before: map<int, Row>, ghost kept: set<string>, ghost hrefs: set<string>)
    returns (href: string, ok: bool)
    requires Faithful(w) && Going(store, w, calendarId, before, calendarId in store.calendars, kept)
    requires uid in FeedUids(feed) && comps == Group(Events(feed.children), uid)
    modifies store
    ensures Going(store, w, calendarId, before, calendarId in old(store.calendars), kept) && href == HrefOf(uid)
    ensures calendarId in old(store.calendars) && Upserted(w, feed, old(store.rows), calendarId, hrefs) ==>
      && (faults.put(uid) == {} ==> ok)
      && Upserted(w, feed, store.rows, calendarId, if Stored(w, feed, faults, uid) then hrefs + {href} else hrefs)
  {
    var base := SanitizeHref(uid);
    href := base + ".ics";
    var blob := EmitResource(w, feed, uid, comps);
    if blob.None? { return href, true; }
    var q := PutRequest(calendarId, href, blob.value, now, w.allocate(store.rows), faults.put(uid));
    ghost var db := store.State();
    PutKeepsInv(db, w.codec, q);
    PutKeepsCalendars(db, w.codec, q);
    PutOthersKept(before, db, w.codec, q);
    PutStillPresent(db, w.codec, q, kept);
    StillPresentOn(before, db.rows, PutState(db, w.codec, q).rows, calendarId, kept);
    if calendarId in store.calendars && Upserted(w, feed, store.rows, calendarId, hrefs) {
      PutUpserts(w, feed, faults, store.State(), q, uid, hrefs);
    }
    var r := store.PutObject(w.codec, q);
    ok := r.Accepted?;
  }

  lemma {:induction false} StoredMore(w: Surroundings, feed: Component, faults: Faults, uids: set<string>, uid: string, stored: set<string>)
    returns (more: set<string>)
    requires stored == HrefsOf(StoredUids(w, feed, faults, uids))
    ensures more == HrefsOf(StoredUids(w, feed, faults, uids + {uid}))
    ensures more == if Stored(w, feed, faults, uid) then stored + {HrefOf(uid)} else stored
  {
    more := HrefsOf(StoredUids(w, feed, faults, uids + {uid}));
  }

  /** How far the upserts have come: those stored are in place, and without faults
      none was refused. */
  ghost predicate Progress(store: Store, w: Surroundings, faults: Faults, calendarId: int, feed: Component, before: map<int, Row>,
                           present: bool, stored: set<string>, rejected: nat)
    reads store
  {
    && Going(store, w, calendarId, before, present, FeedHrefs(feed))
    && (present && Mirror(before, calendarId) ==>
          && Upserted(w, feed, store.rows, calendarId, stored)
          && ((forall uid :: faults.put(uid) == {}) ==> rejected == 0))
  }

  method PutNext(store: Store, w: Surroundings, faults: Faults, calendarId: int, feed: Component, uid: string, comps: seq<Component>,
                 now: int, ghost before: map<int, Row>, ghost present: bool, ghost stored: set<string>, rejected: nat)
    returns (href: string, refused: nat)
    requires Faithful(w) && Progress(store, w, faults, calendarId, feed, before, present, stored, rejected)
    requires uid in FeedUids(feed) && comps == Group(Events(feed.children), uid)
    modifies store
    ensures href == HrefOf(uid)
    ensures Progress(store, w, faults, calendarId, feed, before, present,
                     if Stored(w, feed, faults, uid) then stored + {HrefOf(uid)} else stored, refused)
  {
    var ok;
    href, ok := PutOne(store, w, faults, calendarId, feed, uid, comps, now, before, FeedHrefs(feed), stored);
    refused := if ok then rejected else rejected + 1;
  }

  lemma {:induction false} NothingDone(store: Store, w: Surroundings, faults: Faults, calendarId: int, feed: Component)
    requires Inv(store.State(), w.codec)
    ensures Progress(store, w, faults, calendarId, feed, store.rows, calendarId in store.calendars, {}, 0)
    ensures HrefsOf(StoredUids(w, feed, faults, {})) == {} && HrefsOf({}) == {}
  {}

  /** The upsert half of sync, for every order of the UIDs. */
  method PutFeed(store: Store, w: Surroundings, faults: Faults, calendarId: int, feed: Component,
                 byUid: map<string, seq<Component>>, now: int)
    returns (seen: set<string>, rejected: nat)
    requires Faithful(w) && Inv(store.State(), w.codec)
    requires byUid.Keys == FeedUids(feed) && forall u :: u in byUid ==> byUid[u] == Group(Events(feed.children), u)
    modifies store
    ensures seen == FeedHrefs(feed)
    ensures Progress(store, w, faults, calendarId, feed, old(store.rows), calendarId in old(store.calendars),
                     HrefsOf(StoredUids(w, feed, faults, FeedUids(feed))), rejected)
  {
    ghost var before := store.rows;
    ghost var present := calendarId in store.calendars;
    ghost var stored: set<string> := {};
    ghost var done: set<string> := {};
    var pending := byUid.Keys;
    seen, rejected := {}, 0;
    NothingDone(store, w, faults, calendarId, feed);
    while pending != {}
      invariant pending <= byUid.Keys && done == byUid.Keys - pending && seen == HrefsOf(done)
      invariant stored == HrefsOf(StoredUids(w, feed, faults, done))
      invariant Progress(store, w, faults, calendarId, feed, before, present, stored, rejected)
      decreases pending
    {
      var uid :| uid in pending;
      var href;
      href, rejected := PutNext(store, w, faults, calendarId, feed, uid, byUid[uid], now, before, present, stored, rejected);
      HrefsOfAdd(done, uid);
      stored := StoredMore(w, feed, faults, done, uid, stored);
      seen := seen + {href};
      pending, done := pending - {uid}, done + {uid};
    }
    assert done == FeedUids(feed);
  }

  /** Every object is at one of these hrefs or at one that could not be deleted. */
  ghost predicate CoveredBut(rows: map<int, Row>, calendarId: int, hrefs: set<string>, faults: Faults) {
    forall id :: id in rows && rows[id].calendarId == calendarId ==> rows[id].href in hrefs || faults.delete(rows[id].href) != {}
  }

  /** One step of the removal loop: an object whose href was not seen goes, unless
      its deletion fails. */
  method DeleteOne(store: Store, w: Surroundings, faults: Faults, calendarId: int, feed: Component, href: string, seen: set<string>,
                   ghost before: map<int, Row>, ghost stored: set<string>, ghost pending: set<string>)
    requires Going(store, w, calendarId, before, calendarId in store.calendars, seen) && stored <= seen
    modifies store
    ensures Going(store, w, calendarId, before, calendarId in old(store.calendars), seen)
    ensures Upserted(w, feed, old(store.rows), calendarId, stored) ==> Upserted(w, feed, store.rows, calendarId, stored)
    ensures calendarId in old(store.calendars) && CoveredBut(old(store.rows), calendarId, seen + pending, faults) ==>
      CoveredBut(store.rows, calendarId, seen + (pending - {href}), faults)
  {
    if href in seen { return; }
    var q := DeleteRequest(calendarId, href, faults.delete(href));
    ghost var db := store.State();
    DeleteKeepsInv(db, w.codec, q);
    DeleteOthersKept(before, db, q);
    DeleteStillPresent(db, q, seen);
    StillPresentOn(before, db.rows, DeleteState(db, q).rows, calendarId, seen);
    if Upserted(w, feed, db.rows, calendarId, stored) { MirrorDelete(w, feed, db, q, stored); }
    if calendarId in db.calendars && CoveredBut(db.rows, calendarId, seen + pending, faults) {
      DeleteCovers(db, q, faults, seen, pending);
    }
    var error := store.DeleteObject(q);
  }

  lemma {:induction false} DeleteCovers(db: Db, q: DeleteRequest, faults: Faults, seen: set<string>, pending: set<string>)
    requires q.faults == faults.delete(q.href) && q.calendarId in db.calendars
    requires CoveredBut(db.rows, q.calendarId, seen + pending, faults)
    ensures CoveredBut(DeleteState(db, q).rows, q.calendarId, seen + (pending - {q.href}), faults)
  {
    if q.faults == {} && DeleteError(db, q).Some? {
      assert !Present(db.rows, q.calendarId, q.href);
      forall id | id in db.rows && db.rows[id].calendarId == q.calendarId ensures db.rows[id].href != q.href {
        assert At(db.rows[id], q.calendarId, q.href) ==> Present(db.rows, q.calendarId, q.href);
      }
    }
  }

  method ListHrefs(store: Store, calendarId: int) returns (hrefs: set<string>)
    ensures Covered(store.rows, calendarId, hrefs)
    ensures forall h :: h in hrefs ==> Present(store.rows, calendarId, h)
  {
    hrefs := set id | id in store.rows && store.rows[id].calendarId == calendarId :: store.rows[id].href;
    forall h | h in hrefs ensures Present(store.rows, calendarId, h) {
      var id :| id in store.rows && store.rows[id].calendarId == calendarId && store.rows[id].href == h;
      assert At(store.rows[id], calendarId, h);
    }
  }

  /** The removal half of sync; failing deletions are ignored. */
  method DeleteUnseen(store: Store, w: Surroundings, faults: Faults, calendarId: int, feed: Component, seen: set<string>,
                      ghost before: map<int, Row>, ghost stored: set<string>)
    requires Going(store, w, calendarId, before, calendarId in store.calendars, seen) && stored <= seen
    modifies store
    ensures Going(store, w, calendarId, before, calendarId in old(store.calendars), seen)
    ensures calendarId in old(store.calendars) ==> CoveredBut(store.rows, calendarId, seen, faults)
    ensures Upserted(w, feed, old(store.rows), calendarId, stored) ==> Upserted(w, feed, store.rows, calendarId, stored)
  {
    ghost var listed := store.rows;
    ghost var present := calendarId in store.calendars;
    var pending := ListHrefs(store, calendarId);
    while pending != {}
      invariant Going(store, w, calendarId, before, present, seen)
      invariant present ==> CoveredBut(store.rows, calendarId, seen + pending, faults)
      invariant Upserted(w, feed, listed, calendarId, stored) ==> Upserted(w, feed, store.rows, calendarId, stored)
      decreases pending
    {
      var href :| href in pending;
      DeleteOne(store, w, faults, calendarId, feed, href, seen, before, stored, pending);
      pending := pending - {href};
    }
    assert seen + pending == seen;
  }

  /** One synchronisation. Whatever the feed and whichever statements fail, other
      calendars keep their objects, no object at a href of the feed is lost, a
      mirror stays a mirror, and an empty feed changes nothing. The feed resources
      that encode and can be stored end in their places, and every other object
      goes whose deletion does not fail. Without faults, and for a feed that
      encodes, the calendar ends as the mirror of the feed with no refusal. */
  method Sync(store: Store, w: Surroundings, faults: Faults, calendarId: int, feed: Component, now: int)
    returns (rejected: nat, failed: bool)
    requires Faithful(w) && Inv(store.State(), w.codec)
    modifies store
    ensures Going(store, w, calendarId, old(store.rows), calendarId in old(store.calendars), FeedHrefs(feed))
    ensures FeedUids(feed) == {} ==> store.State() == old(store.State()) && rejected == 0 && !failed
    ensures FeedUids(feed) != {} ==> failed == faults.listing
    ensures Mirror(old(store.rows), calendarId) && calendarId in old(store.calendars) ==>
      && Mirror(store.rows, calendarId)
      && (FeedUids(feed) != {} ==>
            Upserted(w, feed, store.rows, calendarId, HrefsOf(StoredUids(w, feed, faults, FeedUids(feed)))))
    ensures FeedUids(feed) != {} && !failed && calendarId in old(store.calendars) ==>
      CoveredBut(store.rows, calendarId, FeedHrefs(feed), faults)
    ensures FeedUids(feed) != {} && Mirror(old(store.rows), calendarId) && calendarId in old(store.calendars)
            && NoFaults(faults) && AllEmit(w, feed) ==>
      rejected == 0 && Synced(w, feed, store.rows, calendarId)
  {
    var byUid := GroupByUid(feed.children);
    if |byUid.Keys| == 0 { return 0, false; }
    ghost var before := store.rows;
    ghost var stored := HrefsOf(StoredUids(w, feed, faults, FeedUids(feed)));
    var seen;
    seen, rejected := PutFeed(store, w, faults, calendarId, feed, byUid, now);
    if faults.listing { return rejected, true; }
    DeleteUnseen(store, w, faults, calendarId, feed, seen, before, stored);
    failed := false;
    if NoFaults(faults) && AllEmit(w, feed) { FaultlessSync(w, feed, faults, store.rows, calendarId); }
  }

  lemma {:induction false} FaultlessSync(w: Surroundings, feed: Component, faults: Faults, rows: map<int, Row>, calendarId: int)
    requires NoFaults(faults) && AllEmit(w, feed)
    ensures StoredUids(w, feed, faults, FeedUids(feed)) == FeedUids(feed)
    ensures CoveredBut(rows, calendarId, FeedHrefs(feed), faults) ==> Covered(rows, calendarId, FeedHrefs(feed))
  {}

  /** Distinct UIDs may share a href, and then one of them has no object. */
  lemma {:induction false} SharedHref()
    ensures HrefOf("a/b") == HrefOf("a-b") && !NoneConfusable({"a/b", "a-b"})
  {
    SameHrefIff("a/b", "a-b");
    assert "a/b"[1] != "a-b"[1];
  }
}
