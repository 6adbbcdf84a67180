/** One calendar of a share (internal/share/share.go): the stored objects that the
    index keeps for the window, through the view filter. */
module ShareRendering {
  import opened Components
  import opened Instants
  import opened ViewRules
  import opened Timezones
  import opened ViewFilter
  import opened ViewMeaning
  import opened ViewCalendar
  import opened OccurrenceIndex
  import opened ObjectStore

  /** Objects as a calendar stores them: they parse, their bounds are those found
      at parsing, and no two have the same UID. */
  ghost predicate Indexed(w: World, objs: seq<Stored>) {
    && (forall i :: 0 <= i < |objs| ==> Bounded(w, objs[i]))
    && (forall i, j :: 0 <= i < j < |objs| ==> UidOf(w, objs[i]) != UidOf(w, objs[j]))
  }

  predicate Bounded(w: World, o: Stored) {
    ParseCalendar(w.k, w.engine, o.cal).Ok? &&
    var p := ParseCalendar(w.k, w.engine, o.cal).parsed; o.first == p.first && o.last == p.last
  }

  function UidOf(w: World, o: Stored): string {
    match ParseCalendar(w.k, w.engine, o.cal)
    case Ok(p) => p.uid
    case Err(_) => ""
  }

  /** What the view filter is given. */
  function Combined(objs: seq<Stored>, window: Range): Component {
    Component(VCALENDAR, map[], Selected(objs, window))
  }

  lemma {:induction false} EventsTimed(children: seq<Component>, c: Component)
    ensures c in Events(children) ==> c in Timed(children) && c.name == VEVENT
  {
    if children != [] {
      EventsTimed(children[..|children| - 1], c);
    }
  }

  lemma {:induction false} EventsHaveUid(w: World, o: Stored)
    requires Bounded(w, o)
    ensures forall c :: c in Events(o.cal.children) ==> ValueOf(c, "UID") == UidOf(w, o)
  {
    ParseAcceptsOneSeries(w.k, w.engine, o.cal);
    forall c | c in Events(o.cal.children) ensures ValueOf(c, "UID") == UidOf(w, o) {
      EventsTimed(o.cal.children, c);
      var i :| 0 <= i < |Timed(o.cal.children)| && Timed(o.cal.children)[i] == c;
    }
  }

  lemma {:induction false} ObjectGroup(w: World, o: Stored, uid: string)
    requires Bounded(w, o)
    ensures Group(Events(o.cal.children), uid) == if uid == UidOf(w, o) then Events(o.cal.children) else []
  {
    EventsHaveUid(w, o);
    forall i | 0 <= i < |Events(o.cal.children)| ensures ValueOf(Events(o.cal.children)[i], "UID") == UidOf(w, o) {
      assert Events(o.cal.children)[i] in Events(o.cal.children);
    }
    GroupUniform(Events(o.cal.children), UidOf(w, o), uid);
  }

  /** What one object gives to the selection. */
  function Share(o: Stored, window: Range): seq<Component> {
    if Overlaps(o.first, o.last, window) then Events(o.cal.children) else []
  }

  /** The event series of an object is that of one UID. */
  ghost predicate OfUid(o: Stored, u: string) {
    forall uid :: Group(Events(o.cal.children), uid) == if uid == u then Events(o.cal.children) else []
  }

  lemma {:induction false} BoundedOfUid(w: World, o: Stored)
    requires Bounded(w, o)
    ensures OfUid(o, UidOf(w, o))
  {
    forall uid ensures Group(Events(o.cal.children), uid) == if uid == UidOf(w, o) then Events(o.cal.children) else [] {
      ObjectGroup(w, o, uid);
    }
  }

  lemma {:induction false} SelectedGroupSnoc(objs: seq<Stored>, last: Stored, window: Range, uid: string, u: string)
    requires OfUid(last, u)
    ensures Group(Selected(objs + [last], window), uid) ==
        Group(Selected(objs, window), uid) + if uid == u then Share(last, window) else []
  {
    assert (objs + [last])[..|objs|] == objs;
    GroupConcat(Selected(objs, window), Share(last, window), uid);
  }

  lemma {:induction false} SelectedNone(objs: seq<Stored>, uids: seq<string>, window: Range, uid: string)
    requires |uids| == |objs| && forall i :: 0 <= i < |objs| ==> OfUid(objs[i], uids[i]) && uids[i] != uid
    ensures Group(Selected(objs, window), uid) == []
  {
    if objs != [] {
      var n := |objs| - 1;
      SelectedNone(objs[..n], uids[..n], window, uid);
      assert objs == objs[..n] + [objs[n]];
      SelectedGroupSnoc(objs[..n], objs[n], window, uid, uids[n]);
    }
  }

  /** The selection's series of one UID is what its object gave. */
  lemma {:induction false} SelectedOne(objs: seq<Stored>, uids: seq<string>, window: Range, i: nat)
    requires |uids| == |objs| && forall j :: 0 <= j < |objs| ==> OfUid(objs[j], uids[j])
    requires i < |objs| && forall j :: 0 <= j < |objs| && j != i ==> uids[j] != uids[i]
    ensures Group(Selected(objs, window), uids[i]) == Share(objs[i], window)
  {
    var n := |objs| - 1;
    assert objs == objs[..n] + [objs[n]];
    SelectedGroupSnoc(objs[..n], objs[n], window, uids[i], uids[n]);
    if i == n {
      SelectedNone(objs[..n], uids[..n], window, uids[n]);
    } else {
      SelectedOne(objs[..n], uids[..n], window, i);
    }
  }

  function UidsOf(w: World, objs: seq<Stored>): seq<string> {
    seq(|objs|, i requires 0 <= i < |objs| => UidOf(w, objs[i]))
  }

  lemma {:induction false} EachOfUid(w: World, objs: seq<Stored>)
    requires Indexed(w, objs)
    ensures forall j :: 0 <= j < |objs| ==> OfUid(objs[j], UidsOf(w, objs)[j])
  {
    forall j | 0 <= j < |objs| ensures OfUid(objs[j], UidsOf(w, objs)[j]) {
      BoundedOfUid(w, objs[j]);
    }
  }

  /** The selection's series of an object's UID is what the object gave. */
  lemma {:induction false} SelectedGroup(w: World, objs: seq<Stored>, window: Range, i: nat)
    requires Indexed(w, objs) && i < |objs|
    ensures Group(Selected(objs, window), UidOf(w, objs[i])) == Share(objs[i], window)
  {
    EachOfUid(w, objs);
    SelectedOne(objs, UidsOf(w, objs), window, i);
  }

  lemma {:induction false} SelectedEvents(objs: seq<Stored>, window: Range)
    ensures Events(Selected(objs, window)) == Selected(objs, window)
  {
    if objs != [] {
      var n := |objs| - 1;
      SelectedEvents(objs[..n], window);
      EventsConcat(Selected(objs[..n], window), Share(objs[n], window));
      forall i | 0 <= i < |Share(objs[n], window)| ensures Share(objs[n], window)[i].name == VEVENT {
        EventsTimed(objs[n].cal.children, Share(objs[n], window)[i]);
      }
      EventsOfAllEvents(Share(objs[n], window));
    }
  }

  lemma {:induction false} SelectedFrom(objs: seq<Stored>, window: Range, c: Component) returns (i: nat)
    requires c in Selected(objs, window)
    ensures i < |objs| && Overlaps(objs[i].first, objs[i].last, window) && c in Events(objs[i].cal.children)
  {
    var n := |objs| - 1;
    if c in Selected(objs[..n], window) {
      i := SelectedFrom(objs[..n], window, c);
    } else {
      i := n;
    }
  }

  /** An object that the window reaches and that holds the event. */
  ghost predicate Gives(w: World, o: Stored, window: Range, c: Component) {
    Reaches(w.k, w.engine, o.cal, window) && c in Events(o.cal.children)
  }

  /** The selection holds the events of the objects that the window reaches, and no
      others. */
  lemma {:induction false} SelectedExactly(w: World, objs: seq<Stored>, window: Range, c: Component)
    requires FaithfulEngine(w.engine) && forall i :: 0 <= i < |objs| ==> Bounded(w, objs[i])
    ensures c in Selected(objs, window) <==> exists i :: 0 <= i < |objs| && Gives(w, objs[i], window, c)
  {
    if c in Selected(objs, window) {
      var i := SelectedFrom(objs, window, c);
      KeptExactly(w.k, w.engine, objs[i].cal, window);
      assert Gives(w, objs[i], window, c);
    }
    if i :| 0 <= i < |objs| && Gives(w, objs[i], window, c) {
      KeptExactly(w.k, w.engine, objs[i].cal, window);
      SelectedHolds(objs, window, i, c);
    }
  }

  /** An object that the window reaches permits the instance. */
  ghost predicate Offered(w: World, o: Stored, window: Range, spec: Spec, inst: Instance) {
    Reaches(w.k, w.engine, o.cal, window) && Permitted(w, Events(o.cal.children), Effective(spec), spec, inst)
  }

  /** A share shows an instance if and only if an object that the window reaches
      permits it. */
  lemma {:induction false} SharedExactly(w: World, objs: seq<Stored>, window: Range, spec: Spec, zones: ZoneDb, inst: Instance)
    requires Indexed(w, objs) && ManagedOverrides(spec) && WellFormedZones(zones) && WellWritten(w, Selected(objs, window), spec)
    requires FaithfulEngine(w.engine)
    ensures Seen(w, Events(Applied(Combined(objs, window), spec, zones).children), inst) <==>
      exists i :: 0 <= i < |objs| && Offered(w, objs[i], window, spec, inst)
  {
    SelectedEvents(objs, window);
    ApplyMeaning(w, Combined(objs, window), spec, zones, inst);
    if uid :| Permitted(w, Group(Selected(objs, window), uid), Effective(spec), spec, inst) {
      PermittedFromObject(w, objs, window, spec, inst, uid);
    }
    if i :| 0 <= i < |objs| && Offered(w, objs[i], window, spec, inst) {
      SelectedGroup(w, objs, window, i);
      KeptExactly(w.k, w.engine, objs[i].cal, window);
      assert Permitted(w, Group(Selected(objs, window), UidOf(w, objs[i])), Effective(spec), spec, inst);
    }
  }

  lemma {:induction false} PermittedFromObject(w: World, objs: seq<Stored>, window: Range, spec: Spec, inst: Instance, uid: string)
    requires FaithfulEngine(w.engine) && Indexed(w, objs)
    requires Permitted(w, Group(Selected(objs, window), uid), Effective(spec), spec, inst)
    ensures exists i :: 0 <= i < |objs| && Offered(w, objs[i], window, spec, inst)
  {
    var g, j :| Shows(w, Group(Selected(objs, window), uid), g, j);
    ShowsNonEmpty(w, Group(Selected(objs, window), uid), g, j);
    if forall i :: 0 <= i < |objs| ==> UidOf(w, objs[i]) != uid {
      EachOfUid(w, objs);
      SelectedNone(objs, UidsOf(w, objs), window, uid);
      assert false;
    }
    var i :| 0 <= i < |objs| && UidOf(w, objs[i]) == uid;
    SelectedGroup(w, objs, window, i);
    KeptExactly(w.k, w.engine, objs[i].cal, window);
    assert Offered(w, objs[i], window, spec, inst);
  }

  /** Nothing is lost: of an object with an occurrence that touches the window,
      every permitted instance is seen in the share. */
  lemma {:induction false} TouchingObjectShared(w: World, objs: seq<Stored>, window: Range, i: nat, start: Moment, dur: int, t: int,
                                                spec: Spec, zones: ZoneDb, inst: Instance)
    requires Indexed(w, objs) && ManagedOverrides(spec) && WellFormedZones(zones) && WellWritten(w, Selected(objs, window), spec)
    requires FaithfulEngine(w.engine) && i < |objs| && Occurs(w.k, w.engine, objs[i].cal, t)
    requires WithinIndex(w.k, objs[i].cal, start, dur, t) && t <= window.end && t + dur >= window.start
    requires Permitted(w, Events(objs[i].cal.children), Effective(spec), spec, inst)
    ensures Seen(w, Events(Applied(Combined(objs, window), spec, zones).children), inst)
  {
    IndexNeverHides(w.k, w.engine, objs[i].cal, window, start, dur, t);
    KeptExactly(w.k, w.engine, objs[i].cal, window);
    assert Offered(w, objs[i], window, spec, inst);
    SharedExactly(w, objs, window, spec, zones, inst);
  }

  // ----- Instances of a recurring master -----

  /** The instance of an included master at t, with no override in its slot. */
  ghost predicate MasterInstanceAt(w: World, comps: seq<Component>, spec: Spec, t: int) {
    && IsRecurring(comps) && !Dropped(Master(comps).value, spec) && Generates(w, Master(comps).value, t)
    && !Overridden(w.k, Overrides(comps), HomeZone(w.k, Master(comps).value), t)
  }

  lemma {:induction false} TimedAreEvents(children: seq<Component>)
    requires forall c :: c in Timed(children) ==> c.name == VEVENT
    ensures Timed(children) == Events(children)
  {
    if children != [] {
      var n := |children| - 1;
      forall c | c in Timed(children[..n]) ensures c.name == VEVENT { assert c in Timed(children); }
      TimedAreEvents(children[..n]);
      if children[n].name == VTODO {
        assert children[n] in Timed(children);
      }
    }
  }

  lemma {:induction false} EventObjectTimed(w: World, o: Stored)
    requires Bounded(w, o) && Events(o.cal.children) != []
    ensures Timed(o.cal.children) == Events(o.cal.children)
  {
    ParseAcceptsOneSeries(w.k, w.engine, o.cal);
    var comps, first := Timed(o.cal.children), Events(o.cal.children)[0];
    EventsTimed(o.cal.children, first);
    var i :| 0 <= i < |comps| && comps[i] == first;
    forall c | c in comps ensures c.name == VEVENT {
      var j :| 0 <= j < |comps| && comps[j] == c;
    }
    TimedAreEvents(o.cal.children);
  }

  /** What the filter calls an instance of the master, the index calls an
      occurrence of the object. */
  lemma {:induction false} MasterInstanceOccurs(w: World, o: Stored, spec: Spec, t: int)
    requires Bounded(w, o) && MasterInstanceAt(w, Events(o.cal.children), spec, t)
    requires var m := Master(Events(o.cal.children)).value; var rule := ValueOf(m, "RRULE");
      rule != "" && StartOf(w.k, m).Some? && w.engine.between(StartOf(w.k, m).value, rule, t, t).Some?
    ensures Occurs(w.k, w.engine, o.cal, t)
  {
    EventObjectTimed(w, o);
  }

  /** Every permitted instance of a master that touches the window is seen in the
      share, with the face that the view gives it. */
  lemma {:induction false} MasterInstanceShared(w: World, objs: seq<Stored>, window: Range, i: nat, start: Moment, dur: int, t: int,
                                                spec: Spec, zones: ZoneDb)
    requires Indexed(w, objs) && ManagedOverrides(spec) && WellFormedZones(zones) && WellWritten(w, Selected(objs, window), spec)
    requires FaithfulEngine(w.engine) && i < |objs| && WithinIndex(w.k, objs[i].cal, start, dur, t)
    requires t <= window.end && t + dur >= window.start
    requires MasterInstanceAt(w, Events(objs[i].cal.children), spec, t)
    requires var rule := ValueOf(Master(Events(objs[i].cal.children)).value, "RRULE");
      rule != "" && w.engine.between(start, rule, t, t).Some?
    ensures var m := Master(Events(objs[i].cal.children)).value;
      Seen(w, Events(Applied(Combined(objs, window), spec, zones).children),
           Instance(t, Face(Filtered(m, Effective(spec), BusyLabel(spec)))))
  {
    var comps := Events(objs[i].cal.children);
    var m := Master(comps).value;
    EventObjectTimed(w, objs[i]);
    MasterInstanceOccurs(w, objs[i], spec, t);
    assert Shows(w, comps, m, Instance(t, Face(m)));
    TouchingObjectShared(w, objs, window, i, start, dur, t, spec, zones,
                         Instance(t, Face(Filtered(m, Effective(spec), BusyLabel(spec)))));
  }

  // ----- A share over the store -----

  /** The ids of a calendar's rows, each once, in whatever order they are listed. */
  ghost predicate Lists(rows: map<int, Row>, calendarId: int, ids: seq<int>) {
    && (forall i, j :: 0 <= i < j < |ids| ==> ids[i] != ids[j])
    && (forall id :: id in ids <==> id in rows && rows[id].calendarId == calendarId)
  }

  /** What the renderer reads of a row: the decoded body and the two bounds. */
  function ReadRow(codec: Codec, r: Row): Stored
    requires Describes(r, codec)
  {
    Stored(codec.decode(r.blob).value, r.first, r.last)
  }

  function ReadRows(codec: Codec, rows: map<int, Row>, ids: seq<int>): seq<Stored>
    requires forall i :: 0 <= i < |ids| ==> ids[i] in rows && Describes(rows[ids[i]], codec)
  {
    seq(|ids|, i requires 0 <= i < |ids| => ReadRow(codec, rows[ids[i]]))
  }

  lemma {:induction false} RowBounded(codec: Codec, r: Row)
    requires Describes(r, codec)
    ensures Bounded(World(codec.k, codec.e), ReadRow(codec, r)) && UidOf(World(codec.k, codec.e), ReadRow(codec, r)) == r.uid
  {}

  lemma {:induction false} ListedRow(codec: Codec, rows: map<int, Row>, calendarId: int, ids: seq<int>, i: nat)
    requires Denormalised(rows, codec) && Lists(rows, calendarId, ids) && i < |ids|
    ensures ids[i] in rows && rows[ids[i]].calendarId == calendarId && Describes(rows[ids[i]], codec)
  {
    var id := ids[i];
    assert id in ids;
    assert id in rows && Describes(rows[id], codec);
  }

  /** The rows of a calendar are read as indexed objects. */
  lemma {:induction false} RowsIndexed(codec: Codec, rows: map<int, Row>, calendarId: int, ids: seq<int>)
    requires UniqueKeys(rows) && Denormalised(rows, codec) && Lists(rows, calendarId, ids)
    ensures forall i :: 0 <= i < |ids| ==> ids[i] in rows && Describes(rows[ids[i]], codec)
    ensures Indexed(World(codec.k, codec.e), ReadRows(codec, rows, ids))
  {
    forall i | 0 <= i < |ids| ensures ids[i] in rows && rows[ids[i]].calendarId == calendarId && Describes(rows[ids[i]], codec) {
      ListedRow(codec, rows, calendarId, ids, i);
    }
    forall i | 0 <= i < |ids| ensures Bounded(World(codec.k, codec.e), ReadRows(codec, rows, ids)[i])
      && UidOf(World(codec.k, codec.e), ReadRows(codec, rows, ids)[i]) == rows[ids[i]].uid
    {
      RowBounded(codec, rows[ids[i]]);
    }
  }

  /** A stored row that the window reaches permits the instance. */
  ghost predicate RowOffers(codec: Codec, r: Row, window: Range, spec: Spec, inst: Instance) {
    match codec.decode(r.blob)
    case None => false
    case Some(cal) =>
      && Reaches(codec.k, codec.e, cal, window)
      && Permitted(World(codec.k, codec.e), Events(cal.children), Effective(spec), spec, inst)
  }

  lemma {:induction false} RowOffersIff(codec: Codec, r: Row, window: Range, spec: Spec, inst: Instance)
    requires Describes(r, codec)
    ensures Offered(World(codec.k, codec.e), ReadRow(codec, r), window, spec, inst) <==> RowOffers(codec, r, window, spec, inst)
  {}

  /** In every reachable store a share of a calendar shows an instance if and only if
      a row of the calendar whose object the window reaches permits it. */
  lemma {:induction false} StoreSharedExactly(codec: Codec, calendarIds: set<int>, rs: seq<Request>, calendarId: int, ids: seq<int>,
                                              window: Range, spec: Spec, zones: ZoneDb, inst: Instance)
    requires FaithfulEngine(codec.e) && ManagedOverrides(spec) && WellFormedZones(zones)
    requires Lists(Run(Fresh(calendarIds), codec, rs).rows, calendarId, ids)
    ensures var rows, w := Run(Fresh(calendarIds), codec, rs).rows, World(codec.k, codec.e);
      && (forall i :: 0 <= i < |ids| ==> ids[i] in rows && Describes(rows[ids[i]], codec))
      && var objs := ReadRows(codec, rows, ids);
         WellWritten(w, Selected(objs, window), spec) ==>
           (Seen(w, Events(Applied(Combined(objs, window), spec, zones).children), inst) <==>
            exists id :: id in rows && rows[id].calendarId == calendarId && RowOffers(codec, rows[id], window, spec, inst))
  {
    ReachableStore(codec, calendarIds, rs, calendarId, "");
    var rows := Run(Fresh(calendarIds), codec, rs).rows;
    RowsIndexed(codec, rows, calendarId, ids);
    if WellWritten(World(codec.k, codec.e), Selected(ReadRows(codec, rows, ids), window), spec) {
      RowsSharedExactly(codec, rows, calendarId, ids, window, spec, zones, inst);
    }
  }

  lemma {:induction false} RowsSharedExactly(codec: Codec, rows: map<int, Row>, calendarId: int, ids: seq<int>,
                                             window: Range, spec: Spec, zones: ZoneDb, inst: Instance)
    requires FaithfulEngine(codec.e) && ManagedOverrides(spec) && WellFormedZones(zones)
    requires Lists(rows, calendarId, ids) && forall i :: 0 <= i < |ids| ==> ids[i] in rows && Describes(rows[ids[i]], codec)
    requires var objs, w := ReadRows(codec, rows, ids), World(codec.k, codec.e);
      Indexed(w, objs) && WellWritten(w, Selected(objs, window), spec)
    ensures var objs, w := ReadRows(codec, rows, ids), World(codec.k, codec.e);
      Seen(w, Events(Applied(Combined(objs, window), spec, zones).children), inst) <==>
      exists id :: id in rows && rows[id].calendarId == calendarId && RowOffers(codec, rows[id], window, spec, inst)
  {
    var objs, w := ReadRows(codec, rows, ids), World(codec.k, codec.e);
    SharedExactly(w, objs, window, spec, zones, inst);
    if i :| 0 <= i < |objs| && Offered(w, objs[i], window, spec, inst) {
      RowOfOffer(codec, rows, calendarId, ids, i, window, spec, inst);
    }
    if id :| id in rows && rows[id].calendarId == calendarId && RowOffers(codec, rows[id], window, spec, inst) {
      var i := OfferOfRow(codec, rows, calendarId, ids, id, window, spec, inst);
    }
  }

  lemma {:induction false} RowOfOffer(codec: Codec, rows: map<int, Row>, calendarId: int, ids: seq<int>, i: nat,
                                      window: Range, spec: Spec, inst: Instance)
    requires Lists(rows, calendarId, ids) && forall j :: 0 <= j < |ids| ==> ids[j] in rows && Describes(rows[ids[j]], codec)
    requires i < |ids| && Offered(World(codec.k, codec.e), ReadRows(codec, rows, ids)[i], window, spec, inst)
    ensures rows[ids[i]].calendarId == calendarId && RowOffers(codec, rows[ids[i]], window, spec, inst)
  {
    assert ids[i] in ids;
    RowOffersIff(codec, rows[ids[i]], window, spec, inst);
  }

  lemma {:induction false} OfferOfRow(codec: Codec, rows: map<int, Row>, calendarId: int, ids: seq<int>, id: int,
                                      window: Range, spec: Spec, inst: Instance) returns (i: nat)
    requires Lists(rows, calendarId, ids) && forall j :: 0 <= j < |ids| ==> ids[j] in rows && Describes(rows[ids[j]], codec)
    requires id in rows && rows[id].calendarId == calendarId && RowOffers(codec, rows[id], window, spec, inst)
    ensures i < |ids| && Offered(World(codec.k, codec.e), ReadRows(codec, rows, ids)[i], window, spec, inst)
  {
    i :| 0 <= i < |ids| && ids[i] == id;
    RowOffersIff(codec, rows[id], window, spec, inst);
  }
}
