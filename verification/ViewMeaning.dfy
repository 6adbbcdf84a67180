/** What a series shows, and that filtering shows exactly the instances whose
    governing component the include flags let through. */
module ViewMeaning {
  import opened Components
  import opened Instants
  import opened ViewRules
  import opened Timezones
  import opened ViewFilter

  // ----- Denotation -----

  /** One visible instance: when it starts and what a reader sees of it. */
  datatype Instance = Instance(start: int, face: Component)

  /** The properties that say which instances there are, not what one shows. */
  const BOOKKEEPING: set<string> := {"UID", "RRULE", "RDATE", "EXDATE", "RECURRENCE-ID"}

  function Face(c: Component): Component {
    c.(props := c.props - BOOKKEEPING)
  }

  datatype World = World(k: Calendrics, engine: RuleEngine)

  function HomeZone(k: Calendrics, master: Component): Zone {
    match StartOf(k, master)
    case Some(start) => start.zone
    case None => Utc
  }

  /** The instant of the series an override stands for. */
  function Slot(k: Calendrics, override: Component, home: Zone): Option<int> {
    ReadStamp(k, ValueOf(override, RECURRENCE_ID), ZoneOf(k, TzidOf(override, RECURRENCE_ID), home))
  }

  /** RRULE minus EXDATE. */
  predicate Generates(w: World, master: Component, t: int) {
    match StartOf(w.k, master)
    case None => false
    case Some(start) =>
      w.engine.occurs(start, ValueOf(master, "RRULE"), t) && t !in ExdateInstants(w.k, master, start.zone)
  }

  predicate Overridden(k: Calendrics, overrides: seq<Component>, home: Zone, t: int) {
    exists i :: 0 <= i < |overrides| && Slot(k, overrides[i], home) == Some(t)
  }

  ghost predicate ShowsItself(k: Calendrics, c: Component, i: Instance) {
    StartOf(k, c).Some? && i == Instance(StartOf(k, c).value.at, Face(c))
  }

  /** Component g of a series with one UID shows instance i: an override shows
      itself, a recurring master shows the slots it generates and no override
      takes, and components of a series that does not recur show themselves. */
  ghost predicate Shows(w: World, comps: seq<Component>, g: Component, i: Instance) {
    if !IsRecurring(comps) then
      g in comps && ShowsItself(w.k, g, i)
    else
      var master := Master(comps).value;
      || (g in Overrides(comps) && ShowsItself(w.k, g, i))
      || (g == master && i.face == Face(master) && Generates(w, master, i.start)
          && !Overridden(w.k, Overrides(comps), HomeZone(w.k, master), i.start))
  }

  /** What a list of events shows, UID by UID. */
  ghost predicate Seen(w: World, events: seq<Component>, i: Instance) {
    exists uid, g :: Shows(w, Group(events, uid), g, i)
  }

  /** What a series should show: the instances whose governing component passes
      the flags, each with that component's filtered face. */
  ghost predicate Permitted(w: World, comps: seq<Component>, rules: Rules, spec: Spec, i: Instance) {
    exists g, j :: Shows(w, comps, g, j) && !Dropped(g, spec) && i == Instance(j.start, Face(Filtered(g, rules, BusyLabel(spec))))
  }

  // ----- Hypotheses on the source -----

  predicate Unmanaged(rules: Rules) {
    forall f :: f in STRUCTURAL ==> RuleFor(rules, f) == None
  }

  ghost predicate UniqueMaster(comps: seq<Component>) {
    forall i, j :: 0 <= i < j < |comps| ==> Has(comps[i], RECURRENCE_ID) || Has(comps[j], RECURRENCE_ID)
  }

  /** The events of one UID, at most one of them without RECURRENCE-ID. */
  ghost predicate OneSeries(comps: seq<Component>, uid: string) {
    && (forall c :: c in comps ==> ValueOf(c, "UID") == uid && c.name == VEVENT)
    && UniqueMaster(comps)
  }

  /** An EXDATE copied from one of these overrides reads to t under the master's
      TZID, whatever zone the RECURRENCE-ID was in. */
  predicate Erased(k: Calendrics, lost: seq<Component>, master: Component, t: int) {
    exists n :: 0 <= n < |lost| && t in ReadExdate(k, Exdate(lost[n], TzidOf(master, "DTSTART")), HomeZone(k, master))
  }

  /** For an included recurring master: among its instants, the copied EXDATEs
      read to those that the dropped overrides stand for, and to no others. */
  ghost predicate SlotsReadAlike(w: World, comps: seq<Component>, spec: Spec) {
    IsRecurring(comps) && !Dropped(Master(comps).value, spec) ==>
      var m := Master(comps).value; var lost := Sift(Overrides(comps), spec, true);
      forall t :: Generates(w, m, t) ==> (Erased(w.k, lost, m, t) <==> Overridden(w.k, lost, HomeZone(w.k, m), t))
  }

  // ----- Filtering keeps structure -----

  lemma {:induction false} FilteredStructure(c: Component, rules: Rules, busy: string, field: string)
    requires Unmanaged(rules) && field in STRUCTURAL
    ensures var out := Filtered(c, rules, busy);
      && Get(out.props, field) == Get(c.props, field) && AllOf(out.props, field) == AllOf(c.props, field)
      && Has(out, field) == Has(c, field) && ValueOf(out, field) == ValueOf(c, field) && TzidOf(out, field) == TzidOf(c, field)
  {
    assert RuleFor(rules, field) == None;
  }

  lemma {:induction false} FilteredStart(k: Calendrics, c: Component, rules: Rules, busy: string)
    requires Unmanaged(rules) && c.name == VEVENT
    ensures StartOf(k, Filtered(c, rules, busy)) == StartOf(k, c)
  {
    FilteredStructure(c, rules, busy, "DTSTART");
  }

  lemma {:induction false} PromotedShape(k: Calendrics, c: Component, rules: Rules, busy: string)
    requires Unmanaged(rules) && c.name == VEVENT
    ensures var p := Promoted(c, rules, busy);
      && Face(p) == Face(Filtered(c, rules, busy)) && StartOf(k, p) == StartOf(k, c)
      && !Has(p, "RRULE") && !Has(p, RECURRENCE_ID) && ValueOf(p, "UID") == PromotedUid(c)
  {
    var p, f := Promoted(c, rules, busy), Filtered(c, rules, busy);
    FilteredStart(k, c, rules, busy);
    assert Get(p.props, "DTSTART") == Get(f.props, "DTSTART");
    assert Face(p).props == Face(f).props;
  }

  lemma {:induction false} WithExdatesFace(m: Component, lost: seq<Component>, tzid: string)
    ensures var out := WithExdates(m, lost, tzid);
      && Face(out) == Face(m) && out.name == m.name
      && AllOf(out.props, "EXDATE") == AllOf(m.props, "EXDATE") + HidingExdates(lost, tzid)
      && (forall f :: f != "EXDATE" ==> Get(out.props, f) == Get(m.props, f))
      && (forall f :: f != "EXDATE" ==> Has(out, f) == Has(m, f) && ValueOf(out, f) == ValueOf(m, f) && TzidOf(out, f) == TzidOf(m, f))
  {
    var out := WithExdates(m, lost, tzid);
    if lost == [] {
      assert HidingExdates(lost, tzid) == [];
    } else {
      assert Face(out).props == Face(m).props;
    }
  }

  lemma {:induction false} WithExdatesStart(k: Calendrics, m: Component, lost: seq<Component>, tzid: string)
    ensures StartOf(k, WithExdates(m, lost, tzid)) == StartOf(k, m)
  {
    var out := WithExdates(m, lost, tzid);
    assert Get(out.props, "DTSTART") == Get(m.props, "DTSTART") && Get(out.props, "DUE") == Get(m.props, "DUE");
  }

  // ----- Lists -----

  lemma {:induction false} SiftMembers(comps: seq<Component>, spec: Spec, dropped: bool, c: Component)
    ensures c in Sift(comps, spec, dropped) <==> c in comps && Dropped(c, spec) == dropped
  {
    if comps != [] {
      var n := |comps| - 1;
      SiftMembers(comps[..n], spec, dropped, c);
      assert comps == comps[..n] + [comps[n]];
    }
  }

  lemma {:induction false} OverridesMembers(comps: seq<Component>, c: Component)
    ensures c in Overrides(comps) <==> c in comps && Has(c, RECURRENCE_ID)
  {
    if comps != [] {
      var n := |comps| - 1;
      OverridesMembers(comps[..n], c);
      assert comps == comps[..n] + [comps[n]];
    }
  }

  lemma {:induction false} OnlyMaster(comps: seq<Component>, c: Component)
    requires UniqueMaster(comps) && c in comps && !Has(c, RECURRENCE_ID)
    ensures Master(comps) == Some(c)
  {
    MasterMembers(comps);
    var m := Master(comps).value;
    var i :| 0 <= i < |comps| && comps[i] == c;
    var j :| 0 <= j < |comps| && comps[j] == m;
    if i < j { assert Has(comps[j], RECURRENCE_ID); }
    if j < i { assert Has(comps[j], RECURRENCE_ID); }
  }

  lemma {:induction false} SplitMasterFirst(m: Component, s: seq<Component>)
    requires !Has(m, RECURRENCE_ID) && forall i :: 0 <= i < |s| ==> Has(s[i], RECURRENCE_ID)
    ensures Overrides([m] + s) == s && Master([m] + s) == Some(m)
  {
    if s == [] {
      assert [m] + s == [m];
      assert Overrides([m][..0]) == [] && Master([m][..0]) == None;
    } else {
      var n := |s| - 1;
      SplitMasterFirst(m, s[..n]);
      assert ([m] + s)[..|[m] + s| - 1] == [m] + s[..n];
      assert s == s[..n] + [s[n]];
    }
  }

  lemma {:induction false} GroupUniform(s: seq<Component>, uid: string, other: string)
    requires forall i :: 0 <= i < |s| ==> ValueOf(s[i], "UID") == uid
    ensures Group(s, other) == if other == uid then s else []
  {
    if s != [] {
      var n := |s| - 1;
      GroupUniform(s[..n], uid, other);
      assert s == s[..n] + [s[n]];
    }
  }

  lemma {:induction false} SeenUniform(w: World, s: seq<Component>, uid: string, i: Instance)
    requires forall j :: 0 <= j < |s| ==> ValueOf(s[j], "UID") == uid
    ensures Seen(w, s, i) <==> exists g :: Shows(w, s, g, i)
  {
    forall other ensures Group(s, other) == if other == uid then s else [] { GroupUniform(s, uid, other); }
    if exists g :: Shows(w, s, g, i) {
      var g :| Shows(w, s, g, i);
      assert Shows(w, Group(s, uid), g, i);
    }
    if Seen(w, s, i) {
      var u, g :| Shows(w, Group(s, u), g, i);
      assert u == uid;
    }
  }

  // ----- Components that show themselves -----

  ghost predicate Showing(k: Calendrics, s: seq<Component>, i: Instance) {
    exists n :: 0 <= n < |s| && ShowsItself(k, s[n], i)
  }

  ghost predicate PassesItself(k: Calendrics, c: Component, rules: Rules, spec: Spec, i: Instance) {
    && !Dropped(c, spec) && StartOf(k, c).Some?
    && i == Instance(StartOf(k, c).value.at, Face(Filtered(c, rules, BusyLabel(spec))))
  }

  ghost predicate Passing(k: Calendrics, s: seq<Component>, rules: Rules, spec: Spec, i: Instance) {
    exists n :: 0 <= n < |s| && PassesItself(k, s[n], rules, spec, i)
  }

  lemma {:induction false} ShowingSifted(k: Calendrics, s: seq<Component>, out: seq<Component>, rules: Rules, spec: Spec, i: Instance)
    requires var kept := Sift(s, spec, false);
      |out| == |kept| && forall n :: 0 <= n < |kept| ==>
        StartOf(k, out[n]) == StartOf(k, kept[n]) && Face(out[n]) == Face(Filtered(kept[n], rules, BusyLabel(spec)))
    ensures Showing(k, out, i) <==> Passing(k, s, rules, spec, i)
  {
    var kept := Sift(s, spec, false);
    assert forall n :: 0 <= n < |kept| && !Dropped(kept[n], spec) ==>
      (ShowsItself(k, out[n], i) <==> PassesItself(k, kept[n], rules, spec, i));
    forall n | 0 <= n < |kept| ensures !Dropped(kept[n], spec) && kept[n] in s {
      SiftMembers(s, spec, false, kept[n]);
    }
    if n :| 0 <= n < |out| && ShowsItself(k, out[n], i) {
      var l :| 0 <= l < |s| && s[l] == kept[n];
      assert PassesItself(k, s[l], rules, spec, i);
    }
    if l :| 0 <= l < |s| && PassesItself(k, s[l], rules, spec, i) {
      SiftMembers(s, spec, false, s[l]);
      var n :| 0 <= n < |kept| && kept[n] == s[l];
      assert ShowsItself(k, out[n], i);
    }
  }

  lemma {:induction false} ShowingFiltered(k: Calendrics, s: seq<Component>, rules: Rules, spec: Spec, i: Instance)
    requires Unmanaged(rules) && forall c :: c in s ==> c.name == VEVENT
    ensures Showing(k, FilteredAll(Sift(s, spec, false), rules, BusyLabel(spec)), i) <==> Passing(k, s, rules, spec, i)
  {
    var kept := Sift(s, spec, false);
    forall n | 0 <= n < |kept| ensures StartOf(k, Filtered(kept[n], rules, BusyLabel(spec))) == StartOf(k, kept[n]) {
      SiftMembers(s, spec, false, kept[n]);
      FilteredStart(k, kept[n], rules, BusyLabel(spec));
    }
    ShowingSifted(k, s, FilteredAll(kept, rules, BusyLabel(spec)), rules, spec, i);
  }

  lemma {:induction false} ShowingPromoted(k: Calendrics, s: seq<Component>, rules: Rules, spec: Spec, i: Instance)
    requires Unmanaged(rules) && forall c :: c in s ==> c.name == VEVENT
    ensures Showing(k, PromotedAll(Sift(s, spec, false), rules, BusyLabel(spec)), i) <==> Passing(k, s, rules, spec, i)
  {
    var kept := Sift(s, spec, false);
    forall n | 0 <= n < |kept|
      ensures var p := Promoted(kept[n], rules, BusyLabel(spec));
        StartOf(k, p) == StartOf(k, kept[n]) && Face(p) == Face(Filtered(kept[n], rules, BusyLabel(spec)))
    {
      SiftMembers(s, spec, false, kept[n]);
      PromotedShape(k, kept[n], rules, BusyLabel(spec));
    }
    ShowingSifted(k, s, PromotedAll(kept, rules, BusyLabel(spec)), rules, spec, i);
  }

  lemma {:induction false} PlainShows(w: World, s: seq<Component>, i: Instance)
    requires !IsRecurring(s)
    ensures (exists g :: Shows(w, s, g, i)) <==> Showing(w.k, s, i)
  {
    if Showing(w.k, s, i) {
      var n :| 0 <= n < |s| && ShowsItself(w.k, s[n], i);
      assert Shows(w, s, s[n], i);
    }
  }

  // ----- A series that does not recur -----

  lemma {:induction false} PlainNotRecurring(comps: seq<Component>, rules: Rules, spec: Spec)
    requires UniqueMaster(comps) && Unmanaged(rules) && !IsRecurring(comps)
    ensures !IsRecurring(FilteredAll(Sift(comps, spec, false), rules, BusyLabel(spec)))
  {
    var kept := Sift(comps, spec, false);
    var out := FilteredAll(kept, rules, BusyLabel(spec));
    MasterMembers(out);
    if Master(out).Some? {
      var n :| 0 <= n < |out| && out[n] == Master(out).value;
      var c := kept[n];
      SiftMembers(comps, spec, false, c);
      FilteredStructure(c, rules, BusyLabel(spec), RECURRENCE_ID);
      FilteredStructure(c, rules, BusyLabel(spec), "RRULE");
      OnlyMaster(comps, c);
    }
  }

  lemma {:induction false} PlainPermitted(w: World, comps: seq<Component>, rules: Rules, spec: Spec, i: Instance)
    requires !IsRecurring(comps)
    ensures Permitted(w, comps, rules, spec, i) <==> Passing(w.k, comps, rules, spec, i)
  {
    if Passing(w.k, comps, rules, spec, i) {
      var n :| 0 <= n < |comps| && PassesItself(w.k, comps[n], rules, spec, i);
      assert Shows(w, comps, comps[n], Instance(i.start, Face(comps[n])));
    }
    if Permitted(w, comps, rules, spec, i) {
      var g, j :| Shows(w, comps, g, j) && !Dropped(g, spec) && i == Instance(j.start, Face(Filtered(g, rules, BusyLabel(spec))));
      var n :| 0 <= n < |comps| && comps[n] == g;
      assert PassesItself(w.k, comps[n], rules, spec, i);
    }
  }

  lemma {:induction false} FilteredUids(s: seq<Component>, out: seq<Component>, uid: string, rules: Rules, spec: Spec)
    requires Unmanaged(rules) && forall c :: c in s ==> ValueOf(c, "UID") == uid
    requires out == FilteredAll(Sift(s, spec, false), rules, BusyLabel(spec))
    ensures forall n :: 0 <= n < |out| ==> ValueOf(out[n], "UID") == uid
  {
    var kept := Sift(s, spec, false);
    forall n | 0 <= n < |kept| ensures ValueOf(Filtered(kept[n], rules, BusyLabel(spec)), "UID") == uid {
      SiftMembers(s, spec, false, kept[n]);
      FilteredStructure(kept[n], rules, BusyLabel(spec), "UID");
    }
  }

  lemma {:induction false} PlainMeaning(w: World, comps: seq<Component>, uid: string, rules: Rules, spec: Spec, i: Instance)
    requires OneSeries(comps, uid) && Unmanaged(rules) && !IsRecurring(comps)
    ensures Seen(w, FilteredSeries(comps, rules, spec), i) <==> Permitted(w, comps, rules, spec, i)
  {
    var out := FilteredAll(Sift(comps, spec, false), rules, BusyLabel(spec));
    FilteredUids(comps, out, uid, rules, spec);
    SeenUniform(w, out, uid, i);
    PlainNotRecurring(comps, rules, spec);
    PlainShows(w, out, i);
    ShowingFiltered(w.k, comps, rules, spec, i);
    PlainPermitted(w, comps, rules, spec, i);
  }

  // ----- A recurring series whose master is excluded -----

  lemma {:induction false} StandaloneGroup(s: seq<Component>, uid: string)
    requires forall c :: c in s ==> !Has(c, "RRULE")
    ensures !IsRecurring(Group(s, uid))
  {
    MasterMembers(Group(s, uid));
    if Master(Group(s, uid)).Some? { GroupMembers(s, uid, Master(Group(s, uid)).value); }
  }

  lemma {:induction false} SeenStandalone(w: World, s: seq<Component>, i: Instance)
    requires forall c :: c in s ==> !Has(c, "RRULE")
    ensures Seen(w, s, i) <==> Showing(w.k, s, i)
  {
    if Showing(w.k, s, i) {
      var n :| 0 <= n < |s| && ShowsItself(w.k, s[n], i);
      var uid := ValueOf(s[n], "UID");
      StandaloneGroup(s, uid);
      GroupMembers(s, uid, s[n]);
      assert Shows(w, Group(s, uid), s[n], i);
    }
    if Seen(w, s, i) {
      var u, g :| Shows(w, Group(s, u), g, i);
      StandaloneGroup(s, u);
      GroupMembers(s, u, g);
    }
  }

  lemma {:induction false} OverridesPermitted(w: World, comps: seq<Component>, rules: Rules, spec: Spec, i: Instance)
    requires IsRecurring(comps)
    ensures var m := Master(comps).value;
      Permitted(w, comps, rules, spec, i) <==>
        || Passing(w.k, Overrides(comps), rules, spec, i)
        || (!Dropped(m, spec) && i.face == Face(Filtered(m, rules, BusyLabel(spec))) && Generates(w, m, i.start)
            && !Overridden(w.k, Overrides(comps), HomeZone(w.k, m), i.start))
  {
    var ovs := Overrides(comps);
    var m := Master(comps).value;
    if Passing(w.k, ovs, rules, spec, i) {
      var n :| 0 <= n < |ovs| && PassesItself(w.k, ovs[n], rules, spec, i);
      assert Shows(w, comps, ovs[n], Instance(i.start, Face(ovs[n])));
    }
    if Permitted(w, comps, rules, spec, i) {
      var g, j :| Shows(w, comps, g, j) && !Dropped(g, spec) && i == Instance(j.start, Face(Filtered(g, rules, BusyLabel(spec))));
      if g in ovs && ShowsItself(w.k, g, j) {
        var n :| 0 <= n < |ovs| && ovs[n] == g;
        assert PassesItself(w.k, ovs[n], rules, spec, i);
      }
    }
    if Generates(w, m, i.start) && !Overridden(w.k, ovs, HomeZone(w.k, m), i.start) {
      assert Shows(w, comps, m, Instance(i.start, Face(m)));
    }
  }

  lemma {:induction false} PromotedMeaning(w: World, comps: seq<Component>, uid: string, rules: Rules, spec: Spec, i: Instance)
    requires OneSeries(comps, uid) && Unmanaged(rules) && IsRecurring(comps) && Dropped(Master(comps).value, spec)
    ensures Seen(w, FilteredSeries(comps, rules, spec), i) <==> Permitted(w, comps, rules, spec, i)
  {
    var shown := Sift(Overrides(comps), spec, false);
    var out := PromotedAll(shown, rules, BusyLabel(spec));
    forall c | c in Overrides(comps) ensures c.name == VEVENT { OverridesMembers(comps, c); }
    forall n | 0 <= n < |shown| ensures !Has(out[n], "RRULE") {
      SiftMembers(Overrides(comps), spec, false, shown[n]);
      PromotedShape(w.k, shown[n], rules, BusyLabel(spec));
    }
    SeenStandalone(w, out, i);
    ShowingPromoted(w.k, Overrides(comps), rules, spec, i);
    OverridesPermitted(w, comps, rules, spec, i);
  }

  // ----- A recurring series whose master is included -----

  /** The master as the filter keeps it. */
  function KeptMaster(comps: seq<Component>, rules: Rules, spec: Spec): Component
    requires IsRecurring(comps)
  {
    var m := Master(comps).value;
    WithExdates(Filtered(m, rules, BusyLabel(spec)), Sift(Overrides(comps), spec, true), TzidOf(m, "DTSTART"))
  }

  /** The copied EXDATEs, added to the old ones, read to what they erase. */
  lemma {:induction false} ReadWithHiding(k: Calendrics, before: seq<Prop>, lost: seq<Component>, m: Component, t: int)
    ensures var home := HomeZone(k, m);
      t in ReadExdates(k, before + HidingExdates(lost, TzidOf(m, "DTSTART")), home) <==>
      t in ReadExdates(k, before, home) || Erased(k, lost, m, t)
  {
    var home, added := HomeZone(k, m), HidingExdates(lost, TzidOf(m, "DTSTART"));
    if t in ReadExdates(k, before + added, home) {
      var p := ReadBySome(k, before + added, home, t);
      if p in before {
        ReadByAll(k, before, home, t, p);
      } else {
        var n :| 0 <= n < |added| && added[n] == p;
      }
    }
    if t in ReadExdates(k, before, home) {
      var p := ReadBySome(k, before, home, t);
      ReadByAll(k, before + added, home, t, p);
    }
    if n :| 0 <= n < |lost| && t in ReadExdate(k, Exdate(lost[n], TzidOf(m, "DTSTART")), home) {
      assert added[n] in before + added;
      ReadByAll(k, before + added, home, t, added[n]);
    }
  }

  /** The instants the kept master generates are those it generated before, less
      what the copied EXDATEs read to. */
  lemma {:induction false} KeptMasterGenerates(w: World, comps: seq<Component>, rules: Rules, spec: Spec, t: int)
    requires Unmanaged(rules) && IsRecurring(comps) && Master(comps).value.name == VEVENT
    ensures var m := Master(comps).value; var kept := KeptMaster(comps, rules, spec);
      && StartOf(w.k, kept) == StartOf(w.k, m)
      && (Generates(w, kept, t) <==> Generates(w, m, t) && !Erased(w.k, Sift(Overrides(comps), spec, true), m, t))
  {
    var m := Master(comps).value;
    var lost := Sift(Overrides(comps), spec, true);
    var plain := Filtered(m, rules, BusyLabel(spec));
    FilteredStart(w.k, m, rules, BusyLabel(spec));
    FilteredStructure(m, rules, BusyLabel(spec), "RRULE");
    FilteredStructure(m, rules, BusyLabel(spec), "EXDATE");
    WithExdatesFace(plain, lost, TzidOf(m, "DTSTART"));
    WithExdatesStart(w.k, plain, lost, TzidOf(m, "DTSTART"));
    ReadWithHiding(w.k, AllOf(m.props, "EXDATE"), lost, m, t);
  }

  /** The kept master generates exactly the source's instants less those of the
      dropped overrides if and only if the RECURRENCE-IDs read alike. */
  lemma {:induction false} KeptMasterIff(w: World, comps: seq<Component>, rules: Rules, spec: Spec)
    requires Unmanaged(rules) && IsRecurring(comps) && Master(comps).value.name == VEVENT && !Dropped(Master(comps).value, spec)
    ensures var m := Master(comps).value; var lost := Sift(Overrides(comps), spec, true);
      (forall t :: Generates(w, KeptMaster(comps, rules, spec), t) <==>
                   Generates(w, m, t) && !Overridden(w.k, lost, HomeZone(w.k, m), t))
      <==> SlotsReadAlike(w, comps, spec)
  {
    forall t
      ensures Generates(w, KeptMaster(comps, rules, spec), t) <==>
        Generates(w, Master(comps).value, t) && !Erased(w.k, Sift(Overrides(comps), spec, true), Master(comps).value, t)
    {
      KeptMasterGenerates(w, comps, rules, spec, t);
    }
  }

  lemma {:induction false} OverriddenBy(k: Calendrics, ovs: seq<Component>, spec: Spec, dropped: bool, home: Zone, t: int)
    ensures Overridden(k, Sift(ovs, spec, dropped), home, t) <==>
      exists n :: 0 <= n < |ovs| && Slot(k, ovs[n], home) == Some(t) && Dropped(ovs[n], spec) == dropped
  {
    var part := Sift(ovs, spec, dropped);
    if Overridden(k, part, home, t) {
      var l :| 0 <= l < |part| && Slot(k, part[l], home) == Some(t);
      SiftMembers(ovs, spec, dropped, part[l]);
      var n :| 0 <= n < |ovs| && ovs[n] == part[l];
    }
    if n :| 0 <= n < |ovs| && Slot(k, ovs[n], home) == Some(t) && Dropped(ovs[n], spec) == dropped {
      SiftMembers(ovs, spec, dropped, ovs[n]);
      var l :| 0 <= l < |part| && part[l] == ovs[n];
    }
  }

  /** A slot is overridden in the source exactly when a dropped or a surviving
      override stands for it. */
  lemma {:induction false} OverriddenSplit(k: Calendrics, ovs: seq<Component>, spec: Spec, home: Zone, t: int)
    ensures Overridden(k, ovs, home, t) <==>
      Overridden(k, Sift(ovs, spec, true), home, t) || Overridden(k, Sift(ovs, spec, false), home, t)
  {
    OverriddenBy(k, ovs, spec, true, home, t);
    OverriddenBy(k, ovs, spec, false, home, t);
  }

  /** Filtering moves no surviving override. */
  lemma {:induction false} SurvivorsStay(k: Calendrics, ovs: seq<Component>, rules: Rules, spec: Spec, home: Zone, t: int)
    requires Unmanaged(rules)
    ensures Overridden(k, FilteredAll(Sift(ovs, spec, false), rules, BusyLabel(spec)), home, t) <==>
      Overridden(k, Sift(ovs, spec, false), home, t)
  {
    var kept := Sift(ovs, spec, false);
    var shown := FilteredAll(kept, rules, BusyLabel(spec));
    forall n | 0 <= n < |kept| ensures Slot(k, shown[n], home) == Slot(k, kept[n], home) {
      FilteredStructure(kept[n], rules, BusyLabel(spec), RECURRENCE_ID);
    }
  }

  lemma {:induction false} IncludedShape(comps: seq<Component>, rules: Rules, spec: Spec)
    requires Unmanaged(rules) && IsRecurring(comps) && !Dropped(Master(comps).value, spec)
    ensures var m := Master(comps).value; var out := FilteredSeries(comps, rules, spec);
      && |out| > 0 && Master(out) == Some(out[0]) && IsRecurring(out)
      && Overrides(out) == FilteredAll(Sift(Overrides(comps), spec, false), rules, BusyLabel(spec))
      && Face(out[0]) == Face(Filtered(m, rules, BusyLabel(spec)))
      && out[0] == WithExdates(Filtered(m, rules, BusyLabel(spec)), Sift(Overrides(comps), spec, true), TzidOf(m, "DTSTART"))
  {
    var m := Master(comps).value;
    var ovs := Overrides(comps);
    var kept := Sift(ovs, spec, false);
    var plain := Filtered(m, rules, BusyLabel(spec));
    var km := WithExdates(plain, Sift(ovs, spec, true), TzidOf(m, "DTSTART"));
    var shown := FilteredAll(kept, rules, BusyLabel(spec));
    MasterMembers(comps);
    FilteredStructure(m, rules, BusyLabel(spec), RECURRENCE_ID);
    FilteredStructure(m, rules, BusyLabel(spec), "RRULE");
    WithExdatesFace(plain, Sift(ovs, spec, true), TzidOf(m, "DTSTART"));
    forall n | 0 <= n < |kept| ensures Has(shown[n], RECURRENCE_ID) {
      SiftMembers(ovs, spec, false, kept[n]);
      OverridesMembers(comps, kept[n]);
      FilteredStructure(kept[n], rules, BusyLabel(spec), RECURRENCE_ID);
    }
    SplitMasterFirst(km, shown);
  }

  lemma {:induction false} IncludedUids(comps: seq<Component>, uid: string, rules: Rules, spec: Spec)
    requires OneSeries(comps, uid) && Unmanaged(rules) && IsRecurring(comps) && !Dropped(Master(comps).value, spec)
    ensures var out := FilteredSeries(comps, rules, spec);
      Master(comps).value.name == VEVENT && forall n :: 0 <= n < |out| ==> ValueOf(out[n], "UID") == uid
  {
    var m, ovs := Master(comps).value, Overrides(comps);
    MasterMembers(comps);
    FilteredStructure(m, rules, BusyLabel(spec), "UID");
    WithExdatesFace(Filtered(m, rules, BusyLabel(spec)), Sift(ovs, spec, true), TzidOf(m, "DTSTART"));
    forall c | c in ovs ensures ValueOf(c, "UID") == uid { OverridesMembers(comps, c); }
    FilteredUids(ovs, FilteredAll(Sift(ovs, spec, false), rules, BusyLabel(spec)), uid, rules, spec);
  }

  lemma {:induction false} RecurringShows(w: World, s: seq<Component>, i: Instance)
    requires IsRecurring(s)
    ensures var m := Master(s).value;
      (exists g :: Shows(w, s, g, i)) <==>
        || Showing(w.k, Overrides(s), i)
        || (i.face == Face(m) && Generates(w, m, i.start) && !Overridden(w.k, Overrides(s), HomeZone(w.k, m), i.start))
  {
    var m, ovs := Master(s).value, Overrides(s);
    if Showing(w.k, ovs, i) {
      var n :| 0 <= n < |ovs| && ShowsItself(w.k, ovs[n], i);
      assert Shows(w, s, ovs[n], i);
    } else if i.face == Face(m) && Generates(w, m, i.start) && !Overridden(w.k, ovs, HomeZone(w.k, m), i.start) {
      assert Shows(w, s, m, i);
    }
  }

  /** What the output of an included series shows, with no hypothesis on how its
      RECURRENCE-IDs are written. */
  lemma {:induction false} IncludedShows(w: World, comps: seq<Component>, uid: string, rules: Rules, spec: Spec, i: Instance)
    requires OneSeries(comps, uid) && Unmanaged(rules) && IsRecurring(comps) && !Dropped(Master(comps).value, spec)
    ensures var m, ovs := Master(comps).value, Overrides(comps);
      Seen(w, FilteredSeries(comps, rules, spec), i) <==>
        || Passing(w.k, ovs, rules, spec, i)
        || (i.face == Face(Filtered(m, rules, BusyLabel(spec))) && Generates(w, m, i.start)
            && !Erased(w.k, Sift(ovs, spec, true), m, i.start)
            && !Overridden(w.k, Sift(ovs, spec, false), HomeZone(w.k, m), i.start))
  {
    var m, ovs := Master(comps).value, Overrides(comps);
    var out := FilteredSeries(comps, rules, spec);
    IncludedShape(comps, rules, spec);
    IncludedUids(comps, uid, rules, spec);
    SeenUniform(w, out, uid, i);
    RecurringShows(w, out, i);
    forall c | c in ovs ensures c.name == VEVENT { OverridesMembers(comps, c); }
    ShowingFiltered(w.k, ovs, rules, spec, i);
    KeptMasterGenerates(w, comps, rules, spec, i.start);
    SurvivorsStay(w.k, ovs, rules, spec, HomeZone(w.k, m), i.start);
    assert HomeZone(w.k, out[0]) == HomeZone(w.k, m);
  }

  lemma {:induction false} IncludedMeaning(w: World, comps: seq<Component>, uid: string, rules: Rules, spec: Spec, i: Instance)
    requires OneSeries(comps, uid) && Unmanaged(rules) && IsRecurring(comps) && !Dropped(Master(comps).value, spec)
    requires SlotsReadAlike(w, comps, spec)
    ensures Seen(w, FilteredSeries(comps, rules, spec), i) <==> Permitted(w, comps, rules, spec, i)
  {
    IncludedShows(w, comps, uid, rules, spec, i);
    OverriddenSplit(w.k, Overrides(comps), spec, HomeZone(w.k, Master(comps).value), i.start);
    OverridesPermitted(w, comps, rules, spec, i);
  }

  /** Filtering preserves meaning: the output of one series shows exactly the
      permitted instances of the source. */
  lemma {:induction false} SeriesMeaning(w: World, comps: seq<Component>, uid: string, rules: Rules, spec: Spec, i: Instance)
    requires OneSeries(comps, uid) && Unmanaged(rules) && SlotsReadAlike(w, comps, spec)
    ensures Seen(w, FilteredSeries(comps, rules, spec), i) <==> Permitted(w, comps, rules, spec, i)
  {
    if !IsRecurring(comps) {
      PlainMeaning(w, comps, uid, rules, spec, i);
    } else if Dropped(Master(comps).value, spec) {
      PromotedMeaning(w, comps, uid, rules, spec, i);
    } else {
      IncludedMeaning(w, comps, uid, rules, spec, i);
    }
  }

  // ----- When meaning is preserved -----

  /** The reading condition, asked only where a reader could tell: at instants that
      no surviving override takes and at which none shows the master's face. */
  ghost predicate VisibleSlotsReadAlike(w: World, comps: seq<Component>, rules: Rules, spec: Spec) {
    IsRecurring(comps) && !Dropped(Master(comps).value, spec) ==>
      forall t :: Generates(w, Master(comps).value, t) && Exposed(w, comps, rules, spec, t) ==>
        (Erased(w.k, Sift(Overrides(comps), spec, true), Master(comps).value, t) <==>
         Overridden(w.k, Sift(Overrides(comps), spec, true), HomeZone(w.k, Master(comps).value), t))
  }

  ghost predicate Exposed(w: World, comps: seq<Component>, rules: Rules, spec: Spec, t: int)
    requires IsRecurring(comps)
  {
    var m, ovs := Master(comps).value, Overrides(comps);
    && !Overridden(w.k, Sift(ovs, spec, false), HomeZone(w.k, m), t)
    && !Passing(w.k, ovs, rules, spec, MasterInstance(comps, rules, spec, t))
  }

  function MasterInstance(comps: seq<Component>, rules: Rules, spec: Spec, t: int): Instance
    requires IsRecurring(comps)
  {
    Instance(t, Face(Filtered(Master(comps).value, rules, BusyLabel(spec))))
  }

  /** Filtering a series preserves its meaning if and only if its dropped
      overrides' RECURRENCE-IDs read alike wherever a reader could tell. */
  lemma {:induction false} SeriesMeaningIff(w: World, comps: seq<Component>, uid: string, rules: Rules, spec: Spec)
    requires OneSeries(comps, uid) && Unmanaged(rules)
    ensures (forall i :: Seen(w, FilteredSeries(comps, rules, spec), i) <==> Permitted(w, comps, rules, spec, i))
        <==> VisibleSlotsReadAlike(w, comps, rules, spec)
  {
    if IsRecurring(comps) && !Dropped(Master(comps).value, spec) {
      forall i
        ensures (Seen(w, FilteredSeries(comps, rules, spec), i) <==> Permitted(w, comps, rules, spec, i))
            <==> (i == MasterInstance(comps, rules, spec, i.start) && Generates(w, Master(comps).value, i.start)
                  && Exposed(w, comps, rules, spec, i.start) ==>
                  (Erased(w.k, Sift(Overrides(comps), spec, true), Master(comps).value, i.start) <==>
                   Overridden(w.k, Sift(Overrides(comps), spec, true), HomeZone(w.k, Master(comps).value), i.start)))
      {
        InstanceIff(w, comps, uid, rules, spec, i);
      }
      if forall i :: Seen(w, FilteredSeries(comps, rules, spec), i) <==> Permitted(w, comps, rules, spec, i) {
        forall t | Generates(w, Master(comps).value, t) && Exposed(w, comps, rules, spec, t)
          ensures Erased(w.k, Sift(Overrides(comps), spec, true), Master(comps).value, t) <==>
            Overridden(w.k, Sift(Overrides(comps), spec, true), HomeZone(w.k, Master(comps).value), t)
        {
          var i := MasterInstance(comps, rules, spec, t);
          assert Seen(w, FilteredSeries(comps, rules, spec), i) <==> Permitted(w, comps, rules, spec, i);
        }
      }
    } else {
      forall i { SeriesMeaning(w, comps, uid, rules, spec, i); }
    }
  }

  lemma {:induction false} InstanceIff(w: World, comps: seq<Component>, uid: string, rules: Rules, spec: Spec, i: Instance)
    requires OneSeries(comps, uid) && Unmanaged(rules) && IsRecurring(comps) && !Dropped(Master(comps).value, spec)
    ensures (Seen(w, FilteredSeries(comps, rules, spec), i) <==> Permitted(w, comps, rules, spec, i))
        <==> (i == MasterInstance(comps, rules, spec, i.start) && Generates(w, Master(comps).value, i.start)
              && Exposed(w, comps, rules, spec, i.start) ==>
              (Erased(w.k, Sift(Overrides(comps), spec, true), Master(comps).value, i.start) <==>
               Overridden(w.k, Sift(Overrides(comps), spec, true), HomeZone(w.k, Master(comps).value), i.start)))
  {
    IncludedShows(w, comps, uid, rules, spec, i);
    OverriddenSplit(w.k, Overrides(comps), spec, HomeZone(w.k, Master(comps).value), i.start);
    OverridesPermitted(w, comps, rules, spec, i);
  }

  // ----- Overrides that read alike -----

  /** A single date or date-time that reads to one instant in its own zone and in
      the zone of the master's DTSTART. */
  predicate ReadsAlike(k: Calendrics, override: Component, master: Component) {
    var rid, home := ValueOf(override, RECURRENCE_ID), HomeZone(k, master);
    && IsStamp(rid)
    && ReadStamp(k, rid, ZoneOf(k, TzidOf(override, RECURRENCE_ID), home))
       == ReadStamp(k, rid, ZoneOf(k, TzidOf(master, "DTSTART"), home))
  }

  /** It is enough that each dropped override reads alike. */
  lemma {:induction false} DroppedReadAlike(w: World, comps: seq<Component>, spec: Spec)
    requires IsRecurring(comps) && !Dropped(Master(comps).value, spec) ==>
      forall c :: c in Overrides(comps) && Dropped(c, spec) ==> ReadsAlike(w.k, c, Master(comps).value)
    ensures SlotsReadAlike(w, comps, spec)
  {
    if IsRecurring(comps) && !Dropped(Master(comps).value, spec) {
      var m, lost := Master(comps).value, Sift(Overrides(comps), spec, true);
      var home := HomeZone(w.k, m);
      forall n, t | 0 <= n < |lost|
        ensures t in ReadExdate(w.k, Exdate(lost[n], TzidOf(m, "DTSTART")), home) <==> Slot(w.k, lost[n], home) == Some(t)
      {
        SiftMembers(Overrides(comps), spec, true, lost[n]);
        ExdateReadsSlot(w.k, lost[n], m);
      }
    }
  }

  lemma {:induction false} ExdateReadsSlot(k: Calendrics, ov: Component, master: Component)
    requires ReadsAlike(k, ov, master)
    ensures var slot := Slot(k, ov, HomeZone(k, master));
      ReadExdate(k, Exdate(ov, TzidOf(master, "DTSTART")), HomeZone(k, master)) == if slot.Some? then [slot.value] else []
  {
    var ex := Exdate(ov, TzidOf(master, "DTSTART"));
    assert Param(ex, "TZID") == TzidOf(master, "DTSTART");
    StampExdate(k, ex, HomeZone(k, master));
  }

  /** The usual forms read alike: the TZID of the master's DTSTART, UTC, and a
      floating value under a DTSTART in local time. */
  lemma {:induction false} UsualFormsReadAlike(k: Calendrics, ov: Component, m: Component)
    requires m.name == VEVENT && IsStamp(ValueOf(ov, RECURRENCE_ID)) && StartOf(k, m).Some?
    requires var rid, start := ValueOf(ov, RECURRENCE_ID), ValueOf(m, "DTSTART");
      || TzidOf(ov, RECURRENCE_ID) == TzidOf(m, "DTSTART")
      || ('T' in rid && rid[|rid| - 1] == 'Z')
      || (TzidOf(ov, RECURRENCE_ID) == "" && 'T' in start && start[|start| - 1] != 'Z')
    ensures ReadsAlike(k, ov, m)
  {}

  /** For one dropped override with a slot among the instants: the slot is hidden
      if and only if the value reads to it in the zone of the master's DTSTART. */
  lemma {:induction false} HiddenIffReadAlike(w: World, m: Component, ov: Component, rules: Rules, spec: Spec, t: int)
    requires Unmanaged(rules) && m.name == VEVENT && Has(m, "RRULE") && !Has(m, RECURRENCE_ID)
    requires Has(ov, RECURRENCE_ID) && Dropped(ov, spec) && IsStamp(ValueOf(ov, RECURRENCE_ID))
    requires Slot(w.k, ov, HomeZone(w.k, m)) == Some(t) && Generates(w, m, t)
    ensures IsRecurring([m, ov]) && (!Generates(w, KeptMaster([m, ov], rules, spec), t) <==>
      ReadStamp(w.k, ValueOf(ov, RECURRENCE_ID), ZoneOf(w.k, TzidOf(m, "DTSTART"), HomeZone(w.k, m))) == Some(t))
  {
    PairSplits(m, ov, spec);
    KeptMasterGenerates(w, [m, ov], rules, spec, t);
    var ex := Exdate(ov, TzidOf(m, "DTSTART"));
    assert Param(ex, "TZID") == TzidOf(m, "DTSTART");
    StampExdate(w.k, ex, HomeZone(w.k, m));
  }

  /** What a master and one dropped override show, before and after. */
  lemma {:induction false} PairShows(w: World, m: Component, ov: Component, uid: string, rules: Rules, spec: Spec, i: Instance)
    requires Unmanaged(rules) && OneSeries([m, ov], uid)
    requires !Has(m, RECURRENCE_ID) && Has(m, "RRULE") && !Dropped(m, spec) && Has(ov, RECURRENCE_ID) && Dropped(ov, spec)
    ensures var master := i.face == Face(Filtered(m, rules, BusyLabel(spec))) && Generates(w, m, i.start);
      && (Seen(w, FilteredSeries([m, ov], rules, spec), i) <==>
            master && i.start !in ReadExdate(w.k, Exdate(ov, TzidOf(m, "DTSTART")), HomeZone(w.k, m)))
      && (Permitted(w, [m, ov], rules, spec, i) <==> master && Slot(w.k, ov, HomeZone(w.k, m)) != Some(i.start))
  {
    PairSplits(m, ov, spec);
    assert [ov][0] == ov;
    IncludedShows(w, [m, ov], uid, rules, spec, i);
    OverridesPermitted(w, [m, ov], rules, spec, i);
  }

  /** What goes wrong otherwise: a dropped override that stands for instant s and
      whose copied EXDATE reads to t leaves s visible and hides t. */
  lemma {:induction false} MisreadHides(w: World, m: Component, ov: Component, uid: string, rules: Rules, spec: Spec, s: int, t: int)
    requires Unmanaged(rules) && OneSeries([m, ov], uid) && s != t
    requires !Has(m, RECURRENCE_ID) && Has(m, "RRULE") && !Dropped(m, spec) && Has(ov, RECURRENCE_ID) && Dropped(ov, spec)
    requires Generates(w, m, s) && Generates(w, m, t)
    requires Slot(w.k, ov, HomeZone(w.k, m)) == Some(s)
    requires ReadExdate(w.k, Exdate(ov, TzidOf(m, "DTSTART")), HomeZone(w.k, m)) == [t]
    ensures var comps, face := [m, ov], Face(Filtered(m, rules, BusyLabel(spec)));
      var out := FilteredSeries(comps, rules, spec);
      && Seen(w, out, Instance(s, face)) && !Permitted(w, comps, rules, spec, Instance(s, face))
      && !Seen(w, out, Instance(t, face)) && Permitted(w, comps, rules, spec, Instance(t, face))
  {
    PairShows(w, m, ov, uid, rules, spec, Instance(s, Face(Filtered(m, rules, BusyLabel(spec)))));
    PairShows(w, m, ov, uid, rules, spec, Instance(t, Face(Filtered(m, rules, BusyLabel(spec)))));
  }

  /** A master and one dropped override. */
  lemma {:induction false} PairSplits(m: Component, ov: Component, spec: Spec)
    requires !Has(m, RECURRENCE_ID) && Has(ov, RECURRENCE_ID) && Dropped(ov, spec)
    ensures Master([m, ov]) == Some(m) && Overrides([m, ov]) == [ov]
    ensures Sift([ov], spec, true) == [ov] && Sift([ov], spec, false) == []
  {
    assert [m] + [ov] == [m, ov];
    SplitMasterFirst(m, [ov]);
    assert Sift([ov][..0], spec, true) == [] && Sift([ov][..0], spec, false) == [];
  }
}
