/** What a public calendar carries of its source, field by field and flag by flag,
    stated by the names that the design gives them. */
module PublicFields {
  import opened Components
  import opened Timezones
  import opened ViewRules
  import opened ViewFilter
  import opened ViewPrivacy
  import opened ViewMeaning
  import opened ViewCalendar

  // ----- The include flags -----

  /** The flags let the event through. */
  predicate Included(c: Component, spec: Spec) {
    && (ValueOf(c, "CLASS") == "PRIVATE" || ValueOf(c, "CLASS") == "CONFIDENTIAL" ==> spec.includePrivate)
    && (ValueOf(c, "STATUS") == "CANCELLED" ==> spec.includeCancelled)
    && (ValueOf(c, "STATUS") == "TENTATIVE" ==> spec.includeTentative)
    && (ValueOf(c, "TRANSP") == "TRANSPARENT" ==> spec.includeTransparent)
  }

  lemma {:induction false} IncludedIff(c: Component, spec: Spec)
    ensures Included(c, spec) <==> !Dropped(c, spec)
  {}

  // ----- One public event and the source event it shows -----

  /** The fields that reconciling and promoting a series may still edit. */
  predicate SeriesField(field: string) {
    field == "UID" || field == "RECURRENCE-ID" || field == "RRULE" || field == "EXDATE"
  }

  /** What a public event e says in a field, shown for the source event c. */
  ghost predicate ShowsField(e: Component, c: Component, field: string, rules: Rules, busy: string) {
    if field == "SUMMARY" && Relabelled(rules) then
      field in e.props && e.props[field] == [TextProp("SUMMARY", busy)]
    else
      && (field in e.props <==> field in c.props && Published(field, rules))
      && (field in e.props ==> e.props[field] == c.props[field])
  }

  /** An alarm shows its mechanics, any other child itself. */
  ghost predicate ShowsChild(shown: Component, child: Component) {
    if child.name != VALARM then shown == child
    else
      && shown.name == VALARM && shown.children == []
      && (forall f :: f in shown.props <==> f in child.props && IsMechanic(f))
      && (forall f :: f in shown.props ==> shown.props[f] == child.props[f])
  }

  ghost predicate ShowsChildren(shown: seq<Component>, children: seq<Component>, rules: Rules) {
    if "VALARM" in rules && rules["VALARM"] == Strip then shown == NonAlarms(children)
    else |shown| == |children| && forall i :: 0 <= i < |children| ==> ShowsChild(shown[i], children[i])
  }

  ghost predicate ShowsEvent(e: Component, c: Component, rules: Rules, busy: string) {
    && (forall f :: !SeriesField(f) ==> ShowsField(e, c, f, rules, busy))
    && ShowsChildren(e.children, c.children, rules)
  }

  lemma {:induction false} FilteredShows(c: Component, rules: Rules, busy: string)
    ensures ShowsEvent(Filtered(c, rules, busy), c, rules, busy)
  {
    forall f ensures ShowsField(Filtered(c, rules, busy), c, f, rules, busy) { FilteredField(c, rules, busy, f); }
    ChildrenShow(c.children, rules);
  }

  lemma {:induction false} ChildrenShow(children: seq<Component>, rules: Rules)
    ensures ShowsChildren(FilteredChildren(children, rules), children, rules)
  {
    if StripsAlarms(rules) {
      FilteredChildrenStripped(children, rules);
    } else {
      FilteredChildrenKept(children, rules);
      forall i | 0 <= i < |children| ensures ShowsChild(FilteredChildren(children, rules)[i], children[i]) {
        if children[i].name == VALARM { AlarmShows(children[i]); }
      }
    }
  }

  lemma {:induction false} AlarmShows(alarm: Component)
    requires alarm.name == VALARM
    ensures ShowsChild(SanitizedAlarm(alarm), alarm)
  {
    assert forall f :: IsMechanic(f) <==> f in MECHANICS;
  }

  lemma {:induction false} EditedShows(e: Component, edited: Component, c: Component, rules: Rules, busy: string)
    requires ShowsEvent(e, c, rules, busy) && edited.children == e.children
    requires forall f :: !SeriesField(f) ==> SameField(edited, e, f)
    ensures ShowsEvent(edited, c, rules, busy)
  {
    forall f | !SeriesField(f) ensures ShowsField(edited, c, f, rules, busy) { assert SameField(edited, e, f); }
  }

  lemma {:induction false} WithExdatesShows(c: Component, lost: seq<Component>, tzid: string, rules: Rules, busy: string)
    ensures ShowsEvent(WithExdates(Filtered(c, rules, busy), lost, tzid), c, rules, busy)
  {
    FilteredShows(c, rules, busy);
    EditedShows(Filtered(c, rules, busy), WithExdates(Filtered(c, rules, busy), lost, tzid), c, rules, busy);
  }

  lemma {:induction false} PromotedShows(c: Component, rules: Rules, busy: string)
    ensures ShowsEvent(Promoted(c, rules, busy), c, rules, busy)
  {
    FilteredShows(c, rules, busy);
    EditedShows(Filtered(c, rules, busy), Promoted(c, rules, busy), c, rules, busy);
  }

  // ----- One series -----

  /** The public forms of a source event. */
  ghost predicate IsForm(e: Component, c: Component, rules: Rules, busy: string) {
    || e == Filtered(c, rules, busy) || e == Promoted(c, rules, busy)
    || exists lost, tzid :: e == WithExdates(Filtered(c, rules, busy), lost, tzid)
  }

  lemma {:induction false} FormShows(e: Component, c: Component, rules: Rules, busy: string)
    requires IsForm(e, c, rules, busy)
    ensures ShowsEvent(e, c, rules, busy)
  {
    FilteredShows(c, rules, busy);
    PromotedShows(c, rules, busy);
    forall lost, tzid | e == WithExdates(Filtered(c, rules, busy), lost, tzid) ensures ShowsEvent(e, c, rules, busy) {
      WithExdatesShows(c, lost, tzid, rules, busy);
    }
  }

  lemma {:induction false} SiftedIncluded(comps: seq<Component>, spec: Spec, i: nat)
    requires i < |Sift(comps, spec, false)|
    ensures Sift(comps, spec, false)[i] in comps && Included(Sift(comps, spec, false)[i], spec)
  {
    SiftMembers(comps, spec, false, Sift(comps, spec, false)[i]);
    IncludedIff(Sift(comps, spec, false)[i], spec);
  }

  lemma {:induction false} IncludedSifted(comps: seq<Component>, spec: Spec, c: Component) returns (i: nat)
    requires c in comps && Included(c, spec)
    ensures i < |Sift(comps, spec, false)| && Sift(comps, spec, false)[i] == c
  {
    IncludedIff(c, spec);
    SiftMembers(comps, spec, false, c);
    i :| 0 <= i < |Sift(comps, spec, false)| && Sift(comps, spec, false)[i] == c;
  }

  lemma {:induction false} PlainForm(comps: seq<Component>, rules: Rules, spec: Spec, i: nat) returns (c: Component)
    requires !IsRecurring(comps) && i < |FilteredSeries(comps, rules, spec)|
    ensures c in comps && Included(c, spec) && FilteredSeries(comps, rules, spec)[i] == Filtered(c, rules, BusyLabel(spec))
  {
    c := Sift(comps, spec, false)[i];
    SiftedIncluded(comps, spec, i);
  }

  lemma {:induction false} MasterForm(comps: seq<Component>, rules: Rules, spec: Spec) returns (c: Component, lost: seq<Component>)
    requires IsRecurring(comps) && !Dropped(Master(comps).value, spec)
    ensures c in comps && Included(c, spec)
    ensures FilteredSeries(comps, rules, spec)[0] == WithExdates(Filtered(c, rules, BusyLabel(spec)), lost, TzidOf(c, "DTSTART"))
  {
    c, lost := Master(comps).value, Sift(Overrides(comps), spec, true);
    MasterMembers(comps);
    IncludedIff(c, spec);
  }

  lemma {:induction false} OverrideForm(comps: seq<Component>, rules: Rules, spec: Spec, i: nat) returns (c: Component)
    requires IsRecurring(comps) && i < |FilteredSeries(comps, rules, spec)| && (i > 0 || Dropped(Master(comps).value, spec))
    ensures c in comps && Included(c, spec)
    ensures var e := FilteredSeries(comps, rules, spec)[i];
      e == Filtered(c, rules, BusyLabel(spec)) || e == Promoted(c, rules, BusyLabel(spec))
  {
    var j := if Dropped(Master(comps).value, spec) then i else i - 1;
    c := Sift(Overrides(comps), spec, false)[j];
    SiftedIncluded(Overrides(comps), spec, j);
    OverridesMembers(comps, c);
  }

  /** Every event of a filtered series is a form of an included event of it. */
  lemma {:induction false} SeriesShowsIncluded(comps: seq<Component>, rules: Rules, spec: Spec, e: Component) returns (c: Component)
    requires e in FilteredSeries(comps, rules, spec)
    ensures c in comps && Included(c, spec) && IsForm(e, c, rules, BusyLabel(spec))
  {
    var out := FilteredSeries(comps, rules, spec);
    var i :| 0 <= i < |out| && out[i] == e;
    if !IsRecurring(comps) {
      c := PlainForm(comps, rules, spec, i);
    } else if !Dropped(Master(comps).value, spec) && i == 0 {
      var lost;
      c, lost := MasterForm(comps, rules, spec);
    } else {
      c := OverrideForm(comps, rules, spec, i);
    }
  }

  /** And every included event of a series with one master has one there. */
  lemma {:induction false} IncludedOfSeriesShown(comps: seq<Component>, rules: Rules, spec: Spec, c: Component) returns (e: Component)
    requires UniqueMaster(comps) && c in comps && Included(c, spec)
    ensures e in FilteredSeries(comps, rules, spec) && IsForm(e, c, rules, BusyLabel(spec))
  {
    var out, busy := FilteredSeries(comps, rules, spec), BusyLabel(spec);
    if !IsRecurring(comps) {
      var i := IncludedSifted(comps, spec, c);
      e := Filtered(c, rules, busy);
      assert out[i] == e;
    } else if Has(c, RECURRENCE_ID) {
      OverridesMembers(comps, c);
      var i := IncludedSifted(Overrides(comps), spec, c);
      if Dropped(Master(comps).value, spec) {
        e := Promoted(c, rules, busy);
        assert out[i] == e;
      } else {
        e := Filtered(c, rules, busy);
        assert out[i + 1] == e;
      }
    } else {
      OnlyOneMaster(comps, c);
      IncludedIff(c, spec);
      e := WithExdates(Filtered(c, rules, busy), Sift(Overrides(comps), spec, true), TzidOf(c, "DTSTART"));
      assert out[0] == e;
    }
  }

  lemma {:induction false} OnlyOneMaster(comps: seq<Component>, c: Component)
    requires UniqueMaster(comps) && c in comps && !Has(c, RECURRENCE_ID)
    ensures Master(comps) == Some(c)
  {
    MasterMembers(comps);
    var m := Master(comps).value;
    var i :| 0 <= i < |comps| && comps[i] == c;
    var j :| 0 <= j < |comps| && comps[j] == m;
    assert i == j;
  }

  // ----- A whole calendar -----

  ghost predicate IsPublic(src: Component, spec: Spec, zones: ZoneDb, e: Component) {
    e in Applied(src, spec, zones).children && e.name == VEVENT
  }

  lemma {:induction false} PublicInGroup(src: Component, spec: Spec, zones: ZoneDb, e: Component) returns (uid: string)
    requires WellFormedZones(zones) && IsPublic(src, spec, zones, e)
    ensures e in FilteredSeries(Group(Events(src.children), uid), Effective(spec), spec)
  {
    var shown := ShownEvents(src, spec);
    BundleResolves(Component(VCALENDAR, Header(), shown), zones);
    var out := Applied(src, spec, zones).children;
    var i :| 0 <= i < |out| && out[i] == e;
    assert e == out[|out| - |shown|..][i - (|out| - |shown|)];
    uid := InSomeGroup(UidOrder(Events(src.children)), Events(src.children), Effective(spec), spec, e);
  }

  lemma {:induction false} InSomeGroup(order: seq<string>, events: seq<Component>, rules: Rules, spec: Spec, e: Component) returns (uid: string)
    requires e in FilteredGroups(order, events, rules, spec)
    ensures e in FilteredSeries(Group(events, uid), rules, spec)
  {
    var n := |order| - 1;
    if e in FilteredGroups(order[..n], events, rules, spec) {
      uid := InSomeGroup(order[..n], events, rules, spec, e);
    } else {
      uid := order[n];
    }
  }

  lemma {:induction false} GroupIsPublic(order: seq<string>, i: nat, events: seq<Component>, rules: Rules, spec: Spec, e: Component)
    requires i < |order| && e in FilteredSeries(Group(events, order[i]), rules, spec)
    ensures e in FilteredGroups(order, events, rules, spec)
  {
    if i < |order| - 1 { GroupIsPublic(order[..|order| - 1], i, events, rules, spec, e); }
  }

  /** Every event of a public calendar stands for a source event that the flags
      include. */
  lemma {:induction false} PublicIsIncluded(src: Component, spec: Spec, zones: ZoneDb, e: Component) returns (c: Component)
    requires WellFormedZones(zones) && IsPublic(src, spec, zones, e)
    ensures c in Events(src.children) && Included(c, spec) && ShowsEvent(e, c, Effective(spec), BusyLabel(spec))
  {
    var uid := PublicInGroup(src, spec, zones, e);
    c := SeriesShowsIncluded(Group(Events(src.children), uid), Effective(spec), spec, e);
    GroupMembers(Events(src.children), uid, c);
    FormShows(e, c, Effective(spec), BusyLabel(spec));
  }

  /** And every source event that the flags include has a public event, when its
      series has one master. */
  lemma {:induction false} IncludedIsPublic(src: Component, spec: Spec, zones: ZoneDb, c: Component) returns (e: Component)
    requires WellFormedZones(zones) && c in Events(src.children) && Included(c, spec) && ManagedOverrides(spec)
    requires UniqueMaster(Group(Events(src.children), ValueOf(c, "UID")))
    ensures IsPublic(src, spec, zones, e) && ShowsEvent(e, c, Effective(spec), BusyLabel(spec))
  {
    var events, uid, rules := Events(src.children), ValueOf(c, "UID"), Effective(spec);
    GroupMembers(events, uid, c);
    e := IncludedOfSeriesShown(Group(events, uid), rules, spec, c);
    FormShows(e, c, rules, BusyLabel(spec));
    UidOrderMembers(events, uid);
    var i :| 0 <= i < |UidOrder(events)| && UidOrder(events)[i] == uid;
    GroupIsPublic(UidOrder(events), i, events, rules, spec, e);
    AppliedEvents(src, spec, zones);
    EventsAreNamed(Applied(src, spec, zones).children, e);
  }

  lemma {:induction false} EventsAreNamed(children: seq<Component>, e: Component)
    requires e in Events(children)
    ensures e in children && e.name == VEVENT
  {
    var n := |children| - 1;
    if e in Events(children[..n]) { EventsAreNamed(children[..n], e); }
  }

  // ----- What the presets let through -----

  /** The fields that the presets for titles and busy times hide. */
  predicate IsDetail(field: string) {
    || field == "DESCRIPTION" || field == "LOCATION" || field == "URL" || field == "ATTENDEE" || field == "ORGANIZER"
    || field == "CATEGORIES" || field == "GEO" || field == "ATTACH" || field == "COMMENT" || field == "RESOURCES"
    || field == "PRIORITY" || field == "CLASS" || field == "CREATED"
  }

  predicate IsPlain(field: string) {
    || field == "SUMMARY" || field == "STATUS" || field == "TRANSP" || field == "LAST-MODIFIED" || field == "DTSTAMP"
    || field == "SEQUENCE"
  }

  lemma {:induction false} DetailsNamed(field: string)
    ensures field in DETAILS <==> IsDetail(field)
    ensures field in MANAGED <==> IsDetail(field) || IsPlain(field) || field == "VALARM"
  {
    assert DETAILS[0] == "DESCRIPTION" && DETAILS[1] == "LOCATION" && DETAILS[2] == "URL" && DETAILS[3] == "ATTENDEE";
    assert DETAILS[4] == "ORGANIZER" && DETAILS[5] == "CATEGORIES" && DETAILS[6] == "GEO" && DETAILS[7] == "ATTACH";
    assert DETAILS[8] == "COMMENT" && DETAILS[9] == "RESOURCES" && DETAILS[10] == "PRIORITY" && DETAILS[11] == "CLASS";
    assert DETAILS[12] == "CREATED";
    var plain := ["SUMMARY", "STATUS", "TRANSP", "VALARM", "LAST-MODIFIED", "DTSTAMP", "SEQUENCE"];
    assert plain[0] == "SUMMARY" && plain[1] == "STATUS" && plain[2] == "TRANSP" && plain[3] == "VALARM";
    assert plain[4] == "LAST-MODIFIED" && plain[5] == "DTSTAMP" && plain[6] == "SEQUENCE";
    assert MANAGED == plain + DETAILS;
  }

  /** The rule that a preset gives a field. */
  lemma {:induction false} PresetGives(preset: string, field: string)
    ensures field in PresetTable(preset) <==> IsDetail(field) || IsPlain(field) || field == "VALARM"
    ensures var table := PresetTable(preset); field in table ==>
      table[field] == (if field == "VALARM" || (IsDetail(field) && (preset == "titles" || preset == "busy")) then Strip
                       else if field == "SUMMARY" && preset == "busy" then Replace else Keep)
  {
    DetailsNamed(field);
  }

  /** Default-strip. Of the fields that the view overrides a public event carries
      those that are kept or replaced, of the others the eight properties that define
      it, the six plain ones and, under neither the titles nor the busy preset, the
      details; nothing else, whatever the source says. Under the busy preset its title
      is the label. */
  lemma {:induction false} PublicCarries(src: Component, spec: Spec, zones: ZoneDb, e: Component, field: string)
    requires WellFormedZones(zones) && IsPublic(src, spec, zones, e) && field in e.props
    ensures DefinesEvent(field) || Published(field, Effective(spec))
    ensures field in spec.fieldOverrides && !DefinesEvent(field) ==>
        spec.fieldOverrides[field] == Keep || spec.fieldOverrides[field] == Replace
    ensures field !in spec.fieldOverrides ==>
        DefinesEvent(field) || IsPlain(field) || (IsDetail(field) && spec.preset != "titles" && spec.preset != "busy")
    ensures field == "SUMMARY" && field !in spec.fieldOverrides && spec.preset == "busy" ==>
        e.props[field] == [TextProp("SUMMARY", if spec.busyLabel == "" then "Busy" else spec.busyLabel)]
  {
    var c := PublicIsIncluded(src, spec, zones, e);
    assert SeriesField(field) || ShowsField(e, c, field, Effective(spec), BusyLabel(spec));
    PresetGives(spec.preset, field);
    PresetGives(spec.preset, "SUMMARY");
  }

  /** And no alarm, unless the view overrides the rule for alarms; an alarm that is
      carried has nothing but its mechanics. */
  lemma {:induction false} PublicAlarms(src: Component, spec: Spec, zones: ZoneDb, e: Component, i: nat)
    requires WellFormedZones(zones) && IsPublic(src, spec, zones, e) && i < |e.children| && e.children[i].name == VALARM
    ensures VALARM in spec.fieldOverrides && spec.fieldOverrides[VALARM] != Strip
    ensures e.children[i].children == [] && forall f :: f in e.children[i].props ==> IsMechanic(f)
  {
    var c := PublicIsIncluded(src, spec, zones, e);
    PresetGives(spec.preset, VALARM);
    NonAlarmsOnly(c.children);
    assert ShowsChildren(e.children, c.children, Effective(spec));
    if Effective(spec)[VALARM] == Strip {
      assert false;
    }
    assert ShowsChild(e.children[i], c.children[i]);
  }

  lemma {:induction false} NonAlarmsOnly(children: seq<Component>)
    ensures forall i :: 0 <= i < |NonAlarms(children)| ==> NonAlarms(children)[i].name != VALARM
  {
    if children != [] { NonAlarmsOnly(children[..|children| - 1]); }
  }
}
