/** What a view reveals: outputs depend on the kept fields only, and an event's
    output determines them. */
module ViewPrivacy {
  import opened Components
  import opened ViewRules
  import opened Timezones
  import opened ViewFilter

  ghost predicate SameField(a: Component, b: Component, field: string) {
    && (field in a.props <==> field in b.props)
    && (field in a.props ==> a.props[field] == b.props[field])
  }

  /** The eight properties that say which event it is and when. */
  predicate DefinesEvent(field: string) {
    || field == "UID" || field == "RECURRENCE-ID" || field == "DTSTART" || field == "DTEND" || field == "DURATION"
    || field == "RRULE" || field == "RDATE" || field == "EXDATE"
  }

  /** Default-strip: a field is published if a rule keeps or replaces it, or if it is
      one of the eight and no rule strips it. */
  predicate Published(field: string, rules: Rules) {
    || (field in rules && (rules[field] == Keep || rules[field] == Replace))
    || (DefinesEvent(field) && (field in rules ==> rules[field] != Strip))
  }

  predicate Relabelled(rules: Rules) {
    "SUMMARY" in rules && rules["SUMMARY"] == Replace
  }

  /** The fields whose source values reach the output. */
  predicate Revealed(field: string, rules: Rules) {
    Published(field, rules) && !(field == "SUMMARY" && Relabelled(rules))
  }

  predicate IsMechanic(field: string) {
    field == "ACTION" || field == "TRIGGER" || field == "DURATION" || field == "REPEAT"
  }

  ghost predicate SameChild(a: Component, b: Component) {
    && (a.name == VALARM <==> b.name == VALARM)
    && (a.name != VALARM ==> a == b)
    && (a.name == VALARM ==> forall f :: IsMechanic(f) ==> SameField(a, b, f))
  }

  ghost predicate SameChildren(a: seq<Component>, b: seq<Component>, rules: Rules) {
    if "VALARM" in rules && rules["VALARM"] == Strip then NonAlarms(a) == NonAlarms(b)
    else |a| == |b| && forall i :: 0 <= i < |a| ==> SameChild(a[i], b[i])
  }

  /** Agreement on everything the rules let through of one event. */
  ghost predicate RevealsSame(a: Component, b: Component, rules: Rules) {
    && (forall f :: Revealed(f, rules) ==> SameField(a, b, f))
    && SameChildren(a.children, b.children, rules)
  }

  // ----- One event: the output and the revealed part determine each other -----

  /** Field by field, what a filtered event carries. */
  lemma {:induction false} FilteredField(c: Component, rules: Rules, busy: string, field: string)
    ensures var out := Filtered(c, rules, busy).props;
      if field == "SUMMARY" && Relabelled(rules) then
        field in out && out[field] == [TextProp("SUMMARY", busy)]
      else
        && (field in out <==> field in c.props && Published(field, rules))
        && (field in out ==> out[field] == c.props[field])
  {
    assert Survives(field, rules) <==> Published(field, rules) by { assert field in STRUCTURAL <==> DefinesEvent(field); }
  }

  lemma {:induction false} FilteredPropsExact(a: Component, b: Component, rules: Rules, busy: string)
    ensures FilteredProps(a.props, rules, busy) == FilteredProps(b.props, rules, busy) <==>
      forall f :: Revealed(f, rules) ==> SameField(a, b, f)
  {
    var pa, pb := FilteredProps(a.props, rules, busy), FilteredProps(b.props, rules, busy);
    assert pa == Filtered(a, rules, busy).props && pb == Filtered(b, rules, busy).props;
    forall f
      ensures Revealed(f, rules) ==> (((f in pa <==> f in pb) && (f in pa ==> pa[f] == pb[f])) <==> SameField(a, b, f))
      ensures !Revealed(f, rules) ==> ((f in pa <==> f in pb) && (f in pa ==> pa[f] == pb[f]))
    {
      FilteredField(a, rules, busy, f);
      FilteredField(b, rules, busy, f);
    }
    if forall f :: Revealed(f, rules) ==> SameField(a, b, f) {
      assert pa.Keys == pb.Keys;
    }
  }

  lemma {:induction false} FilteredChildrenStripped(children: seq<Component>, rules: Rules)
    requires StripsAlarms(rules)
    ensures FilteredChildren(children, rules) == NonAlarms(children)
  {
    if children != [] { FilteredChildrenStripped(children[..|children| - 1], rules); }
  }

  lemma {:induction false} FilteredChildrenKept(children: seq<Component>, rules: Rules)
    requires !StripsAlarms(rules)
    ensures var out := FilteredChildren(children, rules);
      && |out| == |children|
      && forall i :: 0 <= i < |children| ==>
           out[i] == if children[i].name == VALARM then SanitizedAlarm(children[i]) else children[i]
  {
    if children != [] { FilteredChildrenKept(children[..|children| - 1], rules); }
  }

  lemma {:induction false} SanitizedAlarmExact(a: Component, b: Component)
    ensures SanitizedAlarm(a) == SanitizedAlarm(b) <==> forall f :: IsMechanic(f) ==> SameField(a, b, f)
  {
    var pa, pb := SanitizedAlarm(a).props, SanitizedAlarm(b).props;
    assert forall f :: IsMechanic(f) <==> f in MECHANICS;
    if pa == pb {
      forall f | IsMechanic(f) ensures SameField(a, b, f) {
        assert f in pa <==> f in a.props;
        assert f in pb <==> f in b.props;
      }
    }
    if forall f :: IsMechanic(f) ==> SameField(a, b, f) {
      assert pa.Keys == pb.Keys;
    }
  }

  lemma {:induction false} FilteredChildrenExact(a: seq<Component>, b: seq<Component>, rules: Rules)
    ensures FilteredChildren(a, rules) == FilteredChildren(b, rules) <==> SameChildren(a, b, rules)
  {
    if StripsAlarms(rules) {
      FilteredChildrenStripped(a, rules);
      FilteredChildrenStripped(b, rules);
    } else {
      FilteredChildrenKept(a, rules);
      FilteredChildrenKept(b, rules);
      var oa, ob := FilteredChildren(a, rules), FilteredChildren(b, rules);
      if |a| == |b| {
        forall i | 0 <= i < |a| ensures oa[i] == ob[i] <==> SameChild(a[i], b[i]) {
          SanitizedAlarmExact(a[i], b[i]);
        }
      }
    }
  }

  /** The published form of two events is the same exactly when they agree on
      what the rules reveal: nothing else shows, and all of that does. */
  lemma {:induction false} FilterRevealsExactly(a: Component, b: Component, rules: Rules, busy: string)
    ensures Filtered(a, rules, busy) == Filtered(b, rules, busy) <==> RevealsSame(a, b, rules)
  {
    FilteredPropsExact(a, b, rules, busy);
    FilteredChildrenExact(a.children, b.children, rules);
  }

  // ----- Whole calendars -----

  /** Agreement of two events on what an applied view may depend on: the include
      verdict, the place in a series and, unless both are dropped, the structure
      and the revealed fields. */
  ghost predicate Indistinct(a: Component, b: Component, rules: Rules, spec: Spec) {
    && Dropped(a, spec) == Dropped(b, spec)
    && SamePlace(a, b)
    && (Dropped(a, spec) || ((forall f :: f in STRUCTURAL ==> SameField(a, b, f)) && RevealsSame(a, b, rules)))
  }

  /** The same UID and RECURRENCE-ID value, and both with or both without a rule:
      what still shows of a dropped event. */
  predicate SamePlace(a: Component, b: Component) {
    && ValueOf(a, "UID") == ValueOf(b, "UID") && Has(a, "RRULE") == Has(b, "RRULE")
    && Has(a, RECURRENCE_ID) == Has(b, RECURRENCE_ID) && ValueOf(a, RECURRENCE_ID) == ValueOf(b, RECURRENCE_ID)
  }

  ghost predicate IndistinctAll(a: seq<Component>, b: seq<Component>, rules: Rules, spec: Spec) {
    |a| == |b| && forall i :: 0 <= i < |a| ==> Indistinct(a[i], b[i], rules, spec)
  }

  lemma {:induction false} IndistinctEnds(a: seq<Component>, b: seq<Component>, rules: Rules, spec: Spec)
    requires IndistinctAll(a, b, rules, spec) && a != []
    ensures IndistinctAll(a[..|a| - 1], b[..|a| - 1], rules, spec) && Indistinct(a[|a| - 1], b[|a| - 1], rules, spec)
  {}

  lemma {:induction false} IndistinctSnoc(a: seq<Component>, b: seq<Component>, c: Component, d: Component, rules: Rules, spec: Spec)
    requires IndistinctAll(a, b, rules, spec) && Indistinct(c, d, rules, spec)
    ensures IndistinctAll(a + [c], b + [d], rules, spec)
  {}

  lemma {:induction false} OverridesIndistinct(a: seq<Component>, b: seq<Component>, rules: Rules, spec: Spec)
    requires IndistinctAll(a, b, rules, spec)
    ensures IndistinctAll(Overrides(a), Overrides(b), rules, spec)
  {
    if a != [] {
      var k := |a| - 1;
      IndistinctEnds(a, b, rules, spec);
      OverridesIndistinct(a[..k], b[..k], rules, spec);
      IndistinctSnoc(Overrides(a[..k]), Overrides(b[..k]), a[k], b[k], rules, spec);
    }
  }

  lemma {:induction false} MasterIndistinct(a: seq<Component>, b: seq<Component>, rules: Rules, spec: Spec)
    requires IndistinctAll(a, b, rules, spec)
    ensures Master(a).Some? == Master(b).Some?
    ensures Master(a).Some? ==> Indistinct(Master(a).value, Master(b).value, rules, spec)
  {
    if a != [] {
      var k := |a| - 1;
      MasterIndistinct(a[..k], b[..k], rules, spec);
    }
  }

  lemma {:induction false} SiftIndistinct(a: seq<Component>, b: seq<Component>, rules: Rules, spec: Spec, dropped: bool)
    requires IndistinctAll(a, b, rules, spec)
    ensures IndistinctAll(Sift(a, spec, dropped), Sift(b, spec, dropped), rules, spec)
    ensures forall c :: c in Sift(a, spec, dropped) ==> Dropped(c, spec) == dropped
  {
    if a != [] {
      var k := |a| - 1;
      IndistinctEnds(a, b, rules, spec);
      SiftIndistinct(a[..k], b[..k], rules, spec, dropped);
      IndistinctSnoc(Sift(a[..k], spec, dropped), Sift(b[..k], spec, dropped), a[k], b[k], rules, spec);
    }
  }

  lemma {:induction false} FilteredAllIndistinct(a: seq<Component>, b: seq<Component>, rules: Rules, spec: Spec)
    requires IndistinctAll(a, b, rules, spec) && forall c :: c in a ==> !Dropped(c, spec)
    ensures FilteredAll(a, rules, BusyLabel(spec)) == FilteredAll(b, rules, BusyLabel(spec))
    ensures PromotedAll(a, rules, BusyLabel(spec)) == PromotedAll(b, rules, BusyLabel(spec))
  {
    forall i | 0 <= i < |a|
      ensures Filtered(a[i], rules, BusyLabel(spec)) == Filtered(b[i], rules, BusyLabel(spec))
      ensures PromotedUid(a[i]) == PromotedUid(b[i])
    {
      assert a[i] in a;
      FilterRevealsExactly(a[i], b[i], rules, BusyLabel(spec));
    }
  }

  lemma {:induction false} ExdatesIndistinct(a: seq<Component>, b: seq<Component>, rules: Rules, spec: Spec, tzid: string)
    requires IndistinctAll(a, b, rules, spec)
    ensures HidingExdates(a, tzid) == HidingExdates(b, tzid)
  {
    assert forall i :: 0 <= i < |a| ==> SamePlace(a[i], b[i]);
  }

  lemma {:induction false} SeriesIndistinct(a: seq<Component>, b: seq<Component>, rules: Rules, spec: Spec)
    requires IndistinctAll(a, b, rules, spec)
    ensures FilteredSeries(a, rules, spec) == FilteredSeries(b, rules, spec)
  {
    OverridesIndistinct(a, b, rules, spec);
    MasterIndistinct(a, b, rules, spec);
    if !IsRecurring(a) {
      SiftIndistinct(a, b, rules, spec, false);
      FilteredAllIndistinct(Sift(a, spec, false), Sift(b, spec, false), rules, spec);
    } else {
      var ma, mb := Master(a).value, Master(b).value;
      SiftIndistinct(Overrides(a), Overrides(b), rules, spec, false);
      FilteredAllIndistinct(Sift(Overrides(a), spec, false), Sift(Overrides(b), spec, false), rules, spec);
      SiftIndistinct(Overrides(a), Overrides(b), rules, spec, true);
      ExdatesIndistinct(Sift(Overrides(a), spec, true), Sift(Overrides(b), spec, true), rules, spec, TzidOf(ma, "DTSTART"));
      if !Dropped(ma, spec) {
        assert SameField(ma, mb, "DTSTART");
        FilterRevealsExactly(ma, mb, rules, BusyLabel(spec));
      }
    }
  }

  lemma {:induction false} GroupIndistinct(a: seq<Component>, b: seq<Component>, rules: Rules, spec: Spec, uid: string)
    requires IndistinctAll(a, b, rules, spec)
    ensures IndistinctAll(Group(a, uid), Group(b, uid), rules, spec)
  {
    if a != [] {
      var k := |a| - 1;
      IndistinctEnds(a, b, rules, spec);
      GroupIndistinct(a[..k], b[..k], rules, spec, uid);
      IndistinctSnoc(Group(a[..k], uid), Group(b[..k], uid), a[k], b[k], rules, spec);
    }
  }

  lemma {:induction false} UidOrderIndistinct(a: seq<Component>, b: seq<Component>, rules: Rules, spec: Spec)
    requires IndistinctAll(a, b, rules, spec)
    ensures UidOrder(a) == UidOrder(b)
  {
    if a != [] {
      var k := |a| - 1;
      UidOrderIndistinct(a[..k], b[..k], rules, spec);
    }
  }

  lemma {:induction false} GroupsIndistinct(order: seq<string>, a: seq<Component>, b: seq<Component>, rules: Rules, spec: Spec)
    requires IndistinctAll(a, b, rules, spec)
    ensures FilteredGroups(order, a, rules, spec) == FilteredGroups(order, b, rules, spec)
  {
    if order != [] {
      var k := |order| - 1;
      GroupsIndistinct(order[..k], a, b, rules, spec);
      GroupIndistinct(a, b, rules, spec, order[k]);
      SeriesIndistinct(Group(a, order[k]), Group(b, order[k]), rules, spec);
    }
  }

  /** Non-interference: calendars whose events are indistinct under the view give
      the same public calendar, whatever their hidden fields hold. */
  lemma {:induction false} ApplyNonInterference(src: Component, other: Component, spec: Spec, zones: ZoneDb)
    requires IndistinctAll(Events(src.children), Events(other.children), Effective(spec), spec)
    ensures Applied(src, spec, zones) == Applied(other, spec, zones)
  {
    var a, b := Events(src.children), Events(other.children);
    UidOrderIndistinct(a, b, Effective(spec), spec);
    GroupsIndistinct(UidOrder(a), a, b, Effective(spec), spec);
  }

  /** Under a view that replaces titles, giving an event a title, changing it or
      removing it leaves the public calendar unchanged. */
  lemma {:induction false} TitlePresenceHidden(src: Component, i: nat, title: seq<Prop>, spec: Spec, zones: ZoneDb)
    requires i < |src.children| && ReplacesSummary(Effective(spec))
    ensures var c := src.children[i];
      var titled := src.(children := src.children[i := c.(props := c.props["SUMMARY" := title])]);
      var untitled := src.(children := src.children[i := c.(props := c.props - {"SUMMARY"})]);
      Applied(src, spec, zones) == Applied(titled, spec, zones) == Applied(untitled, spec, zones)
  {
    var c := src.children[i];
    var titled := src.(children := src.children[i := c.(props := c.props["SUMMARY" := title])]);
    var untitled := src.(children := src.children[i := c.(props := c.props - {"SUMMARY"})]);
    IndistinctIfOnlyTitle(src.children, titled.children, Effective(spec), spec);
    IndistinctIfOnlyTitle(src.children, untitled.children, Effective(spec), spec);
    ApplyNonInterference(src, titled, spec, zones);
    ApplyNonInterference(src, untitled, spec, zones);
  }

  /** What a dropped event holds stays hidden, in whatever series it stands: any
      other dropped event of the same place gives the same public calendar. */
  lemma {:induction false} DroppedDetailsHidden(src: Component, i: nat, c: Component, spec: Spec, zones: ZoneDb)
    requires i < |src.children| && src.children[i].name == VEVENT && c.name == VEVENT
    requires Dropped(src.children[i], spec) && Dropped(c, spec) && SamePlace(src.children[i], c)
    ensures Applied(src.(children := src.children[i := c]), spec, zones) == Applied(src, spec, zones)
  {
    var other := src.(children := src.children[i := c]);
    ReplacedIndistinct(src.children, i, c, Effective(spec), spec);
    ApplyNonInterference(src, other, spec, zones);
  }

  lemma {:induction false} ReplacedIndistinct(a: seq<Component>, i: nat, c: Component, rules: Rules, spec: Spec)
    requires i < |a| && a[i].name == c.name && Indistinct(a[i], c, rules, spec)
    ensures IndistinctAll(Events(a), Events(a[i := c]), rules, spec)
  {
    var k := |a| - 1;
    if i == k {
      SelfIndistinct(a[..k], rules, spec);
      assert a[i := c][..k] == a[..k];
    } else {
      ReplacedIndistinct(a[..k], i, c, rules, spec);
      SelfSame(a[k], rules, spec);
      assert a[i := c][..k] == a[..k][i := c];
    }
    IndistinctSnoc(Events(a[..k]), Events(a[i := c][..k]), a[k], a[i := c][k], rules, spec);
  }

  lemma {:induction false} SelfIndistinct(a: seq<Component>, rules: Rules, spec: Spec)
    ensures IndistinctAll(Events(a), Events(a), rules, spec)
  {
    forall i | 0 <= i < |Events(a)| ensures Indistinct(Events(a)[i], Events(a)[i], rules, spec) {
      SelfSame(Events(a)[i], rules, spec);
    }
  }

  lemma {:induction false} SelfSame(c: Component, rules: Rules, spec: Spec)
    ensures Indistinct(c, c, rules, spec)
  {
    FilterRevealsExactly(c, c, rules, "");
  }

  ghost predicate OnlyTitleDiffers(a: Component, b: Component) {
    a.name == b.name && a.children == b.children && forall f :: f != "SUMMARY" ==> SameField(a, b, f)
  }

  lemma {:induction false} OnlyTitleIndistinct(a: Component, b: Component, rules: Rules, spec: Spec)
    requires OnlyTitleDiffers(a, b) && ReplacesSummary(rules)
    ensures Indistinct(a, b, rules, spec)
  {
    assert SameField(a, b, "CLASS") && SameField(a, b, "STATUS") && SameField(a, b, "TRANSP");
    assert SameField(a, b, "UID") && SameField(a, b, RECURRENCE_ID) && SameField(a, b, "RRULE");
    assert Dropped(a, spec) == Dropped(b, spec);
    assert SameChildren(a.children, b.children, rules) by {
      forall i | 0 <= i < |a.children| ensures SameChild(a.children[i], b.children[i]) {}
    }
  }

  lemma {:induction false} IndistinctIfOnlyTitle(a: seq<Component>, b: seq<Component>, rules: Rules, spec: Spec)
    requires |a| == |b| && forall i :: 0 <= i < |a| ==> OnlyTitleDiffers(a[i], b[i])
    requires ReplacesSummary(rules)
    ensures IndistinctAll(Events(a), Events(b), rules, spec)
  {
    if a != [] {
      var k := |a| - 1;
      IndistinctIfOnlyTitle(a[..k], b[..k], rules, spec);
      assert a[k].name == b[k].name;
      OnlyTitleIndistinct(a[k], b[k], rules, spec);
    }
  }
}
