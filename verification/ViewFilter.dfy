/** The privacy filter over recurring series (internal/views/filter.go): the
    specification functions and the loops that compute them. */
module ViewFilter {
  import opened Components
  import opened ViewRules
  import opened Timezones

  /** dropByFlags: whether the include flags exclude an event. */
  predicate Dropped(c: Component, spec: Spec) {
    var status := ValueOf(c, "STATUS");
    || (ValueOf(c, "CLASS") in {"PRIVATE", "CONFIDENTIAL"} && !spec.includePrivate)
    || (status == "CANCELLED" && !spec.includeCancelled)
    || (status == "TENTATIVE" && !spec.includeTentative)
    || (ValueOf(c, "TRANSP") == "TRANSPARENT" && !spec.includeTransparent)
  }

  // ----- One event -----

  /** Whether a property is emitted at all: default-strip. */
  predicate Survives(field: string, rules: Rules) {
    match RuleFor(rules, field)
    case Some(Keep) => true
    case Some(Replace) => true
    case Some(Strip) => false
    case _ => field in STRUCTURAL
  }

  predicate ReplacesSummary(rules: Rules) {
    RuleFor(rules, "SUMMARY") == Some(Replace)
  }

  /** What an emitted property shows. */
  function FieldShown(field: string, ps: seq<Prop>, rules: Rules, busy: string): seq<Prop> {
    if field == "SUMMARY" && ReplacesSummary(rules) then [TextProp("SUMMARY", busy)] else ps
  }

  function FilteredProps(props: Props, rules: Rules, busy: string): Props {
    var kept := map field | field in props && Survives(field, rules) :: FieldShown(field, props[field], rules, busy);
    if ReplacesSummary(rules) && Get(kept, "SUMMARY").None? then kept["SUMMARY" := [TextProp("SUMMARY", busy)]] else kept
  }

  /** sanitizeAlarm keeps only the mechanics of an alarm. */
  const MECHANICS: set<string> := {"ACTION", "TRIGGER", "DURATION", "REPEAT"}

  function SanitizedAlarm(alarm: Component): Component {
    Component(VALARM, map field | field in alarm.props && field in MECHANICS :: alarm.props[field], [])
  }

  predicate StripsAlarms(rules: Rules) {
    RuleFor(rules, VALARM) == Some(Strip)
  }

  function FilteredChildren(children: seq<Component>, rules: Rules): seq<Component>
    decreases |children|
  {
    if children == [] then []
    else
      var k := |children| - 1;
      FilteredChildren(children[..k], rules) +
      if children[k].name != VALARM then [children[k]]
      else if StripsAlarms(rules) then []
      else [SanitizedAlarm(children[k])]
  }

  function Filtered(src: Component, rules: Rules, busy: string): Component {
    Component(VEVENT, FilteredProps(src.props, rules, busy), FilteredChildren(src.children, rules))
  }

  method SanitizeAlarm(src: Component) returns (dst: Component)
    ensures dst == SanitizedAlarm(src)
  {
    var props: Props := map[];
    var names := src.props.Keys;
    while names != {}
      invariant names <= src.props.Keys
      invariant props == map f | f in src.props && f !in names && f in MECHANICS :: src.props[f]
      decreases names
    {
      var name :| name in names;
      if name in MECHANICS { props := props[name := src.props[name]]; }
      names := names - {name};
    }
    dst := Component(VALARM, props, []);
  }

  method FilterField(name: string, ps: seq<Prop>, rules: Rules, busy: string) returns (kept: Option<seq<Prop>>)
    ensures kept == if Survives(name, rules) then Some(FieldShown(name, ps, rules, busy)) else None
  {
    kept := None;
    match RuleFor(rules, name) {
      case Some(Keep) => kept := Some(ps);
      case Some(Replace) => kept := Some(if name == "SUMMARY" then [TextProp("SUMMARY", busy)] else ps);
      case Some(Strip) =>
      case _ => if name in STRUCTURAL { kept := Some(ps); }
    }
  }

  method FilterProps(src: Props, rules: Rules, busy: string) returns (dst: Props)
    ensures dst == FilteredProps(src, rules, busy)
  {
    dst := map[];
    var names := src.Keys;
    while names != {}
      invariant names <= src.Keys
      invariant dst == map f | f in src && f !in names && Survives(f, rules) :: FieldShown(f, src[f], rules, busy)
      decreases names
    {
      var name :| name in names;
      var kept := FilterField(name, src[name], rules, busy);
      if kept.Some? { dst := dst[name := kept.value]; }
      names := names - {name};
    }
    if RuleFor(rules, "SUMMARY") == Some(Replace) && Get(dst, "SUMMARY") == None {
      dst := dst["SUMMARY" := [TextProp("SUMMARY", busy)]];
    }
  }

  method FilterEvent(src: Component, rules: Rules, busy: string) returns (dst: Component)
    ensures dst == Filtered(src, rules, busy)
  {
    var props := FilterProps(src.props, rules, busy);
    var children: seq<Component> := [];
    for i := 0 to |src.children|
      invariant children == FilteredChildren(src.children[..i], rules)
    {
      var sub := src.children[i];
      assert src.children[..i + 1][..i] == src.children[..i];
      if sub.name == VALARM {
        if RuleFor(rules, VALARM) == Some(Strip) { continue; }
        var alarm := SanitizeAlarm(sub);
        children := children + [alarm];
        continue;
      }
      children := children + [sub];
    }
    assert src.children[..|src.children|] == src.children;
    dst := Component(VEVENT, props, children);
  }

  // ----- One series -----

  /** The components with RECURRENCE-ID, in order. */
  function Overrides(comps: seq<Component>): seq<Component>
    decreases |comps|
  {
    if comps == [] then []
    else
      var k := |comps| - 1;
      Overrides(comps[..k]) + if Has(comps[k], RECURRENCE_ID) then [comps[k]] else []
  }

  /** Those the flags include (or exclude), in order. */
  function Sift(comps: seq<Component>, spec: Spec, dropped: bool): seq<Component>
    decreases |comps|
  {
    if comps == [] then []
    else
      var k := |comps| - 1;
      Sift(comps[..k], spec, dropped) + if Dropped(comps[k], spec) == dropped then [comps[k]] else []
  }

  function FilteredAll(comps: seq<Component>, rules: Rules, busy: string): seq<Component> {
    seq(|comps|, i requires 0 <= i < |comps| => Filtered(comps[i], rules, busy))
  }

  /** The EXDATE that hides an override's instance, in the master's zone. */
  function Exdate(override: Component, tzid: string): Prop {
    Prop("EXDATE", if tzid != "" then map["TZID" := [tzid]] else map[], ValueOf(override, RECURRENCE_ID))
  }

  function HidingExdates(lost: seq<Component>, tzid: string): seq<Prop> {
    seq(|lost|, i requires 0 <= i < |lost| => Exdate(lost[i], tzid))
  }

  function WithExdates(master: Component, lost: seq<Component>, tzid: string): Component {
    if lost == [] then master
    else master.(props := master.props["EXDATE" := AllOf(master.props, "EXDATE") + HidingExdates(lost, tzid)])
  }

  function SanitizedId(s: string): string {
    seq(|s|, i requires 0 <= i < |s| => if IsAlnum(s[i]) then s[i] else '-')
  }

  predicate IsAlnum(c: char) {
    'a' <= c <= 'z' || 'A' <= c <= 'Z' || '0' <= c <= '9'
  }

  function PromotedUid(override: Component): string {
    ValueOf(override, "UID") + "-" + SanitizedId(ValueOf(override, RECURRENCE_ID))
  }

  /** A surviving override of an excluded master, as a standalone event. */
  function Promoted(override: Component, rules: Rules, busy: string): Component {
    var kept := Filtered(override, rules, busy);
    kept.(props := (kept.props - {RECURRENCE_ID, "RRULE"})["UID" := [Prop("UID", map[], PromotedUid(override))]])
  }

  function PromotedAll(overrides: seq<Component>, rules: Rules, busy: string): seq<Component> {
    seq(|overrides|, i requires 0 <= i < |overrides| => Promoted(overrides[i], rules, busy))
  }

  predicate IsRecurring(comps: seq<Component>) {
    Master(comps).Some? && Has(Master(comps).value, "RRULE")
  }

  function FilteredSeries(comps: seq<Component>, rules: Rules, spec: Spec): seq<Component> {
    var busy := BusyLabel(spec);
    if !IsRecurring(comps) then
      FilteredAll(Sift(comps, spec, false), rules, busy)
    else
      var master := Master(comps).value;
      var overrides := Overrides(comps);
      var shown := Sift(overrides, spec, false);
      if Dropped(master, spec) then
        PromotedAll(shown, rules, busy)
      else
        [WithExdates(Filtered(master, rules, busy), Sift(overrides, spec, true), TzidOf(master, "DTSTART"))] +
        FilteredAll(shown, rules, busy)
  }

  method AddExdate(master: Component, override: Component, tzid: string) returns (out: Component)
    ensures out == if Has(override, RECURRENCE_ID) then WithExdates(master, [override], tzid) else master
  {
    var rid := Get(override.props, RECURRENCE_ID);
    if rid == None { return master; }
    var ex := Prop("EXDATE", map[], rid.value.value);
    if tzid != "" { ex := ex.(params := map["TZID" := [tzid]]); }
    assert HidingExdates([override], tzid) == [ex];
    out := master.(props := master.props["EXDATE" := AllOf(master.props, "EXDATE") + [ex]]);
  }

  method SanitizeId(s: string) returns (out: string)
    ensures out == SanitizedId(s)
  {
    out := [];
    for i := 0 to |s|
      invariant out == SanitizedId(s[..i])
    {
      if 'a' <= s[i] <= 'z' || 'A' <= s[i] <= 'Z' || '0' <= s[i] <= '9' {
        out := out + [s[i]];
      } else {
        out := out + ['-'];
      }
    }
    assert s[..|s|] == s;
  }

  lemma {:induction false} WithExdatesSnoc(master: Component, lost: seq<Component>, next: Component, tzid: string)
    ensures WithExdates(WithExdates(master, lost, tzid), [next], tzid) == WithExdates(master, lost + [next], tzid)
  {
    assert HidingExdates(lost + [next], tzid) == HidingExdates(lost, tzid) + [Exdate(next, tzid)];
    assert HidingExdates([next], tzid) == [Exdate(next, tzid)];
    if lost == [] {
      assert lost + [next] == [next];
    } else {
      var all := AllOf(master.props, "EXDATE") + HidingExdates(lost, tzid);
      assert all + HidingExdates([next], tzid) == AllOf(master.props, "EXDATE") + HidingExdates(lost + [next], tzid);
      assert WithExdates(master, lost + [next], tzid).props ==
        WithExdates(WithExdates(master, lost, tzid), [next], tzid).props;
    }
  }

  method SplitSeries(comps: seq<Component>) returns (master: Option<Component>, overrides: seq<Component>)
    ensures master == Master(comps) && overrides == Overrides(comps)
    ensures forall c :: c in overrides ==> Has(c, RECURRENCE_ID)
  {
    master, overrides := None, [];
    for i := 0 to |comps|
      invariant master == Master(comps[..i]) && overrides == Overrides(comps[..i])
      invariant forall c :: c in overrides ==> Has(c, RECURRENCE_ID)
    {
      assert comps[..i + 1][..i] == comps[..i];
      if Get(comps[i].props, RECURRENCE_ID) == None && master == None {
        master := Some(comps[i]);
      } else if Get(comps[i].props, RECURRENCE_ID) != None {
        overrides := overrides + [comps[i]];
      }
    }
    assert comps[..|comps|] == comps;
  }

  method FilterEach(comps: seq<Component>, rules: Rules, spec: Spec) returns (out: seq<Component>)
    ensures out == FilteredAll(Sift(comps, spec, false), rules, BusyLabel(spec))
  {
    out := [];
    for i := 0 to |comps|
      invariant out == FilteredAll(Sift(comps[..i], spec, false), rules, BusyLabel(spec))
    {
      assert comps[..i + 1][..i] == comps[..i];
      if !Dropped(comps[i], spec) {
        var kept := FilterEvent(comps[i], rules, BusyLabel(spec));
        out := out + [kept];
      }
    }
    assert comps[..|comps|] == comps;
  }

  lemma {:induction false} SiftSnoc(comps: seq<Component>, c: Component, spec: Spec)
    ensures Sift(comps + [c], spec, true) == if Dropped(c, spec) then Sift(comps, spec, true) + [c] else Sift(comps, spec, true)
    ensures Sift(comps + [c], spec, false) == if Dropped(c, spec) then Sift(comps, spec, false) else Sift(comps, spec, false) + [c]
  {
    assert (comps + [c])[..|comps|] == comps;
  }

  lemma {:induction false} SiftPrefix(comps: seq<Component>, i: nat, spec: Spec)
    requires i < |comps|
    ensures Sift(comps[..i + 1], spec, true) ==
      if Dropped(comps[i], spec) then Sift(comps[..i], spec, true) + [comps[i]] else Sift(comps[..i], spec, true)
    ensures Sift(comps[..i + 1], spec, false) ==
      if Dropped(comps[i], spec) then Sift(comps[..i], spec, false) else Sift(comps[..i], spec, false) + [comps[i]]
  {
    assert comps[..i + 1] == comps[..i] + [comps[i]];
    SiftSnoc(comps[..i], comps[i], spec);
  }

  /** One override, kept or hidden, after those that were lost and shown before. */
  method ReconcileOne(kept: Component, out: seq<Component>, ov: Component, rules: Rules, spec: Spec, tzid: string,
                      ghost plain: Component, ghost lost: seq<Component>, ghost shown: seq<Component>)
    returns (kept': Component, out': seq<Component>)
    requires Has(ov, RECURRENCE_ID) && kept == WithExdates(plain, lost, tzid) && out == FilteredAll(shown, rules, BusyLabel(spec))
    ensures kept' == WithExdates(plain, if Dropped(ov, spec) then lost + [ov] else lost, tzid)
    ensures out' == FilteredAll(if Dropped(ov, spec) then shown else shown + [ov], rules, BusyLabel(spec))
  {
    kept', out' := kept, out;
    if Dropped(ov, spec) {
      WithExdatesSnoc(plain, lost, ov, tzid);
      kept' := AddExdate(kept, ov, tzid);
    } else {
      var filtered := FilterEvent(ov, rules, BusyLabel(spec));
      out' := out + [filtered];
    }
  }

  /** Reconciles the overrides of an included master. */
  method Reconcile(master: Component, overrides: seq<Component>, rules: Rules, spec: Spec)
    returns (kept: Component, out: seq<Component>)
    requires forall c :: c in overrides ==> Has(c, RECURRENCE_ID)
    ensures kept == WithExdates(Filtered(master, rules, BusyLabel(spec)), Sift(overrides, spec, true), TzidOf(master, "DTSTART"))
    ensures out == FilteredAll(Sift(overrides, spec, false), rules, BusyLabel(spec))
  {
    var busy := BusyLabel(spec);
    var tzid := TzidOf(master, "DTSTART");
    kept := FilterEvent(master, rules, busy);
    ghost var plain := kept;
    out := [];
    for i := 0 to |overrides|
      invariant kept == WithExdates(plain, Sift(overrides[..i], spec, true), tzid)
      invariant out == FilteredAll(Sift(overrides[..i], spec, false), rules, busy)
    {
      SiftPrefix(overrides, i, spec);
      assert overrides[i] in overrides;
      kept, out := ReconcileOne(kept, out, overrides[i], rules, spec, tzid, plain,
                                Sift(overrides[..i], spec, true), Sift(overrides[..i], spec, false));
    }
    assert overrides[..|overrides|] == overrides;
  }

  method PromoteOne(ov: Component, rules: Rules, busy: string) returns (promoted: Component)
    ensures promoted == Promoted(ov, rules, busy)
  {
    promoted := FilterEvent(ov, rules, busy);
    var rid := ValueOf(ov, RECURRENCE_ID);
    promoted := promoted.(props := promoted.props - {RECURRENCE_ID});
    promoted := promoted.(props := promoted.props - {"RRULE"});
    var uid := ValueOf(ov, "UID");
    var suffix := SanitizeId(rid);
    promoted := promoted.(props := promoted.props["UID" := [Prop("UID", map[], uid + "-" + suffix)]]);
  }

  method Promote(overrides: seq<Component>, rules: Rules, spec: Spec) returns (out: seq<Component>)
    ensures out == PromotedAll(Sift(overrides, spec, false), rules, BusyLabel(spec))
  {
    out := [];
    for i := 0 to |overrides|
      invariant out == PromotedAll(Sift(overrides[..i], spec, false), rules, BusyLabel(spec))
    {
      var ov := overrides[i];
      assert overrides[..i + 1][..i] == overrides[..i];
      if Dropped(ov, spec) { continue; }
      var promoted := PromoteOne(ov, rules, BusyLabel(spec));
      out := out + [promoted];
    }
    assert overrides[..|overrides|] == overrides;
  }

  method FilterSeries(comps: seq<Component>, rules: Rules, spec: Spec) returns (out: seq<Component>)
    ensures out == FilteredSeries(comps, rules, spec)
  {
    var master, overrides := SplitSeries(comps);
    if master == None || Get(master.value.props, "RRULE") == None {
      out := FilterEach(comps, rules, spec);
    } else if !Dropped(master.value, spec) {
      var kept, rest := Reconcile(master.value, overrides, rules, spec);
      out := [kept] + rest;
    } else {
      out := Promote(overrides, rules, spec);
    }
  }

  // ----- A whole calendar -----

  /** UIDs in the order in which they first occur. */
  function UidOrder(events: seq<Component>): seq<string>
    decreases |events|
  {
    if events == [] then []
    else
      var k := |events| - 1;
      var uid := ValueOf(events[k], "UID");
      UidOrder(events[..k]) + if uid in UidOrder(events[..k]) then [] else [uid]
  }

  function FilteredGroups(order: seq<string>, events: seq<Component>, rules: Rules, spec: Spec): seq<Component>
    decreases |order|
  {
    if order == [] then []
    else
      var k := |order| - 1;
      FilteredGroups(order[..k], events, rules, spec) + FilteredSeries(Group(events, order[k]), rules, spec)
  }

  /** The events an applied view shows, before zones are added. */
  function ShownEvents(src: Component, spec: Spec): seq<Component> {
    var events := Events(src.children);
    FilteredGroups(UidOrder(events), events, Effective(spec), spec)
  }

  ghost function Applied(src: Component, spec: Spec, zones: ZoneDb): Component {
    Bundle(Component(VCALENDAR, Header(), ShownEvents(src, spec)), zones)
  }

  lemma {:induction false} UidOrderMembers(events: seq<Component>, uid: string)
    ensures uid in UidOrder(events) <==> Group(events, uid) != []
    ensures uid !in UidOrder(events) ==> Group(events, uid) == []
  {
    if events != [] { UidOrderMembers(events[..|events| - 1], uid); }
  }

  lemma {:induction false} OrderSnoc(events: seq<Component>, next: Component)
    ensures UidOrder(events + [next]) ==
      if ValueOf(next, "UID") in UidOrder(events) then UidOrder(events) else UidOrder(events) + [ValueOf(next, "UID")]
  {
    assert (events + [next])[..|events|] == events;
  }

  method GroupByUid(children: seq<Component>) returns (order: seq<string>, groups: map<string, seq<Component>>)
    ensures order == UidOrder(Events(children))
    ensures forall u :: u in groups <==> u in order
    ensures forall u :: u in groups ==> groups[u] == Group(Events(children), u)
  {
    order, groups := [], map[];
    ghost var seen: seq<Component> := [];
    for i := 0 to |children|
      invariant seen == Events(children[..i]) && order == UidOrder(seen)
      invariant forall u :: u in groups <==> u in order
      invariant forall u :: u in groups ==> groups[u] == Group(seen, u)
    {
      var child := children[i];
      assert children[..i + 1][..i] == children[..i];
      if child.name != VEVENT { continue; }
      var uid := ValueOf(child, "UID");
      forall u ensures Group(seen + [child], u) == Group(seen, u) + if uid == u then [child] else [] {
        GroupSnoc(seen, child, u);
      }
      GroupSnoc(seen, child, uid);
      OrderSnoc(seen, child);
      UidOrderMembers(seen, uid);
      if uid !in groups {
        order := order + [uid];
        groups := groups[uid := []];
      }
      groups := groups[uid := groups[uid] + [child]];
      seen := seen + [child];
    }
    assert children[..|children|] == children;
  }

  method Apply(src: Component, spec: Spec, zones: ZoneDb) returns (out: Component)
    ensures out == Applied(src, spec, zones)
  {
    var rules := EffectiveRules(spec);
    out := Component(VCALENDAR, Header(), []);
    var order, groups := GroupByUid(src.children);
    ghost var events := Events(src.children);
    for i := 0 to |order|
      invariant out == Component(VCALENDAR, Header(), FilteredGroups(order[..i], events, rules, spec))
    {
      assert order[..i + 1][..i] == order[..i];
      assert order[i] in order;
      var shown := FilterSeries(groups[order[i]], rules, spec);
      out := out.(children := out.children + shown);
    }
    assert order[..|order|] == order;
    out := BundleTimezones(out, zones);
  }
}
