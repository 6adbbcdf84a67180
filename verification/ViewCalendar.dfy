/** Whole calendars under a view: what an applied view shows, and that applying
    it a second time changes nothing. */
module ViewCalendar {
  import opened Components
  import opened Instants
  import opened ViewRules
  import opened Timezones
  import opened ViewFilter
  import opened ViewPrivacy
  import opened ViewMeaning

  /** The overrides of a UID that a view turns into standalone events. */
  function Promotions(events: seq<Component>, uid: string, spec: Spec): seq<Component> {
    var comps := Group(events, uid);
    if IsRecurring(comps) && Dropped(Master(comps).value, spec) then Sift(Overrides(comps), spec, false) else []
  }

  /** The UIDs that promotions get collide with no UID of the source and, across
      series, not with each other. */
  ghost predicate CollisionFree(events: seq<Component>, spec: Spec) {
    && (forall u, a, b :: a in Promotions(events, u, spec) && b in events ==> PromotedUid(a) != ValueOf(b, "UID"))
    && (forall u, v, a, b :: u != v && a in Promotions(events, u, spec) && b in Promotions(events, v, spec) ==>
          PromotedUid(a) != PromotedUid(b))
  }

  /** Within one series, distinct RECURRENCE-ID values give distinct promoted UIDs. */
  lemma {:induction false} PromotedUidsDistinct(a: Component, b: Component)
    requires IsStamp(ValueOf(a, RECURRENCE_ID)) && IsStamp(ValueOf(b, RECURRENCE_ID))
    requires ValueOf(a, "UID") == ValueOf(b, "UID")
    ensures PromotedUid(a) == PromotedUid(b) <==> ValueOf(a, RECURRENCE_ID) == ValueOf(b, RECURRENCE_ID)
  {
    var ra, rb := ValueOf(a, RECURRENCE_ID), ValueOf(b, RECURRENCE_ID);
    forall i | 0 <= i < |ra| ensures IsAlnum(ra[i]) { assert ra[i] in ra; }
    forall i | 0 <= i < |rb| ensures IsAlnum(rb[i]) { assert rb[i] in rb; }
    assert SanitizedId(ra) == ra && SanitizedId(rb) == rb;
    var prefix := ValueOf(a, "UID") + "-";
    assert (prefix + ra)[|prefix|..] == ra && (prefix + rb)[|prefix|..] == rb;
  }

  // ----- UIDs of the output, block by block -----

  function Block(events: seq<Component>, uid: string, rules: Rules, spec: Spec): seq<Component> {
    FilteredSeries(Group(events, uid), rules, spec)
  }

  ghost predicate BlockUid(events: seq<Component>, spec: Spec, uid: string, v: string) {
    v == uid || exists a :: a in Promotions(events, uid, spec) && v == PromotedUid(a)
  }

  lemma {:induction false} FilteredAllUids(comps: seq<Component>, uid: string, rules: Rules, spec: Spec)
    requires Unmanaged(rules) && forall c :: c in comps ==> ValueOf(c, "UID") == uid
    ensures forall c :: c in FilteredAll(comps, rules, BusyLabel(spec)) ==> ValueOf(c, "UID") == uid
  {
    forall n | 0 <= n < |comps| ensures ValueOf(Filtered(comps[n], rules, BusyLabel(spec)), "UID") == uid {
      FilteredStructure(comps[n], rules, BusyLabel(spec), "UID");
    }
  }

  lemma {:induction false} SiftedUids(comps: seq<Component>, uid: string, rules: Rules, spec: Spec)
    requires Unmanaged(rules) && forall e :: e in comps ==> ValueOf(e, "UID") == uid
    ensures forall c :: c in FilteredAll(Sift(comps, spec, false), rules, BusyLabel(spec)) ==> ValueOf(c, "UID") == uid
  {
    forall e | e in Sift(comps, spec, false) ensures ValueOf(e, "UID") == uid { SiftMembers(comps, spec, false, e); }
    FilteredAllUids(Sift(comps, spec, false), uid, rules, spec);
  }

  lemma {:induction false} GroupOverrides(events: seq<Component>, uid: string, e: Component)
    requires e in Overrides(Group(events, uid))
    ensures e in events && Has(e, RECURRENCE_ID) && ValueOf(e, "UID") == uid
  {
    OverridesMembers(Group(events, uid), e);
    GroupMembers(events, uid, e);
  }

  lemma {:induction false} PromotedBlockUid(events: seq<Component>, uid: string, rules: Rules, spec: Spec, c: Component)
    requires forall e :: e in events ==> e.name == VEVENT
    requires c in PromotedAll(Promotions(events, uid, spec), rules, BusyLabel(spec))
    ensures BlockUid(events, spec, uid, ValueOf(c, "UID")) && c.name == VEVENT
  {
    var shown := Promotions(events, uid, spec);
    var n :| 0 <= n < |shown| && c == Promoted(shown[n], rules, BusyLabel(spec));
    assert shown[n] in shown;
  }

  lemma {:induction false} BlockUids(events: seq<Component>, uid: string, rules: Rules, spec: Spec, c: Component)
    requires Unmanaged(rules) && c in Block(events, uid, rules, spec)
    requires forall e :: e in events ==> e.name == VEVENT
    ensures BlockUid(events, spec, uid, ValueOf(c, "UID")) && c.name == VEVENT
  {
    var comps := Group(events, uid);
    forall e | e in comps ensures ValueOf(e, "UID") == uid { GroupMembers(events, uid, e); }
    if !IsRecurring(comps) {
      SiftedUids(comps, uid, rules, spec);
    } else if Dropped(Master(comps).value, spec) {
      PromotedBlockUid(events, uid, rules, spec, c);
    } else {
      IncludedBlockUid(events, uid, rules, spec, c);
    }
  }

  lemma {:induction false} IncludedBlockUid(events: seq<Component>, uid: string, rules: Rules, spec: Spec, c: Component)
    requires Unmanaged(rules) && c in Block(events, uid, rules, spec)
    requires IsRecurring(Group(events, uid)) && !Dropped(Master(Group(events, uid)).value, spec)
    ensures ValueOf(c, "UID") == uid && c.name == VEVENT
  {
    var comps := Group(events, uid);
    MasterMembers(comps);
    var m := Master(comps).value;
    GroupMembers(events, uid, m);
    forall e | e in Overrides(comps) ensures ValueOf(e, "UID") == uid { GroupOverrides(events, uid, e); }
    SiftedUids(Overrides(comps), uid, rules, spec);
    FilteredStructure(m, rules, BusyLabel(spec), "UID");
  }

  lemma {:induction false} OrderMembers(events: seq<Component>, uid: string)
    ensures uid in UidOrder(events) <==> exists c :: c in events && ValueOf(c, "UID") == uid
  {
    UidOrderMembers(events, uid);
    AbsentGroup(events, uid);
  }

  lemma {:induction false} OrderDistinct(events: seq<Component>)
    ensures forall i, j :: 0 <= i < j < |UidOrder(events)| ==> UidOrder(events)[i] != UidOrder(events)[j]
  {
    if events != [] { OrderDistinct(events[..|events| - 1]); }
  }

  lemma {:induction false} DisjointBlocks(events: seq<Component>, spec: Spec, u: string, u': string, v: string)
    requires CollisionFree(events, spec) && u in UidOrder(events) && u' in UidOrder(events)
    requires BlockUid(events, spec, u, v) && u != u'
    ensures !BlockUid(events, spec, u', v)
  {
    OrderMembers(events, u);
    OrderMembers(events, u');
  }

  /** The UID of a promotion: the series' own, a dash, and the RECURRENCE-ID with all
      but its letters and digits as dashes. */
  lemma {:induction false} PromotedUidReads(c: Component, i: nat)
    requires i < |ValueOf(c, RECURRENCE_ID)|
    ensures var uid, rid, out := ValueOf(c, "UID"), ValueOf(c, RECURRENCE_ID), PromotedUid(c);
      && |out| == |uid| + 1 + |rid| && out[..|uid|] == uid && out[|uid|] == '-'
      && out[|uid| + 1 + i] ==
           if 'a' <= rid[i] <= 'z' || 'A' <= rid[i] <= 'Z' || '0' <= rid[i] <= '9' then rid[i] else '-'
  {}

  lemma {:induction false} GroupConcat(a: seq<Component>, b: seq<Component>, uid: string)
    ensures Group(a + b, uid) == Group(a, uid) + Group(b, uid)
  {
    if b == [] {
      assert a + b == a;
    } else {
      var n := |b| - 1;
      GroupConcat(a, b[..n], uid);
      assert (a + b)[..|a + b| - 1] == a + b[..n];
    }
  }

  lemma {:induction false} GroupsLast(order: seq<string>, events: seq<Component>, rules: Rules, spec: Spec, v: string)
    requires order != []
    ensures var n := |order| - 1;
      Group(FilteredGroups(order, events, rules, spec), v) ==
        Group(FilteredGroups(order[..n], events, rules, spec), v) + Group(Block(events, order[n], rules, spec), v)
  {
    var n := |order| - 1;
    GroupConcat(FilteredGroups(order[..n], events, rules, spec), Block(events, order[n], rules, spec), v);
  }

  lemma {:induction false} GroupsAbsent(order: seq<string>, events: seq<Component>, rules: Rules, spec: Spec, v: string)
    requires forall i :: 0 <= i < |order| ==> Absent(Block(events, order[i], rules, spec), v)
    ensures Group(FilteredGroups(order, events, rules, spec), v) == []
  {
    if order != [] {
      var n := |order| - 1;
      GroupsAbsent(order[..n], events, rules, spec, v);
      GroupsLast(order, events, rules, spec, v);
      AbsentGroup(Block(events, order[n], rules, spec), v);
    }
  }

  /** A UID used by one block only selects the same components from the whole
      output as from that block. */
  lemma {:induction false} GroupsPick(order: seq<string>, events: seq<Component>, rules: Rules, spec: Spec, i: nat, v: string)
    requires i < |order|
    requires forall j :: 0 <= j < |order| && j != i ==> Absent(Block(events, order[j], rules, spec), v)
    ensures Group(FilteredGroups(order, events, rules, spec), v) == Group(Block(events, order[i], rules, spec), v)
  {
    var n := |order| - 1;
    GroupsLast(order, events, rules, spec, v);
    if i == n {
      GroupsAbsent(order[..n], events, rules, spec, v);
    } else {
      GroupsPick(order[..n], events, rules, spec, i, v);
      AbsentGroup(Block(events, order[n], rules, spec), v);
    }
  }

  // ----- What an applied view shows -----

  lemma {:induction false} ShownAreEvents(order: seq<string>, events: seq<Component>, rules: Rules, spec: Spec)
    requires Unmanaged(rules) && forall e :: e in events ==> e.name == VEVENT
    ensures forall i :: 0 <= i < |FilteredGroups(order, events, rules, spec)| ==>
      FilteredGroups(order, events, rules, spec)[i].name == VEVENT
  {
    if order != [] {
      var n := |order| - 1;
      ShownAreEvents(order[..n], events, rules, spec);
      var block := Block(events, order[n], rules, spec);
      forall i | 0 <= i < |block| ensures block[i].name == VEVENT { BlockUids(events, order[n], rules, spec, block[i]); }
    }
  }

  lemma {:induction false} EventsAreEvents(children: seq<Component>)
    ensures forall e :: e in Events(children) ==> e.name == VEVENT
  {
    if children != [] { EventsAreEvents(children[..|children| - 1]); }
  }

  lemma {:induction false} ManagedUnmanaged(spec: Spec)
    requires ManagedOverrides(spec)
    ensures Unmanaged(Effective(spec))
  {
    forall f | f in STRUCTURAL ensures RuleFor(Effective(spec), f) == None { StructuralUnmanaged(spec, f); }
  }

  /** The events of an applied view are the filtered groups; bundling only adds
      zones ahead of them. */
  lemma {:induction false} AppliedEvents(src: Component, spec: Spec, zones: ZoneDb)
    requires ManagedOverrides(spec) && WellFormedZones(zones)
    ensures Events(Applied(src, spec, zones).children) == ShownEvents(src, spec)
  {
    var out := ShownEvents(src, spec);
    ManagedUnmanaged(spec);
    EventsAreEvents(src.children);
    ShownAreEvents(UidOrder(Events(src.children)), Events(src.children), Effective(spec), spec);
    var plain := Component(VCALENDAR, Header(), out);
    BundleResolves(plain, zones);
    EventsConcat(Injected(out, zones), out);
    EventsOfNoEvents(Injected(out, zones));
    EventsOfAllEvents(out);
  }

  /** Each UID has at most one component without RECURRENCE-ID, the dropped
      overrides of included masters read alike, and promotions do not collide. */
  ghost predicate WellWritten(w: World, events: seq<Component>, spec: Spec) {
    && (forall uid :: UniqueMaster(Group(events, uid)) && SlotsReadAlike(w, Group(events, uid), spec))
    && CollisionFree(events, spec)
  }

  /** The instances a view permits of a whole calendar. */
  ghost predicate CalendarPermits(w: World, events: seq<Component>, rules: Rules, spec: Spec, i: Instance) {
    exists uid :: Permitted(w, Group(events, uid), rules, spec, i)
  }

  lemma {:induction false} GroupIsSeries(events: seq<Component>, uid: string)
    requires UniqueMaster(Group(events, uid)) && forall e :: e in events ==> e.name == VEVENT
    ensures OneSeries(Group(events, uid), uid)
  {
    forall c | c in Group(events, uid) ensures ValueOf(c, "UID") == uid && c.name == VEVENT {
      GroupMembers(events, uid, c);
    }
  }

  lemma {:induction false} SeenIsPermitted(w: World, events: seq<Component>, rules: Rules, spec: Spec, i: Instance)
    requires WellWritten(w, events, spec) && Unmanaged(rules) && forall e :: e in events ==> e.name == VEVENT
    requires Seen(w, FilteredGroups(UidOrder(events), events, rules, spec), i)
    ensures exists uid :: Permitted(w, Group(events, uid), rules, spec, i)
  {
    var order := UidOrder(events);
    var out := FilteredGroups(order, events, rules, spec);
    var v, g :| Shows(w, Group(out, v), g, i);
    ShowsNonEmpty(w, Group(out, v), g, i);
    if forall u :: u in order ==> Absent(Block(events, u, rules, spec), v) {
      GroupsAbsent(order, events, rules, spec, v);
      assert false;
    }
    var u :| u in order && !Absent(Block(events, u, rules, spec), v);
    PickBlock(events, rules, spec, u, v);
    assert Seen(w, Block(events, u, rules, spec), i);
    GroupIsSeries(events, u);
    SeriesMeaning(w, Group(events, u), u, rules, spec, i);
  }

  lemma {:induction false} PermittedIsSeen(w: World, events: seq<Component>, uid: string, rules: Rules, spec: Spec, i: Instance)
    requires WellWritten(w, events, spec) && Unmanaged(rules) && forall e :: e in events ==> e.name == VEVENT
    requires Permitted(w, Group(events, uid), rules, spec, i)
    ensures Seen(w, FilteredGroups(UidOrder(events), events, rules, spec), i)
  {
    GroupIsSeries(events, uid);
    SeriesMeaning(w, Group(events, uid), uid, rules, spec, i);
    var block := Block(events, uid, rules, spec);
    var v, g :| Shows(w, Group(block, v), g, i);
    ShowsNonEmpty(w, Group(block, v), g, i);
    AbsentGroup(block, v);
    var c, j :| Shows(w, Group(events, uid), c, j);
    ShowsNonEmpty(w, Group(events, uid), c, j);
    UidOrderMembers(events, uid);
    PickBlock(events, rules, spec, uid, v);
    assert Shows(w, Group(FilteredGroups(UidOrder(events), events, rules, spec), v), g, i);
  }

  lemma {:induction false} GroupsMeaning(w: World, events: seq<Component>, rules: Rules, spec: Spec, i: Instance)
    requires WellWritten(w, events, spec) && Unmanaged(rules) && forall e :: e in events ==> e.name == VEVENT
    ensures Seen(w, FilteredGroups(UidOrder(events), events, rules, spec), i) <==>
      CalendarPermits(w, events, rules, spec, i)
  {
    if Seen(w, FilteredGroups(UidOrder(events), events, rules, spec), i) {
      SeenIsPermitted(w, events, rules, spec, i);
    }
    forall uid | Permitted(w, Group(events, uid), rules, spec, i)
      ensures Seen(w, FilteredGroups(UidOrder(events), events, rules, spec), i)
    {
      PermittedIsSeen(w, events, uid, rules, spec, i);
    }
  }

  lemma {:induction false} ShowsNonEmpty(w: World, comps: seq<Component>, g: Component, i: Instance)
    requires Shows(w, comps, g, i)
    ensures comps != []
  {}

  lemma {:induction false} PickBlock(events: seq<Component>, rules: Rules, spec: Spec, u: string, v: string)
    requires CollisionFree(events, spec) && Unmanaged(rules) && forall e :: e in events ==> e.name == VEVENT
    requires u in UidOrder(events) && !Absent(Block(events, u, rules, spec), v)
    ensures Group(FilteredGroups(UidOrder(events), events, rules, spec), v) == Group(Block(events, u, rules, spec), v)
  {
    var order := UidOrder(events);
    OrderDistinct(events);
    var c :| c in Block(events, u, rules, spec) && ValueOf(c, "UID") == v;
    BlockUids(events, u, rules, spec, c);
    forall o | o in order && o != u ensures Absent(Block(events, o, rules, spec), v) {
      forall d | d in Block(events, o, rules, spec) ensures ValueOf(d, "UID") != v {
        BlockUids(events, o, rules, spec, d);
        DisjointBlocks(events, spec, u, o, v);
      }
    }
    var i :| 0 <= i < |order| && order[i] == u;
    GroupsPick(order, events, rules, spec, i, v);
  }

  /** A public calendar shows exactly the permitted instances of its source. */
  lemma {:induction false} ApplyMeaning(w: World, src: Component, spec: Spec, zones: ZoneDb, i: Instance)
    requires ManagedOverrides(spec) && WellFormedZones(zones) && WellWritten(w, Events(src.children), spec)
    ensures Seen(w, Events(Applied(src, spec, zones).children), i) <==>
      CalendarPermits(w, Events(src.children), Effective(spec), spec, i)
  {
    AppliedEvents(src, spec, zones);
    ManagedUnmanaged(spec);
    EventsAreEvents(src.children);
    GroupsMeaning(w, Events(src.children), Effective(spec), spec, i);
  }

  // ----- Series that leave no trace -----

  /** The events without those of one UID. */
  function Without(events: seq<Component>, uid: string): seq<Component> {
    if events == [] then []
    else
      var n := |events| - 1;
      if ValueOf(events[n], "UID") == uid then Without(events[..n], uid) else Without(events[..n], uid) + [events[n]]
  }

  function Omit(order: seq<string>, uid: string): seq<string> {
    if order == [] then []
    else
      var n := |order| - 1;
      if order[n] == uid then Omit(order[..n], uid) else Omit(order[..n], uid) + [order[n]]
  }

  lemma {:induction false} GroupWithout(events: seq<Component>, uid: string, v: string)
    ensures Group(Without(events, uid), v) == if v == uid then [] else Group(events, v)
  {
    if events != [] {
      var n := |events| - 1;
      GroupWithout(events[..n], uid, v);
      if ValueOf(events[n], "UID") != uid {
        GroupSnoc(Without(events[..n], uid), events[n], v);
      }
      if ValueOf(events[n], "UID") != v {
        assert Group(events, v) == Group(events[..n], v);
      }
    }
  }

  lemma {:induction false} OmitMembers(order: seq<string>, uid: string, v: string)
    ensures v in Omit(order, uid) <==> v in order && v != uid
  {
    if order != [] {
      var n := |order| - 1;
      OmitMembers(order[..n], uid, v);
      assert order == order[..n] + [order[n]];
    }
  }

  lemma {:induction false} OmitSnoc(order: seq<string>, next: string, uid: string)
    ensures Omit(order + [next], uid) == if next == uid then Omit(order, uid) else Omit(order, uid) + [next]
  {
    assert (order + [next])[..|order|] == order;
  }

  lemma {:induction false} WithoutSnoc(events: seq<Component>, next: Component, uid: string)
    ensures Without(events + [next], uid) ==
      if ValueOf(next, "UID") == uid then Without(events, uid) else Without(events, uid) + [next]
  {
    assert (events + [next])[..|events|] == events;
  }

  lemma {:induction false} OrderWithoutSnoc(events: seq<Component>, next: Component, uid: string)
    requires UidOrder(Without(events, uid)) == Omit(UidOrder(events), uid)
    ensures UidOrder(Without(events + [next], uid)) == Omit(UidOrder(events + [next]), uid)
  {
    var v := ValueOf(next, "UID");
    OmitSnoc(UidOrder(events), v, uid);
    OmitMembers(UidOrder(events), uid, v);
    WithoutSnoc(events, next, uid);
    OrderSnoc(events, next);
    if v != uid { OrderSnoc(Without(events, uid), next); }
  }

  lemma {:induction false} OrderWithout(events: seq<Component>, uid: string)
    ensures UidOrder(Without(events, uid)) == Omit(UidOrder(events), uid)
  {
    if events != [] {
      var n := |events| - 1;
      var init, last := events[..n], events[n];
      assert events == init + [last];
      OrderWithout(init, uid);
      OrderWithoutSnoc(init, last, uid);
    }
  }

  lemma {:induction false} GroupsOmit(order: seq<string>, events: seq<Component>, uid: string, rules: Rules, spec: Spec)
    requires Block(events, uid, rules, spec) == []
    ensures FilteredGroups(Omit(order, uid), Without(events, uid), rules, spec) == FilteredGroups(order, events, rules, spec)
  {
    if order != [] {
      var n := |order| - 1;
      GroupsOmit(order[..n], events, uid, rules, spec);
      if order[n] == uid {
        assert FilteredGroups(order, events, rules, spec) == FilteredGroups(order[..n], events, rules, spec);
      } else {
        GroupWithout(events, uid, order[n]);
        FilteredGroupsSnoc(Omit(order[..n], uid), order[n], Without(events, uid), rules, spec);
      }
    }
  }

  /** A series of which the view shows nothing leaves no trace: a calendar without
      it gives the same public calendar, zones included. */
  lemma {:induction false} HiddenSeriesTraceless(src: Component, other: Component, uid: string, spec: Spec, zones: ZoneDb)
    requires Events(other.children) == Without(Events(src.children), uid)
    requires Block(Events(src.children), uid, Effective(spec), spec) == []
    ensures Applied(other, spec, zones) == Applied(src, spec, zones)
  {
    var events := Events(src.children);
    OrderWithout(events, uid);
    GroupsOmit(UidOrder(events), events, uid, Effective(spec), spec);
  }

  /** The view shows nothing of a series if and only if the flags drop each of its
      components. */
  lemma {:induction false} HiddenIffAllDropped(comps: seq<Component>, rules: Rules, spec: Spec)
    requires UniqueMaster(comps)
    ensures FilteredSeries(comps, rules, spec) == [] <==> forall c :: c in comps ==> Dropped(c, spec)
  {
    if !IsRecurring(comps) {
      NonePassIff(comps, spec);
    } else {
      MasterMembers(comps);
      NonePassIff(Overrides(comps), spec);
      forall c | c in comps ensures c == Master(comps).value || c in Overrides(comps) {
        if Has(c, RECURRENCE_ID) { OverridesMembers(comps, c); } else { OnlyMaster(comps, c); }
      }
      forall c | c in Overrides(comps) ensures c in comps { OverridesMembers(comps, c); }
    }
  }

  lemma {:induction false} NonePassIff(comps: seq<Component>, spec: Spec)
    ensures Sift(comps, spec, false) == [] <==> forall c :: c in comps ==> Dropped(c, spec)
  {
    forall c | c in comps && !Dropped(c, spec) ensures c in Sift(comps, spec, false) {
      SiftMembers(comps, spec, false, c);
    }
    if Sift(comps, spec, false) != [] {
      SiftMembers(comps, spec, false, Sift(comps, spec, false)[0]);
    }
  }

  // ----- Applying a view twice -----

  /** Each UID has at most one component without RECURRENCE-ID, and overrides of
      one series would be promoted to distinct UIDs. */
  ghost predicate Orderly(events: seq<Component>, spec: Spec) {
    && CollisionFree(events, spec)
    && (forall uid :: UniqueMaster(Group(events, uid)))
    && (forall uid :: DistinctPromotions(Promotions(events, uid, spec)))
  }

  ghost predicate DistinctPromotions(ovs: seq<Component>) {
    forall i, j :: 0 <= i < j < |ovs| ==> PromotedUid(ovs[i]) != PromotedUid(ovs[j])
  }

  /** A component the filter leaves as it is and the flags let through. */
  ghost predicate Settled(c: Component, rules: Rules, spec: Spec) {
    Filtered(c, rules, BusyLabel(spec)) == c && !Dropped(c, spec)
  }

  lemma {:induction false} NonAlarmsIdempotent(children: seq<Component>)
    ensures NonAlarms(NonAlarms(children)) == NonAlarms(children)
  {
    if children != [] {
      var n := |children| - 1;
      NonAlarmsIdempotent(children[..n]);
      var kept := NonAlarms(children[..n]);
      if children[n].name != VALARM {
        assert (kept + [children[n]])[..|kept|] == kept;
      } else {
        assert NonAlarms(children) == kept;
      }
    }
  }

  lemma {:induction false} FilteredIdempotent(c: Component, rules: Rules, busy: string)
    ensures Filtered(Filtered(c, rules, busy), rules, busy) == Filtered(c, rules, busy)
  {
    var f := Filtered(c, rules, busy);
    forall field | Revealed(field, rules) ensures SameField(f, c, field) { FilteredField(c, rules, busy, field); }
    FilteredChildrenAgree(c.children, rules);
    FilterRevealsExactly(f, c, rules, busy);
  }

  lemma {:induction false} FilteredChildrenAgree(children: seq<Component>, rules: Rules)
    ensures SameChildren(FilteredChildren(children, rules), children, rules)
  {
    if StripsAlarms(rules) {
      FilteredChildrenStripped(children, rules);
      NonAlarmsIdempotent(children);
    } else {
      FilteredChildrenKept(children, rules);
    }
  }

  /** Include verdicts survive filtering: flags read kept values or nothing. */
  lemma {:induction false} FilteredSettled(c: Component, rules: Rules, spec: Spec)
    requires !Dropped(c, spec)
    ensures Settled(Filtered(c, rules, BusyLabel(spec)), rules, spec)
  {
    var busy := BusyLabel(spec);
    FilteredIdempotent(c, rules, busy);
    FilteredField(c, rules, busy, "CLASS");
    FilteredField(c, rules, busy, "STATUS");
    FilteredField(c, rules, busy, "TRANSP");
  }

  /** Editing structural properties keeps a component settled. */
  lemma {:induction false} SettledEdit(c: Component, edited: Component, rules: Rules, spec: Spec)
    requires Settled(c, rules, spec) && Unmanaged(rules)
    requires edited.name == c.name && edited.children == c.children
    requires forall f :: f !in STRUCTURAL ==> SameField(edited, c, f)
    ensures Settled(edited, rules, spec)
  {
    var busy := BusyLabel(spec);
    DroppedAlike(c, edited, spec);
    var out := Filtered(edited, rules, busy);
    forall f ensures SameField(out, edited, f) { FieldSettled(c, edited, rules, busy, f); }
    assert out.props == edited.props;
  }

  lemma {:induction false} DroppedAlike(c: Component, edited: Component, spec: Spec)
    requires forall f :: f !in STRUCTURAL ==> SameField(edited, c, f)
    ensures Dropped(edited, spec) == Dropped(c, spec)
  {
    assert SameField(edited, c, "CLASS") && SameField(edited, c, "STATUS") && SameField(edited, c, "TRANSP");
  }

  lemma {:induction false} FieldSettled(c: Component, edited: Component, rules: Rules, busy: string, f: string)
    requires Filtered(c, rules, busy) == c && Unmanaged(rules) && (f !in STRUCTURAL ==> SameField(edited, c, f))
    ensures SameField(Filtered(edited, rules, busy), edited, f)
  {
    FilteredField(edited, rules, busy, f);
    FilteredField(c, rules, busy, f);
  }

  ghost predicate AllSettled(s: seq<Component>, rules: Rules, spec: Spec) {
    forall i :: 0 <= i < |s| ==> Settled(s[i], rules, spec)
  }

  lemma {:induction false} SiftSettled(s: seq<Component>, rules: Rules, spec: Spec)
    requires AllSettled(s, rules, spec)
    ensures Sift(s, spec, false) == s && Sift(s, spec, true) == []
    ensures FilteredAll(s, rules, BusyLabel(spec)) == s
  {
    forall i | 0 <= i < |s| ensures !Dropped(s[i], spec) && Filtered(s[i], rules, BusyLabel(spec)) == s[i] {
      assert Settled(s[i], rules, spec);
    }
    SiftNone(s, spec);
  }

  lemma {:induction false} SiftNone(s: seq<Component>, spec: Spec)
    requires forall i :: 0 <= i < |s| ==> !Dropped(s[i], spec)
    ensures Sift(s, spec, false) == s && Sift(s, spec, true) == []
  {
    if s != [] {
      var n := |s| - 1;
      SiftNone(s[..n], spec);
      assert s[..n] + [s[n]] == s;
    }
  }

  lemma {:induction false} SiftedSettled(s: seq<Component>, rules: Rules, spec: Spec)
    ensures AllSettled(FilteredAll(Sift(s, spec, false), rules, BusyLabel(spec)), rules, spec)
  {
    var kept := Sift(s, spec, false);
    forall n | 0 <= n < |kept| ensures Settled(Filtered(kept[n], rules, BusyLabel(spec)), rules, spec) {
      SiftMembers(s, spec, false, kept[n]);
      FilteredSettled(kept[n], rules, spec);
    }
  }

  lemma {:induction false} PlainFixed(comps: seq<Component>, rules: Rules, spec: Spec)
    requires UniqueMaster(comps) && Unmanaged(rules) && !IsRecurring(comps)
    ensures FilteredSeries(FilteredSeries(comps, rules, spec), rules, spec) == FilteredSeries(comps, rules, spec)
  {
    var out := FilteredSeries(comps, rules, spec);
    PlainNotRecurring(comps, rules, spec);
    SiftedSettled(comps, rules, spec);
    SiftSettled(out, rules, spec);
  }

  lemma {:induction false} WithExdatesSettled(c: Component, lost: seq<Component>, tzid: string, rules: Rules, spec: Spec)
    requires Settled(c, rules, spec) && Unmanaged(rules)
    ensures Settled(WithExdates(c, lost, tzid), rules, spec)
  {
    SettledEdit(c, WithExdates(c, lost, tzid), rules, spec);
  }

  /** A settled master followed by settled overrides is left as it is. */
  lemma {:induction false} SettledSeriesFixed(master: Component, overrides: seq<Component>, rules: Rules, spec: Spec)
    requires var s := [master] + overrides; IsRecurring(s) && Master(s) == Some(master) && Overrides(s) == overrides
    requires Settled(master, rules, spec) && AllSettled(overrides, rules, spec)
    ensures FilteredSeries([master] + overrides, rules, spec) == [master] + overrides
  {
    SiftSettled(overrides, rules, spec);
    assert WithExdates(master, [], TzidOf(master, "DTSTART")) == master;
  }

  lemma {:induction false} IncludedFixed(comps: seq<Component>, rules: Rules, spec: Spec)
    requires Unmanaged(rules) && IsRecurring(comps) && !Dropped(Master(comps).value, spec)
    ensures FilteredSeries(FilteredSeries(comps, rules, spec), rules, spec) == FilteredSeries(comps, rules, spec)
  {
    var m := Master(comps).value;
    var out := FilteredSeries(comps, rules, spec);
    var shown := FilteredAll(Sift(Overrides(comps), spec, false), rules, BusyLabel(spec));
    IncludedShape(comps, rules, spec);
    SiftedSettled(Overrides(comps), rules, spec);
    FilteredSettled(m, rules, spec);
    var hidden := WithExdates(Filtered(m, rules, BusyLabel(spec)), Sift(Overrides(comps), spec, true), TzidOf(m, "DTSTART"));
    WithExdatesSettled(Filtered(m, rules, BusyLabel(spec)), Sift(Overrides(comps), spec, true), TzidOf(m, "DTSTART"), rules, spec);
    assert out == [hidden] + shown;
    SettledSeriesFixed(hidden, shown, rules, spec);
  }

  lemma {:induction false} PromotedFixed(ov: Component, rules: Rules, spec: Spec)
    requires Unmanaged(rules) && !Dropped(ov, spec)
    ensures var p := Promoted(ov, rules, BusyLabel(spec)); FilteredSeries([p], rules, spec) == [p]
  {
    var p := Promoted(ov, rules, BusyLabel(spec));
    FilteredSettled(ov, rules, spec);
    SettledEdit(Filtered(ov, rules, BusyLabel(spec)), p, rules, spec);
    MasterMembers([p]);
    assert !Has(p, "RRULE");
    SiftSettled([p], rules, spec);
  }

  // ----- Blocks that filter to themselves -----

  ghost predicate Fixed(s: seq<Component>, rules: Rules, spec: Spec) {
    FilteredGroups(UidOrder(s), s, rules, spec) == s
  }

  lemma {:induction false} FilteredGroupsSnoc(order: seq<string>, u: string, events: seq<Component>, rules: Rules, spec: Spec)
    ensures FilteredGroups(order + [u], events, rules, spec) ==
      FilteredGroups(order, events, rules, spec) + Block(events, u, rules, spec)
  {
    assert (order + [u])[..|order|] == order;
  }

  lemma {:induction false} GroupExtend(s: seq<Component>, t: seq<Component>, u: string)
    requires Absent(t, u)
    ensures Group(s + t, u) == Group(s, u)
  {
    GroupConcat(s, t, u);
    AbsentGroup(t, u);
  }

  lemma {:induction false} GroupsExtend(order: seq<string>, s: seq<Component>, t: seq<Component>, rules: Rules, spec: Spec)
    requires forall u :: u in order ==> Absent(t, u)
    ensures FilteredGroups(order, s + t, rules, spec) == FilteredGroups(order, s, rules, spec)
  {
    if order != [] {
      var n := |order| - 1;
      GroupsExtend(order[..n], s, t, rules, spec);
      GroupExtend(s, t, order[n]);
    }
  }

  lemma {:induction false} OrderExtend(s: seq<Component>, t: seq<Component>, uid: string)
    requires t != [] && Absent(s, uid) && forall c :: c in t ==> ValueOf(c, "UID") == uid
    ensures UidOrder(s + t) == UidOrder(s) + [uid]
  {
    var n := |t| - 1;
    assert (s + t)[..|s + t| - 1] == s + t[..n];
    OrderMembers(s, uid);
    if n == 0 {
      assert s + t[..n] == s;
    } else {
      OrderExtend(s, t[..n], uid);
    }
  }

  lemma {:induction false} GroupFresh(s: seq<Component>, t: seq<Component>, uid: string)
    requires Absent(s, uid) && forall c :: c in t ==> ValueOf(c, "UID") == uid
    ensures Group(s + t, uid) == t
  {
    GroupConcat(s, t, uid);
    AbsentGroup(s, uid);
    GroupUniform(t, uid, uid);
  }

  /** A block under a fresh UID that filters to itself extends a fixed output. */
  lemma {:induction false} FixedExtend(s: seq<Component>, t: seq<Component>, uid: string, rules: Rules, spec: Spec)
    requires Fixed(s, rules, spec) && Absent(s, uid) && (forall c :: c in t ==> ValueOf(c, "UID") == uid)
    requires FilteredSeries(t, rules, spec) == t
    ensures Fixed(s + t, rules, spec)
  {
    if t == [] {
      assert s + t == s;
    } else {
      calc {
        FilteredGroups(UidOrder(s + t), s + t, rules, spec);
        { OrderExtend(s, t, uid); }
        FilteredGroups(UidOrder(s) + [uid], s + t, rules, spec);
        { FilteredGroupsSnoc(UidOrder(s), uid, s + t, rules, spec); }
        FilteredGroups(UidOrder(s), s + t, rules, spec) + Block(s + t, uid, rules, spec);
        { GroupFresh(s, t, uid); }
        FilteredGroups(UidOrder(s), s + t, rules, spec) + t;
        { forall u | u in UidOrder(s) ensures Absent(t, u) { OrderMembers(s, u); }
          GroupsExtend(UidOrder(s), s, t, rules, spec); }
        FilteredGroups(UidOrder(s), s, rules, spec) + t;
        s + t;
      }
    }
  }

  lemma {:induction false} PromotedAbsent(s: seq<Component>, shown: seq<Component>, next: Component, rules: Rules, busy: string)
    requires Absent(s, PromotedUid(next)) && forall i :: 0 <= i < |shown| ==> PromotedUid(shown[i]) != PromotedUid(next)
    ensures Absent(s + PromotedAll(shown, rules, busy), PromotedUid(next))
  {
    var all := PromotedAll(shown, rules, busy);
    forall c | c in s + all ensures ValueOf(c, "UID") != PromotedUid(next) {
      if c !in s {
        var i :| 0 <= i < |all| && all[i] == c;
        assert ValueOf(c, "UID") == PromotedUid(shown[i]);
      }
    }
  }

  lemma {:induction false} FixedAppend(s: seq<Component>, p: Component, uid: string, rules: Rules, spec: Spec)
    requires Fixed(s, rules, spec) && Absent(s, uid) && ValueOf(p, "UID") == uid
    requires FilteredSeries([p], rules, spec) == [p]
    ensures Fixed(s + [p], rules, spec)
  {
    FixedExtend(s, [p], uid, rules, spec);
  }

  lemma {:induction false} PromotedAllSnoc(shown: seq<Component>, next: Component, rules: Rules, busy: string)
    ensures PromotedAll(shown + [next], rules, busy) == PromotedAll(shown, rules, busy) + [Promoted(next, rules, busy)]
  {}

  lemma {:induction false} PromotedStep(s: seq<Component>, shown: seq<Component>, next: Component, rules: Rules, spec: Spec)
    requires Unmanaged(rules) && !Dropped(next, spec)
    requires Fixed(s + PromotedAll(shown, rules, BusyLabel(spec)), rules, spec)
    requires Absent(s + PromotedAll(shown, rules, BusyLabel(spec)), PromotedUid(next))
    ensures Fixed(s + PromotedAll(shown + [next], rules, BusyLabel(spec)), rules, spec)
  {
    var busy := BusyLabel(spec);
    var before, p := s + PromotedAll(shown, rules, busy), Promoted(next, rules, busy);
    PromotedFixed(next, rules, spec);
    PromotedUidIs(next, rules, busy);
    FixedAppend(before, p, PromotedUid(next), rules, spec);
    PromotedAllSnoc(shown, next, rules, busy);
    Regroup(s, PromotedAll(shown, rules, busy), p);
  }

  lemma {:induction false} Regroup(a: seq<Component>, b: seq<Component>, c: Component)
    ensures a + (b + [c]) == (a + b) + [c]
  {}

  /** Overrides that pass and whose promoted UIDs are new. */
  ghost predicate Promotable(s: seq<Component>, shown: seq<Component>, spec: Spec) {
    forall i :: 0 <= i < |shown| ==> !Dropped(shown[i], spec) && Absent(s, PromotedUid(shown[i]))
  }

  lemma {:induction false} NothingPromoted(s: seq<Component>, rules: Rules, busy: string)
    ensures s + PromotedAll([], rules, busy) == s
  {}

  lemma {:induction false} PromotedNext(s: seq<Component>, init: seq<Component>, next: Component, rules: Rules, spec: Spec)
    requires Unmanaged(rules) && !Dropped(next, spec) && Absent(s, PromotedUid(next))
    requires forall i :: 0 <= i < |init| ==> PromotedUid(init[i]) != PromotedUid(next)
    requires Fixed(s + PromotedAll(init, rules, BusyLabel(spec)), rules, spec)
    ensures Fixed(s + PromotedAll(init + [next], rules, BusyLabel(spec)), rules, spec)
  {
    PromotedAbsent(s, init, next, rules, BusyLabel(spec));
    PromotedStep(s, init, next, rules, spec);
  }

  lemma {:induction false} PromotedExtend(s: seq<Component>, shown: seq<Component>, n: nat, rules: Rules, spec: Spec)
    requires Fixed(s, rules, spec) && Unmanaged(rules) && DistinctPromotions(shown) && Promotable(s, shown, spec) && n <= |shown|
    ensures Fixed(s + PromotedAll(shown[..n], rules, BusyLabel(spec)), rules, spec)
  {
    if n == 0 {
      NothingPromoted(s, rules, BusyLabel(spec));
    } else {
      PromotedExtend(s, shown, n - 1, rules, spec);
      PromotedUpTo(s, shown, n, rules, spec);
    }
  }

  lemma {:induction false} PromotedUpTo(s: seq<Component>, shown: seq<Component>, n: nat, rules: Rules, spec: Spec)
    requires Unmanaged(rules) && DistinctPromotions(shown) && Promotable(s, shown, spec) && 0 < n <= |shown|
    requires Fixed(s + PromotedAll(shown[..n - 1], rules, BusyLabel(spec)), rules, spec)
    ensures Fixed(s + PromotedAll(shown[..n], rules, BusyLabel(spec)), rules, spec)
  {
    var init, next := shown[..n - 1], shown[n - 1];
    PrefixPromotions(shown, n);
    PromotedNext(s, init, next, rules, spec);
    PromotedPrefix(s, shown, n, rules, BusyLabel(spec));
  }

  lemma {:induction false} PrefixPromotions(shown: seq<Component>, n: nat)
    requires DistinctPromotions(shown) && 0 < n <= |shown|
    ensures var init := shown[..n - 1]; forall i :: 0 <= i < |init| ==> PromotedUid(init[i]) != PromotedUid(shown[n - 1])
  {}

  lemma {:induction false} PromotedPrefix(s: seq<Component>, shown: seq<Component>, n: nat, rules: Rules, busy: string)
    requires 0 < n <= |shown|
    ensures s + PromotedAll(shown[..n], rules, busy) == s + PromotedAll(shown[..n - 1] + [shown[n - 1]], rules, busy)
  {
    assert shown[..n] == shown[..n - 1] + [shown[n - 1]];
  }

  lemma {:induction false} PromotedUidIs(c: Component, rules: Rules, busy: string)
    ensures ValueOf(Promoted(c, rules, busy), "UID") == PromotedUid(c)
  {}

  lemma {:induction false} BlockExtend(s: seq<Component>, events: seq<Component>, uid: string, rules: Rules, spec: Spec)
    requires Fixed(s, rules, spec) && Unmanaged(rules) && Orderly(events, spec)
    requires forall e :: e in events ==> e.name == VEVENT
    requires forall v :: BlockUid(events, spec, uid, v) ==> Absent(s, v)
    ensures Fixed(s + Block(events, uid, rules, spec), rules, spec)
  {
    var comps := Group(events, uid);
    assert UniqueMaster(comps) && DistinctPromotions(Promotions(events, uid, spec));
    if IsRecurring(comps) && Dropped(Master(comps).value, spec) {
      PromotionsExtend(s, events, uid, rules, spec);
    } else {
      assert BlockUid(events, spec, uid, uid);
      forall e | e in comps ensures e.name == VEVENT && ValueOf(e, "UID") == uid { GroupMembers(events, uid, e); }
      OwnUidFixed(comps, uid, rules, spec);
      FixedExtend(s, Block(events, uid, rules, spec), uid, rules, spec);
    }
  }

  lemma {:induction false} OwnUidFixed(comps: seq<Component>, uid: string, rules: Rules, spec: Spec)
    requires Unmanaged(rules) && UniqueMaster(comps) && forall e :: e in comps ==> e.name == VEVENT && ValueOf(e, "UID") == uid
    requires !IsRecurring(comps) || !Dropped(Master(comps).value, spec)
    ensures var block := FilteredSeries(comps, rules, spec);
      FilteredSeries(block, rules, spec) == block && forall c :: c in block ==> ValueOf(c, "UID") == uid
  {
    if !IsRecurring(comps) {
      PlainFixed(comps, rules, spec);
      forall e | e in Sift(comps, spec, false) ensures ValueOf(e, "UID") == uid { SiftMembers(comps, spec, false, e); }
      FilteredAllUids(Sift(comps, spec, false), uid, rules, spec);
    } else {
      IncludedFixed(comps, rules, spec);
      MasterMembers(comps);
      var shown := Sift(Overrides(comps), spec, false);
      forall e | e in shown ensures ValueOf(e, "UID") == uid {
        SiftMembers(Overrides(comps), spec, false, e);
        OverridesMembers(comps, e);
      }
      FilteredAllUids(shown, uid, rules, spec);
      FilteredStructure(Master(comps).value, rules, BusyLabel(spec), "UID");
    }
  }

  lemma {:induction false} PromotionsExtend(s: seq<Component>, events: seq<Component>, uid: string, rules: Rules, spec: Spec)
    requires Fixed(s, rules, spec) && Unmanaged(rules) && DistinctPromotions(Promotions(events, uid, spec))
    requires IsRecurring(Group(events, uid)) && Dropped(Master(Group(events, uid)).value, spec)
    requires forall v :: BlockUid(events, spec, uid, v) ==> Absent(s, v)
    ensures Fixed(s + Block(events, uid, rules, spec), rules, spec)
  {
    var overrides := Overrides(Group(events, uid));
    var shown := Sift(overrides, spec, false);
    forall i | 0 <= i < |shown| ensures !Dropped(shown[i], spec) && Absent(s, PromotedUid(shown[i])) {
      SiftMembers(overrides, spec, false, shown[i]);
      assert shown[i] in Promotions(events, uid, spec) && BlockUid(events, spec, uid, PromotedUid(shown[i]));
    }
    PromotedExtend(s, shown, |shown|, rules, spec);
    assert shown[..|shown|] == shown;
  }

  lemma {:induction false} GroupsAbsentUid(order: seq<string>, events: seq<Component>, rules: Rules, spec: Spec, u: string, v: string)
    requires CollisionFree(events, spec) && Unmanaged(rules) && (forall e :: e in events ==> e.name == VEVENT)
    requires u in UidOrder(events) && BlockUid(events, spec, u, v)
    requires forall o :: o in order ==> o in UidOrder(events) && o != u
    ensures Absent(FilteredGroups(order, events, rules, spec), v)
  {
    forall o | o in order ensures Absent(Block(events, o, rules, spec), v) {
      DisjointBlocks(events, spec, u, o, v);
      forall d | d in Block(events, o, rules, spec) ensures ValueOf(d, "UID") != v { BlockUids(events, o, rules, spec, d); }
    }
    GroupsAbsent(order, events, rules, spec, v);
    AbsentGroup(FilteredGroups(order, events, rules, spec), v);
  }

  lemma {:induction false} PrefixFixed(n: nat, events: seq<Component>, rules: Rules, spec: Spec)
    requires Orderly(events, spec) && Unmanaged(rules) && forall e :: e in events ==> e.name == VEVENT
    requires n <= |UidOrder(events)|
    ensures Fixed(FilteredGroups(UidOrder(events)[..n], events, rules, spec), rules, spec)
  {
    if n > 0 {
      var order := UidOrder(events);
      PrefixFixed(n - 1, events, rules, spec);
      OrderDistinct(events);
      var u := order[n - 1];
      assert order[..n][..n - 1] == order[..n - 1];
      forall v | BlockUid(events, spec, u, v) ensures Absent(FilteredGroups(order[..n - 1], events, rules, spec), v) {
        GroupsAbsentUid(order[..n - 1], events, rules, spec, u, v);
      }
      BlockExtend(FilteredGroups(order[..n - 1], events, rules, spec), events, u, rules, spec);
    }
  }

  lemma {:induction false} GroupsFixed(events: seq<Component>, rules: Rules, spec: Spec)
    requires Orderly(events, spec) && Unmanaged(rules) && forall e :: e in events ==> e.name == VEVENT
    ensures Fixed(FilteredGroups(UidOrder(events), events, rules, spec), rules, spec)
  {
    PrefixFixed(|UidOrder(events)|, events, rules, spec);
    assert UidOrder(events)[..|UidOrder(events)|] == UidOrder(events);
  }

  /** Applying a view to its own output gives that output again: nothing more is
      dropped, no EXDATE is added and the same zones are generated. */
  lemma {:induction false} ApplyIdempotent(src: Component, spec: Spec, zones: ZoneDb)
    requires ManagedOverrides(spec) && WellFormedZones(zones) && Orderly(Events(src.children), spec)
    ensures Applied(Applied(src, spec, zones), spec, zones) == Applied(src, spec, zones)
  {
    AppliedEvents(src, spec, zones);
    ManagedUnmanaged(spec);
    EventsAreEvents(src.children);
    GroupsFixed(Events(src.children), Effective(spec), spec);
  }
}
