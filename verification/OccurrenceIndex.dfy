/** Parsing one resource and its first/last occurrence index
    (internal/ical/parse.go), and the index's use in share rendering
    (internal/share/share.go). */
module OccurrenceIndex {
  import opened Components
  import opened Texts
  import opened Instants

  datatype ParseError = NoComponent | MixedTypes | MissingUid | MultipleUids

  datatype Parsed = Parsed(
    uid: string,
    componentType: string,
    hasRrule: bool,
    hasScheduling: bool,
    first: Option<int>,
    last: Option<int>)

  datatype ParseResult = Ok(parsed: Parsed) | Err(error: ParseError)

  // ----- Parse -----

  /** The VEVENT and VTODO children. */
  function Timed(children: seq<Component>): seq<Component>
    decreases |children|
  {
    if children == [] then []
    else
      var n := |children| - 1;
      Timed(children[..n]) + if children[n].name == VEVENT || children[n].name == VTODO then [children[n]] else []
  }

  /** What is wrong with a component of a resource of this type and UID. */
  function Fault(c: Component, componentType: string, uid: string): Option<ParseError> {
    if c.name != componentType then Some(MixedTypes)
    else if ValueOf(c, "UID") == "" then Some(MissingUid)
    else if ValueOf(c, "UID") != uid then Some(MultipleUids)
    else None
  }

  function FirstFault(comps: seq<Component>, componentType: string, uid: string): Option<ParseError>
    decreases |comps|
  {
    if comps == [] then None
    else
      var n := |comps| - 1;
      var earlier := FirstFault(comps[..n], componentType, uid);
      if earlier.Some? then earlier else Fault(comps[n], componentType, uid)
  }

  predicate AnyHas(comps: seq<Component>, name: string) {
    exists i :: 0 <= i < |comps| && Has(comps[i], name)
  }

  /** The component without RECURRENCE-ID that leads, or the first one. */
  function Lead(comps: seq<Component>): Component
    requires comps != []
  {
    if Master(comps).Some? then Master(comps).value else comps[0]
  }

  function ParseCalendar(k: Calendrics, e: RuleEngine, cal: Component): ParseResult {
    var comps := Timed(cal.children);
    if comps == [] then Err(NoComponent)
    else
      var fault := FirstFault(comps, comps[0].name, ValueOf(comps[0], "UID"));
      if fault.Some? then Err(fault.value)
      else
        var bounds := Bounds(k, e, comps, Lead(comps));
        Ok(Parsed(ValueOf(comps[0], "UID"), comps[0].name, AnyHas(comps, "RRULE"),
                  AnyHas(comps, "ATTENDEE") || AnyHas(comps, "ORGANIZER"), bounds.0, bounds.1))
  }

  // ----- computeBounds -----

  const HOUR := 3600 * 1_000_000_000

  predicate Mentions(s: string, word: string) {
    |s| >= |word| && (s[..|word|] == word || (s != [] && Mentions(s[1..], word)))
  }

  predicate IsBounded(rule: string) {
    Mentions(Upper(rule), "COUNT=") || Mentions(Upper(rule), "UNTIL=")
  }

  function WideWindow(k: Calendrics, start: Moment): Range {
    Range(start.at - HOUR, k.centuryAfter(start))
  }

  /** The latest end among the components, or the given one. */
  function Widest(k: Calendrics, comps: seq<Component>, last: int): int
    decreases |comps|
  {
    if comps == [] then last
    else
      var n := |comps| - 1;
      var sofar := Widest(k, comps[..n], last);
      match StartOf(k, comps[n])
      case None => sofar
      case Some(s) =>
        var end := s.at + DurationOf(k, comps[n], s.at);
        if end > sofar then end else sofar
  }

  function Bounds(k: Calendrics, e: RuleEngine, comps: seq<Component>, master: Component): (Option<int>, Option<int>) {
    match StartOf(k, master)
    case None => (None, None)
    case Some(start) =>
      var end := start.at + DurationOf(k, master, start.at);
      var rule := ValueOf(master, "RRULE");
      if rule == "" then (Some(start.at), Some(Widest(k, comps, end)))
      else if !IsBounded(rule) then (Some(start.at), None)
      else
        match Expanded(e, start, rule, ExdateInstants(k, master, start.zone), WideWindow(k, start))
        case Some(occ) =>
          if occ == [] then (Some(start.at), Some(end))
          else (Some(start.at), Some(occ[|occ| - 1] + DurationOf(k, master, start.at)))
        case None => (Some(start.at), Some(end))
  }

  method ComputeBounds(k: Calendrics, e: RuleEngine, comps: seq<Component>, master: Component)
    returns (first: Option<int>, last: Option<int>)
    ensures (first, last) == Bounds(k, e, comps, master)
  {
    var start := StartOf(k, master);
    if start.None? { return None, None; }
    var at := start.value.at;
    var dur := DurationOf(k, master, at);
    first := Some(at);
    var rule := ValueOf(master, "RRULE");
    if rule != "" {
      if !IsBounded(rule) { return first, None; }
      var ex := Exdates(k, master, start.value.zone);
      var occ := ExpandRrule(e, start.value, rule, ex, WideWindow(k, start.value));
      if occ.None? || |occ.value| == 0 { return first, Some(at + dur); }
      return first, Some(occ.value[|occ.value| - 1] + dur);
    }
    var end := at + dur;
    for i := 0 to |comps|
      invariant end == Widest(k, comps[..i], at + dur)
    {
      assert comps[..i + 1][..i] == comps[..i];
      var s := StartOf(k, comps[i]);
      if s.Some? {
        var e' := s.value.at + DurationOf(k, comps[i], s.value.at);
        if e' > end { end := e'; }
      }
    }
    assert comps[..|comps|] == comps;
    last := Some(end);
  }

  lemma {:induction false} FirstFaultPrefix(comps: seq<Component>, i: nat, componentType: string, uid: string)
    requires i <= |comps| && FirstFault(comps[..i], componentType, uid).Some?
    ensures FirstFault(comps, componentType, uid) == FirstFault(comps[..i], componentType, uid)
  {
    if i == |comps| {
      assert comps[..i] == comps;
    } else {
      assert comps[..|comps| - 1][..i] == comps[..i];
      FirstFaultPrefix(comps[..|comps| - 1], i, componentType, uid);
    }
  }

  method TimedComponents(children: seq<Component>) returns (comps: seq<Component>)
    ensures comps == Timed(children)
  {
    comps := [];
    for i := 0 to |children|
      invariant comps == Timed(children[..i])
    {
      assert children[..i + 1][..i] == children[..i];
      var c := children[i];
      if c.name == VEVENT || c.name == VTODO { comps := comps + [c]; }
    }
    assert children[..|children|] == children;
  }

  /** The validating loop: one type, one non-empty UID. */
  method CheckComponents(comps: seq<Component>) returns (fault: Option<ParseError>, uid: string)
    requires comps != []
    ensures fault == FirstFault(comps, comps[0].name, ValueOf(comps[0], "UID"))
    ensures fault == None ==> uid == ValueOf(comps[0], "UID")
  {
    var componentType := comps[0].name;
    uid := "";
    ghost var uid0 := ValueOf(comps[0], "UID");
    for i := 0 to |comps|
      invariant FirstFault(comps[..i], componentType, uid0) == None
      invariant uid == if i == 0 then "" else uid0
      invariant i > 0 ==> uid0 != ""
    {
      var c := comps[i];
      assert comps[..i + 1][..i] == comps[..i] && comps[..i + 1][i] == c;
      if Fault(c, componentType, uid0).Some? { FirstFaultPrefix(comps, i + 1, componentType, uid0); }
      if c.name != componentType { return Some(MixedTypes), uid; }
      var own := ValueOf(c, "UID");
      if own == "" { return Some(MissingUid), uid; }
      if uid == "" {
        uid := own;
      } else if own != uid {
        return Some(MultipleUids), uid;
      }
    }
    assert comps[..|comps|] == comps;
    fault := None;
  }

  /** The flags and the master gathered over the same components. */
  method Survey(comps: seq<Component>) returns (hasRrule: bool, hasScheduling: bool, master: Option<Component>)
    ensures hasRrule <==> AnyHas(comps, "RRULE")
    ensures hasScheduling <==> AnyHas(comps, "ATTENDEE") || AnyHas(comps, "ORGANIZER")
    ensures master == Master(comps)
  {
    hasRrule, hasScheduling, master := false, false, None;
    for i := 0 to |comps|
      invariant hasRrule <==> AnyHas(comps[..i], "RRULE")
      invariant hasScheduling <==> AnyHas(comps[..i], "ATTENDEE") || AnyHas(comps[..i], "ORGANIZER")
      invariant master == Master(comps[..i])
    {
      var c := comps[i];
      assert comps[..i + 1] == comps[..i] + [c] && comps[..i + 1][..i] == comps[..i];
      AnyHasSnoc(comps[..i], c, "RRULE");
      AnyHasSnoc(comps[..i], c, "ATTENDEE");
      AnyHasSnoc(comps[..i], c, "ORGANIZER");
      if Has(c, "RRULE") { hasRrule := true; }
      if Has(c, "ATTENDEE") || Has(c, "ORGANIZER") { hasScheduling := true; }
      if !Has(c, RECURRENCE_ID) && master == None { master := Some(c); }
    }
    assert comps[..|comps|] == comps;
  }

  method Parse(k: Calendrics, e: RuleEngine, cal: Component) returns (result: ParseResult)
    ensures result == ParseCalendar(k, e, cal)
  {
    var comps := TimedComponents(cal.children);
    if |comps| == 0 { return Err(NoComponent); }
    var fault, uid := CheckComponents(comps);
    if fault.Some? { return Err(fault.value); }
    var hasRrule, hasScheduling, master := Survey(comps);
    if master == None { master := Some(comps[0]); }
    var first, last := ComputeBounds(k, e, comps, master.value);
    result := Ok(Parsed(uid, comps[0].name, hasRrule, hasScheduling, first, last));
  }

  lemma {:induction false} AnyHasSnoc(comps: seq<Component>, c: Component, name: string)
    ensures AnyHas(comps + [c], name) <==> AnyHas(comps, name) || Has(c, name)
  {
    if i :| 0 <= i < |comps| && Has(comps[i], name) { assert Has((comps + [c])[i], name); }
    if Has(c, name) { assert Has((comps + [c])[|comps|], name); }
  }

  /** A resource is accepted exactly when it has components and they all share
      one type and one non-empty UID. */
  lemma {:induction false} ParseAcceptsOneSeries(k: Calendrics, e: RuleEngine, cal: Component)
    ensures var comps := Timed(cal.children);
      ParseCalendar(k, e, cal).Ok? <==>
        comps != [] && forall i :: 0 <= i < |comps| ==>
          comps[i].name == comps[0].name && ValueOf(comps[i], "UID") == ValueOf(comps[0], "UID") != ""
  {
    var comps := Timed(cal.children);
    if comps != [] { FirstFaultNone(comps, comps[0].name, ValueOf(comps[0], "UID")); }
  }

  lemma {:induction false} FirstFaultNone(comps: seq<Component>, componentType: string, uid: string)
    ensures FirstFault(comps, componentType, uid) == None <==>
      forall i :: 0 <= i < |comps| ==> Fault(comps[i], componentType, uid) == None
  {
    if comps != [] { FirstFaultNone(comps[..|comps| - 1], componentType, uid); }
  }

  lemma {:induction false} TimedMembers(children: seq<Component>, c: Component)
    ensures c in Timed(children) <==> c in children && (c.name == VEVENT || c.name == VTODO)
  {
    if children != [] {
      var n := |children| - 1;
      TimedMembers(children[..n], c);
      assert children == children[..n] + [children[n]];
    }
  }

  lemma {:induction false} MasterIsFirst(comps: seq<Component>)
    ensures Master(comps).Some? ==> exists i :: 0 <= i < |comps| && IsFirstMaster(comps, i) && Master(comps) == Some(comps[i])
    ensures Master(comps).None? <==> forall i :: 0 <= i < |comps| ==> Has(comps[i], RECURRENCE_ID)
  {
    if comps != [] {
      var n := |comps| - 1;
      var init := comps[..n];
      MasterIsFirst(init);
      assert forall i :: 0 <= i < n ==> init[i] == comps[i];
      if Master(init).Some? {
        var i :| 0 <= i < |init| && IsFirstMaster(init, i) && Master(init) == Some(init[i]);
        assert IsFirstMaster(comps, i);
      } else if !Has(comps[n], RECURRENCE_ID) {
        assert IsFirstMaster(comps, n);
      }
    }
  }

  predicate IsFirstMaster(comps: seq<Component>, i: nat)
    requires i < |comps|
  {
    !Has(comps[i], RECURRENCE_ID) && forall j :: 0 <= j < i ==> Has(comps[j], RECURRENCE_ID)
  }

  /** The leading component is the first without RECURRENCE-ID, or the first of all
      if each has one. */
  lemma {:induction false} LeadIs(comps: seq<Component>) returns (i: nat)
    requires comps != []
    ensures i < |comps| && Lead(comps) == comps[i]
    ensures IsFirstMaster(comps, i) || (i == 0 && forall j :: 0 <= j < |comps| ==> Has(comps[j], RECURRENCE_ID))
  {
    MasterIsFirst(comps);
    if Master(comps).Some? {
      i :| 0 <= i < |comps| && IsFirstMaster(comps, i) && Master(comps) == Some(comps[i]);
    } else {
      i := 0;
    }
  }

  /** A component that a resource may hold. */
  predicate IsTimed(cal: Component, c: Component) {
    c in cal.children && (c.name == "VEVENT" || c.name == "VTODO")
  }

  /** What is recorded of an accepted resource: the type and UID of every component,
      and whether any of them recurs or is scheduled. */
  lemma {:induction false} ParsedFields(k: Calendrics, e: RuleEngine, cal: Component)
    requires ParseCalendar(k, e, cal).Ok?
    ensures var p := ParseCalendar(k, e, cal).parsed;
      && (forall c :: IsTimed(cal, c) ==> c.name == p.componentType && ValueOf(c, "UID") == p.uid)
      && (p.hasRrule <==> exists c :: IsTimed(cal, c) && Has(c, "RRULE"))
      && (p.hasScheduling <==> exists c :: IsTimed(cal, c) && (Has(c, "ATTENDEE") || Has(c, "ORGANIZER")))
  {
    var comps := Timed(cal.children);
    ParseAcceptsOneSeries(k, e, cal);
    forall c ensures c in comps <==> IsTimed(cal, c) { TimedMembers(cal.children, c); }
    AnyHasSome(comps, "RRULE");
    AnyHasSome(comps, "ATTENDEE");
    AnyHasSome(comps, "ORGANIZER");
  }

  lemma {:induction false} AnyHasSome(comps: seq<Component>, name: string)
    ensures AnyHas(comps, name) <==> exists c :: c in comps && Has(c, name)
  {
    if c :| c in comps && Has(c, name) {
      var i :| 0 <= i < |comps| && comps[i] == c;
    }
  }

  /** What is reported of a resource that is refused: that it has no component, or
      what is wrong with the first component that does not go with the first one. */
  lemma {:induction false} RefusedFor(k: Calendrics, e: RuleEngine, cal: Component) returns (i: nat)
    requires ParseCalendar(k, e, cal).Err?
    ensures var comps, error := Timed(cal.children), ParseCalendar(k, e, cal).error;
      if comps == [] then error == NoComponent
      else
        && i < |comps|
        && (forall j :: 0 <= j < i ==> comps[j].name == comps[0].name && ValueOf(comps[j], "UID") == ValueOf(comps[0], "UID") != "")
        && error == (if comps[i].name != comps[0].name then MixedTypes
                     else if ValueOf(comps[i], "UID") == "" then MissingUid else MultipleUids)
        && (error == MultipleUids ==> ValueOf(comps[i], "UID") != ValueOf(comps[0], "UID"))
  {
    var comps := Timed(cal.children);
    i := 0;
    if comps != [] { i := FaultAt(comps, comps[0].name, ValueOf(comps[0], "UID")); }
  }

  lemma {:induction false} FaultAt(comps: seq<Component>, componentType: string, uid: string) returns (i: nat)
    requires FirstFault(comps, componentType, uid).Some?
    ensures i < |comps| && Fault(comps[i], componentType, uid) == FirstFault(comps, componentType, uid)
    ensures forall j :: 0 <= j < i ==> Fault(comps[j], componentType, uid) == None
  {
    var n := |comps| - 1;
    if FirstFault(comps[..n], componentType, uid).Some? {
      i := FaultAt(comps[..n], componentType, uid);
    } else {
      i := n;
      FirstFaultNone(comps[..n], componentType, uid);
      assert forall j :: 0 <= j < n ==> comps[..n][j] == comps[j];
    }
  }

  // ----- Occurrences and the index -----

  /** The start instants in a window; None when the rule does not parse. */
  function OccurrencesIn(k: Calendrics, e: RuleEngine, cal: Component, window: Range): Option<seq<int>> {
    var comps := Timed(cal.children);
    if comps == [] then Some([])
    else
      var master := Lead(comps);
      match StartOf(k, master)
      case None => Some([])
      case Some(start) =>
        var rule := ValueOf(master, "RRULE");
        if rule == "" then Some(if window.Contains(start.at) then [start.at] else [])
        else Expanded(e, start, rule, ExdateInstants(k, master, start.zone), window)
  }

  method Occurrences(k: Calendrics, e: RuleEngine, cal: Component, window: Range) returns (out: Option<seq<int>>)
    ensures out == OccurrencesIn(k, e, cal, window)
  {
    var comps := TimedComponents(cal.children);
    if |comps| == 0 { return Some([]); }
    var master: Option<Component> := None;
    var i := 0;
    while i < |comps| && master == None
      invariant 0 <= i <= |comps| && master == Master(comps[..i])
      decreases |comps| - i, master.None?
    {
      assert comps[..i + 1][..i] == comps[..i];
      if !Has(comps[i], RECURRENCE_ID) { master := Some(comps[i]); }
      i := i + 1;
    }
    MasterStable(comps, i);
    if master == None {
      assert comps[..i] == comps;
      master := Some(comps[0]);
    }
    var start := StartOf(k, master.value);
    if start.None? { return Some([]); }
    var rule := ValueOf(master.value, "RRULE");
    if rule == "" {
      return Some(if window.Contains(start.value.at) then [start.value.at] else []);
    }
    var ex := Exdates(k, master.value, start.value.zone);
    out := ExpandRrule(e, start.value, rule, ex, window);
  }

  lemma {:induction false} MasterStable(comps: seq<Component>, i: nat)
    requires i <= |comps|
    ensures Master(comps[..i]).Some? ==> Master(comps) == Master(comps[..i])
  {
    if i == |comps| {
      assert comps[..i] == comps;
    } else {
      assert comps[..|comps| - 1][..i] == comps[..i];
      MasterStable(comps[..|comps| - 1], i);
    }
  }

  predicate Overlaps(first: Option<int>, last: Option<int>, w: Range) {
    if last.None? then true
    else if first.Some? && first.value > w.end then false
    else if last.value < w.start then false
    else true
  }

  lemma {:induction false} WidestAtLeast(k: Calendrics, comps: seq<Component>, last: int)
    ensures Widest(k, comps, last) >= last
  {
    if comps != [] { WidestAtLeast(k, comps[..|comps| - 1], last); }
  }

  /** The start, span and rule of the leading component. */
  predicate HasSpan(k: Calendrics, cal: Component, start: Moment, dur: int) {
    var comps := Timed(cal.children);
    comps != [] && StartOf(k, Lead(comps)) == Some(start) && dur == DurationOf(k, Lead(comps), start.at)
  }

  function RuleOf(cal: Component): string {
    var comps := Timed(cal.children);
    if comps == [] then "" else ValueOf(Lead(comps), "RRULE")
  }

  /** t is an instant that the object's rule generates and no EXDATE removes, or
      the start of an object without a rule. */
  predicate Occurs(k: Calendrics, e: RuleEngine, cal: Component, t: int) {
    var comps := Timed(cal.children);
    && comps != []
    && match StartOf(k, Lead(comps)) {
         case None => false
         case Some(start) => if RuleOf(cal) == "" then t == start.at else Free(k, e, cal, start, t)
       }
  }

  predicate Free(k: Calendrics, e: RuleEngine, cal: Component, start: Moment, t: int)
    requires Timed(cal.children) != []
  {
    && e.between(start, RuleOf(cal), t, t).Some?
    && e.occurs(start, RuleOf(cal), t) && t !in ExdateInstants(k, Lead(Timed(cal.children)), start.zone)
  }

  /** An occurrence whose span is not negative and, in a bounded series, that
      starts within a hundred years of the series. */
  predicate WithinIndex(k: Calendrics, cal: Component, start: Moment, dur: int, t: int) {
    HasSpan(k, cal, start, dur) && dur >= 0 && (RuleOf(cal) != "" && IsBounded(RuleOf(cal)) ==> t < k.centuryAfter(start))
  }

  /** Index soundness: an object is never pruned for a window that one of its
      occurrences touches, be it that the occurrence began before the window and
      still runs in it. */
  lemma {:induction false} IndexNeverHides(k: Calendrics, e: RuleEngine, cal: Component, window: Range, start: Moment, dur: int, t: int)
    requires FaithfulEngine(e) && ParseCalendar(k, e, cal).Ok?
    requires Occurs(k, e, cal, t) && WithinIndex(k, cal, start, dur, t)
    requires t <= window.end && t + dur >= window.start
    ensures var o := ParseCalendar(k, e, cal).parsed; Overlaps(o.first, o.last, window)
  {
    if RuleOf(cal) == "" {
      WidestAtLeast(k, Timed(cal.children), start.at + dur);
    } else if IsBounded(RuleOf(cal)) {
      var ex := ExdateInstants(k, Lead(Timed(cal.children)), start.zone);
      LastInCentury(k, e, start, RuleOf(cal), ex, t);
    }
  }

  /** The listed occurrences are those that start in the window. */
  lemma {:induction false} ListedOccur(k: Calendrics, e: RuleEngine, cal: Component, window: Range, t: int)
    requires FaithfulEngine(e) && OccurrencesIn(k, e, cal, window).Some?
    ensures t in OccurrencesIn(k, e, cal, window).value <==> Occurs(k, e, cal, t) && window.start <= t < window.end
  {
    var comps := Timed(cal.children);
    if comps != [] && StartOf(k, Lead(comps)).Some? && RuleOf(cal) != "" {
      var start := StartOf(k, Lead(comps)).value;
      ExpandedExactly(e, start, RuleOf(cal), ExdateInstants(k, Lead(comps), start.zone), window);
      assert e.between(start, RuleOf(cal), t, t).Some? by {
        assert e.between(start, RuleOf(cal), window.start, window.end).Some?;
      }
    }
  }

  /** An occurrence within the century is at most the last one that the bounds
      computation finds. */
  lemma {:induction false} LastInCentury(k: Calendrics, e: RuleEngine, start: Moment, rule: string, ex: seq<int>, t: int)
    requires FaithfulEngine(e) && e.between(start, rule, t, t).Some?
    requires e.occurs(start, rule, t) && t !in ex && t < k.centuryAfter(start)
    ensures var wide := Expanded(e, start, rule, ex, WideWindow(k, start));
      wide.Some? && wide.value != [] && t <= wide.value[|wide.value| - 1]
  {
    var wide := WideWindow(k, start);
    assert e.between(start, rule, wide.start, wide.end).Some? by {
      assert e.between(start, rule, t, t).Some?;
    }
    ExpandedExactly(e, start, rule, ex, wide);
    LastIsGreatest(Expanded(e, start, rule, ex, wide).value, t);
  }

  lemma {:induction false} LastIsGreatest(occ: seq<int>, t: int)
    requires Ascending(occ) && t in occ
    ensures occ != [] && t <= occ[|occ| - 1]
  {
    var i :| 0 <= i < |occ| && occ[i] == t;
    assert i < |occ| - 1 ==> occ[i] < occ[|occ| - 1];
  }

  /** Some component ends no earlier than that instant. */
  predicate EndsFrom(k: Calendrics, comps: seq<Component>, t: int) {
    exists i :: 0 <= i < |comps| && EndOf(k, comps[i]).Some? && EndOf(k, comps[i]).value >= t
  }

  function EndOf(k: Calendrics, c: Component): Option<int> {
    match StartOf(k, c)
    case None => None
    case Some(s) => Some(s.at + DurationOf(k, c, s.at))
  }

  lemma {:induction false} WidestIff(k: Calendrics, comps: seq<Component>, last: int, t: int)
    ensures Widest(k, comps, last) >= t <==> last >= t || EndsFrom(k, comps, t)
  {
    if comps != [] {
      var n := |comps| - 1;
      WidestIff(k, comps[..n], last, t);
      EndsFromSnoc(k, comps[..n], comps[n], t);
      assert comps == comps[..n] + [comps[n]];
    }
  }

  lemma {:induction false} EndsFromSnoc(k: Calendrics, comps: seq<Component>, c: Component, t: int)
    ensures EndsFrom(k, comps + [c], t) <==> EndsFrom(k, comps, t) || (EndOf(k, c).Some? && EndOf(k, c).value >= t)
  {
    var all := comps + [c];
    assert forall i :: 0 <= i < |comps| ==> all[i] == comps[i];
    assert all[|comps|] == c;
  }

  /** The bounds of an object without a rule: the start of its leading component
      and the latest end of any. */
  lemma {:induction false} PlainBounds(k: Calendrics, e: RuleEngine, cal: Component, start: Moment, dur: int)
    requires ParseCalendar(k, e, cal).Ok? && RuleOf(cal) == "" && HasSpan(k, cal, start, dur)
    ensures var o := ParseCalendar(k, e, cal).parsed;
      o.first == Some(start.at) && o.last == Some(Widest(k, Timed(cal.children), start.at + dur))
  {
    ParsedBounds(k, e, cal);
  }

  lemma {:induction false} LeadEnds(k: Calendrics, cal: Component, start: Moment, dur: int)
    requires HasSpan(k, cal, start, dur) && dur >= 0
    ensures EndsFrom(k, Timed(cal.children), start.at)
  {
    var comps := Timed(cal.children);
    LeadIsMember(comps);
    var i :| 0 <= i < |comps| && comps[i] == Lead(comps);
    assert EndOf(k, comps[i]) == Some(start.at + dur);
  }

  lemma {:induction false} LeadIsMember(comps: seq<Component>)
    requires comps != []
    ensures Lead(comps) in comps
  {
    MasterMembers(comps);
  }

  /** The span hypothesis is needed: an object without a rule is kept for every
      window that contains its start if and only if one of its components ends no
      earlier than that start. */
  lemma {:induction false} PlainKeptIff(k: Calendrics, e: RuleEngine, cal: Component, start: Moment, dur: int)
    requires ParseCalendar(k, e, cal).Ok? && RuleOf(cal) == "" && HasSpan(k, cal, start, dur)
    ensures KeptAtStart(ParseCalendar(k, e, cal).parsed, start.at) <==> EndsFrom(k, Timed(cal.children), start.at)
  {
    var o := ParseCalendar(k, e, cal).parsed;
    PlainBounds(k, e, cal, start, dur);
    WidestIff(k, Timed(cal.children), start.at + dur, start.at);
    if dur >= 0 { LeadEnds(k, cal, start, dur); }
    KeptAtStartIff(o, start.at, Widest(k, Timed(cal.children), start.at + dur));
  }

  ghost predicate KeptAtStart(o: Parsed, t: int) {
    forall window: Range :: window.Contains(t) ==> Overlaps(o.first, o.last, window)
  }

  lemma {:induction false} KeptAtStartIff(o: Parsed, t: int, last: int)
    requires o.first == Some(t) && o.last == Some(last)
    ensures KeptAtStart(o, t) <==> last >= t
  {
    if last < t {
      var w := Range(t, t + 1);
      assert w.Contains(t) && !Overlaps(o.first, o.last, w);
    }
  }

  /** So a lone event is kept exactly when it does not end before it starts. */
  lemma {:induction false} SingleKeptIff(k: Calendrics, e: RuleEngine, cal: Component, start: Moment, dur: int)
    requires |Timed(cal.children)| == 1 && ParseCalendar(k, e, cal).Ok?
    requires RuleOf(cal) == "" && HasSpan(k, cal, start, dur)
    ensures KeptAtStart(ParseCalendar(k, e, cal).parsed, start.at) <==> dur >= 0
  {
    PlainKeptIff(k, e, cal, start, dur);
    LeadIsMember(Timed(cal.children));
    assert EndOf(k, Timed(cal.children)[0]) == Some(start.at + dur);
    if dur >= 0 { LeadEnds(k, cal, start, dur); }
  }

  /** b is the latest occurrence that starts within a hundred years of the
      series, or the start of the series if there is none. */
  ghost predicate LatestStart(k: Calendrics, e: RuleEngine, cal: Component, start: Moment, b: int)
    requires Timed(cal.children) != []
  {
    && (Early(k, e, cal, start, b) || (b == start.at && forall t :: !Early(k, e, cal, start, t)))
    && (forall t :: Early(k, e, cal, start, t) ==> t <= b)
  }

  predicate Early(k: Calendrics, e: RuleEngine, cal: Component, start: Moment, t: int)
    requires Timed(cal.children) != []
  {
    Free(k, e, cal, start, t) && t < k.centuryAfter(start)
  }

  lemma {:induction false} LatestIs(k: Calendrics, e: RuleEngine, cal: Component, start: Moment, b: int)
    requires Timed(cal.children) != [] && Early(k, e, cal, start, b)
    requires forall t :: Early(k, e, cal, start, t) ==> t <= b
    ensures LatestStart(k, e, cal, start, b)
  {}

  predicate IsBoundedSeries(k: Calendrics, e: RuleEngine, cal: Component, start: Moment, dur: int) {
    && ParseCalendar(k, e, cal).Ok? && HasSpan(k, cal, start, dur)
    && RuleOf(cal) != "" && IsBounded(RuleOf(cal)) && e.between(start, RuleOf(cal), 0, 0).Some?
  }

  /** What bounds computation finds in a bounded series. */
  function Found(k: Calendrics, e: RuleEngine, cal: Component, start: Moment): Option<seq<int>>
    requires Timed(cal.children) != []
  {
    Expanded(e, start, RuleOf(cal), ExdateInstants(k, Lead(Timed(cal.children)), start.zone), WideWindow(k, start))
  }

  lemma {:induction false} BoundsFromFound(k: Calendrics, e: RuleEngine, cal: Component, start: Moment, dur: int)
    requires IsBoundedSeries(k, e, cal, start, dur) && Found(k, e, cal, start).Some?
    ensures var o, occ := ParseCalendar(k, e, cal).parsed, Found(k, e, cal, start).value;
      o.first == Some(start.at) && o.last == Some(dur + if occ == [] then start.at else occ[|occ| - 1])
  {
    ParsedBounds(k, e, cal);
    BoundsOfRule(k, e, Timed(cal.children), Lead(Timed(cal.children)), start);
  }

  lemma {:induction false} ParsedBounds(k: Calendrics, e: RuleEngine, cal: Component)
    requires ParseCalendar(k, e, cal).Ok?
    ensures Timed(cal.children) != []
    ensures var o := ParseCalendar(k, e, cal).parsed;
      (o.first, o.last) == Bounds(k, e, Timed(cal.children), Lead(Timed(cal.children)))
  {}

  lemma {:induction false} BoundsOfRule(k: Calendrics, e: RuleEngine, comps: seq<Component>, master: Component, start: Moment)
    requires StartOf(k, master) == Some(start) && ValueOf(master, "RRULE") != "" && IsBounded(ValueOf(master, "RRULE"))
    requires Expanded(e, start, ValueOf(master, "RRULE"), ExdateInstants(k, master, start.zone), WideWindow(k, start)).Some?
    ensures var occ := Expanded(e, start, ValueOf(master, "RRULE"), ExdateInstants(k, master, start.zone), WideWindow(k, start)).value;
      Bounds(k, e, comps, master) ==
        (Some(start.at), Some(DurationOf(k, master, start.at) + if occ == [] then start.at else occ[|occ| - 1]))
  {}

  /** The recorded end of a bounded series is that of its latest such start. */
  lemma {:induction false} BoundedLast(k: Calendrics, e: RuleEngine, cal: Component, start: Moment, dur: int) returns (b: int)
    requires FaithfulEngine(e) && IsBoundedSeries(k, e, cal, start, dur)
    ensures LatestStart(k, e, cal, start, b)
    ensures var o := ParseCalendar(k, e, cal).parsed; o.first == Some(start.at) && o.last == Some(b + dur)
  {
    b := LatestFound(k, e, cal, start);
    EndRecorded(k, e, cal, start, dur, b);
  }

  lemma {:induction false} EndRecorded(k: Calendrics, e: RuleEngine, cal: Component, start: Moment, dur: int, b: int)
    requires IsBoundedSeries(k, e, cal, start, dur) && Found(k, e, cal, start).Some?
    requires var occ := Found(k, e, cal, start).value; b == if occ == [] then start.at else occ[|occ| - 1]
    ensures var o := ParseCalendar(k, e, cal).parsed; o.first == Some(start.at) && o.last == Some(b + dur)
  {
    BoundsFromFound(k, e, cal, start, dur);
  }

  lemma {:induction false} LatestFound(k: Calendrics, e: RuleEngine, cal: Component, start: Moment) returns (b: int)
    requires FaithfulEngine(e) && Timed(cal.children) != [] && e.between(start, RuleOf(cal), 0, 0).Some?
    ensures Found(k, e, cal, start).Some? && LatestStart(k, e, cal, start, b)
    ensures var occ := Found(k, e, cal, start).value; b == if occ == [] then start.at else occ[|occ| - 1]
  {
    FreeListed(k, e, cal, start);
    b := LatestOf(k, e, cal, start, Found(k, e, cal, start).value);
  }

  lemma {:induction false} LatestOf(k: Calendrics, e: RuleEngine, cal: Component, start: Moment, occ: seq<int>) returns (b: int)
    requires Timed(cal.children) != [] && Ascending(occ)
    requires forall t :: t in occ <==> Early(k, e, cal, start, t)
    ensures b == (if occ == [] then start.at else occ[|occ| - 1]) && LatestStart(k, e, cal, start, b)
  {
    if occ == [] {
      b := start.at;
    } else {
      b := occ[|occ| - 1];
      assert b in occ;
      forall t | t in occ ensures t <= b { LastIsGreatest(occ, t); }
    }
  }

  lemma {:induction false} FreeListed(k: Calendrics, e: RuleEngine, cal: Component, start: Moment)
    requires FaithfulEngine(e) && Timed(cal.children) != [] && e.between(start, RuleOf(cal), 0, 0).Some?
    ensures Found(k, e, cal, start).Some? && Ascending(Found(k, e, cal, start).value)
    ensures forall t :: t in Found(k, e, cal, start).value <==> Early(k, e, cal, start, t)
  {
    forall lo, hi ensures e.between(start, RuleOf(cal), lo, hi).Some? {
      assert e.between(start, RuleOf(cal), 0, 0).Some?;
    }
    var wide := WideWindow(k, start);
    assert e.between(start, RuleOf(cal), wide.start, wide.end).Some?;
    ExpandedExactly(e, start, RuleOf(cal), ExdateInstants(k, Lead(Timed(cal.children)), start.zone), wide);
    forall t | e.occurs(start, RuleOf(cal), t) ensures start.at <= t {}
  }

  /** No window in which an occurrence starts prunes the object. */
  ghost predicate KeptForStarts(k: Calendrics, e: RuleEngine, cal: Component, o: Parsed) {
    forall window: Range, t :: Occurs(k, e, cal, t) && window.Contains(t) ==> Overlaps(o.first, o.last, window)
  }

  /** No window that an occurrence touches prunes the object. */
  ghost predicate KeptForSpans(k: Calendrics, e: RuleEngine, cal: Component, dur: int, o: Parsed) {
    forall window: Range, t :: Occurs(k, e, cal, t) && t <= window.end && t + dur >= window.start ==>
      Overlaps(o.first, o.last, window)
  }

  /** The hypotheses are needed. With b the latest start of a bounded series
      within a hundred years, the series is kept for all windows in which an
      occurrence starts if and only if no later occurrence starts more than a span
      after b; for all windows that an occurrence touches if and only if there is
      no later one; and with a negative span only if it never occurs. */
  lemma {:induction false} BoundedKeptIff(k: Calendrics, e: RuleEngine, cal: Component, start: Moment, dur: int, b: int)
    requires FaithfulEngine(e) && IsBoundedSeries(k, e, cal, start, dur) && LatestStart(k, e, cal, start, b)
    ensures var o, century := ParseCalendar(k, e, cal).parsed, k.centuryAfter(start);
      && (dur >= 0 ==>
            (KeptForStarts(k, e, cal, o) <==>
             forall t :: Free(k, e, cal, start, t) && t >= century ==> t <= b + dur))
      && (dur >= 0 ==>
            (KeptForSpans(k, e, cal, dur, o) <==>
             forall t :: Free(k, e, cal, start, t) && t >= century ==> t <= b))
      && (dur < 0 ==> (KeptForStarts(k, e, cal, o) <==> forall t :: !Free(k, e, cal, start, t)))
  {
    var o := ParseCalendar(k, e, cal).parsed;
    var b' := BoundedLast(k, e, cal, start, dur);
    LatestUnique(k, e, cal, start, b, b');
    forall t
      ensures Occurs(k, e, cal, t) <==> Free(k, e, cal, start, t)
      ensures Free(k, e, cal, start, t) ==> start.at <= t
    {}
    StartsKeptIff(k, e, cal, start, o, b + dur);
    if dur >= 0 {
      SpansKeptIff(k, e, cal, start, dur, o, b);
      LatestSplits(k, e, cal, start, b, b + dur);
      LatestSplits(k, e, cal, start, b, b);
    } else {
      NegativeSpan(k, e, cal, start, b, b + dur);
    }
  }

  lemma {:induction false} LatestUnique(k: Calendrics, e: RuleEngine, cal: Component, start: Moment, b: int, b': int)
    requires Timed(cal.children) != [] && LatestStart(k, e, cal, start, b) && LatestStart(k, e, cal, start, b')
    ensures b == b'
  {}

  lemma {:induction false} LatestSplits(k: Calendrics, e: RuleEngine, cal: Component, start: Moment, b: int, bound: int)
    requires Timed(cal.children) != [] && LatestStart(k, e, cal, start, b) && b <= bound
    ensures (forall t :: Free(k, e, cal, start, t) ==> t <= bound)
        <==> (forall t :: Free(k, e, cal, start, t) && t >= k.centuryAfter(start) ==> t <= bound)
  {
    forall t | Free(k, e, cal, start, t) && t < k.centuryAfter(start) ensures t <= b {
      assert Early(k, e, cal, start, t);
    }
  }

  lemma {:induction false} NegativeSpan(k: Calendrics, e: RuleEngine, cal: Component, start: Moment, b: int, bound: int)
    requires Timed(cal.children) != [] && LatestStart(k, e, cal, start, b) && bound < b
    requires forall t :: Free(k, e, cal, start, t) ==> start.at <= t
    ensures (forall t :: Free(k, e, cal, start, t) ==> t <= bound) <==> (forall t :: !Free(k, e, cal, start, t))
  {}

  /** An occurrence that starts more than a span after b is pruned in its window. */
  lemma {:induction false} LaterPruned(k: Calendrics, e: RuleEngine, cal: Component, start: Moment, dur: int, b: int, t: int)
    requires FaithfulEngine(e) && IsBoundedSeries(k, e, cal, start, dur) && LatestStart(k, e, cal, start, b)
    requires Free(k, e, cal, start, t) && t > b + dur
    ensures Occurs(k, e, cal, t) && !KeptForStarts(k, e, cal, ParseCalendar(k, e, cal).parsed)
  {
    var b' := BoundedLast(k, e, cal, start, dur);
    LatestUnique(k, e, cal, start, b, b');
    assert Range(t, t + 1).Contains(t) && Occurs(k, e, cal, t);
  }

  lemma {:induction false} StartsKeptIff(k: Calendrics, e: RuleEngine, cal: Component, start: Moment, o: Parsed, last: int)
    requires Timed(cal.children) != [] && o.first == Some(start.at) && o.last == Some(last)
    requires forall t :: Occurs(k, e, cal, t) <==> Free(k, e, cal, start, t)
    requires forall t :: Free(k, e, cal, start, t) ==> start.at <= t
    ensures KeptForStarts(k, e, cal, o) <==> forall t :: Free(k, e, cal, start, t) ==> t <= last
  {
    if KeptForStarts(k, e, cal, o) {
      forall t | Free(k, e, cal, start, t) ensures t <= last {
        assert Range(t, t + 1).Contains(t) && Occurs(k, e, cal, t);
      }
    }
  }

  lemma {:induction false} SpansKeptIff(k: Calendrics, e: RuleEngine, cal: Component, start: Moment, dur: int, o: Parsed, b: int)
    requires Timed(cal.children) != [] && o.first == Some(start.at) && o.last == Some(b + dur) && dur >= 0
    requires forall t :: Occurs(k, e, cal, t) <==> Free(k, e, cal, start, t)
    requires forall t :: Free(k, e, cal, start, t) ==> start.at <= t
    ensures KeptForSpans(k, e, cal, dur, o) <==> forall t :: Free(k, e, cal, start, t) ==> t <= b
  {
    if KeptForSpans(k, e, cal, dur, o) {
      forall t | Free(k, e, cal, start, t) ensures t <= b {
        var w := Range(t + dur, t + dur);
        assert Occurs(k, e, cal, t) && t <= w.end && t + dur >= w.start;
      }
    }
  }

  // ----- Exactly which windows keep an object -----

  /** The character is that capital, in either case. */
  predicate IsLetter(c: char, capital: char) {
    c == capital || ('a' <= c <= 'z' && c as int == capital as int + 32)
  }

  /** The word stands at that place of the text, in either case. */
  predicate SaysAt(text: string, i: int, word: string) {
    0 <= i <= |text| - |word| && forall j :: 0 <= j < |word| ==> IsLetter(text[i + j], word[j])
  }

  /** COUNT= or UNTIL= stands somewhere in the rule. */
  ghost predicate NamesItsEnd(rule: string) {
    exists i :: SaysAt(rule, i, "COUNT=") || SaysAt(rule, i, "UNTIL=")
  }

  predicate StandsAt(s: string, i: int, word: string) {
    0 <= i <= |s| - |word| && s[i..i + |word|] == word
  }

  lemma {:induction false} StandsAtTail(s: string, i: int, word: string)
    requires s != [] && i >= 0
    ensures StandsAt(s[1..], i, word) <==> StandsAt(s, i + 1, word)
  {
    if i <= |s| - 1 - |word| { assert s[1..][i..i + |word|] == s[i + 1..i + 1 + |word|]; }
  }

  lemma {:induction false} MentionsSome(s: string, word: string) returns (i: int)
    requires Mentions(s, word)
    ensures StandsAt(s, i, word)
  {
    if s[..|word|] == word {
      i := 0;
      assert s[0..0 + |word|] == s[..|word|];
    } else {
      i := MentionsSome(s[1..], word);
      StandsAtTail(s, i, word);
      i := i + 1;
    }
  }

  lemma {:induction false} MentionsAny(s: string, i: int, word: string)
    requires StandsAt(s, i, word)
    ensures Mentions(s, word)
    decreases i
  {
    if i == 0 {
      assert s[0..0 + |word|] == s[..|word|];
    } else {
      StandsAtTail(s, i - 1, word);
      MentionsAny(s[1..], i - 1, word);
    }
  }

  lemma {:induction false} StandsIffSays(text: string, i: int, word: string)
    requires forall j :: 0 <= j < |word| ==> word[j] == '=' || 'A' <= word[j] <= 'Z'
    ensures StandsAt(Upper(text), i, word) <==> SaysAt(text, i, word)
  {
    if 0 <= i <= |text| - |word| {
      forall j | 0 <= j < |word| ensures Upper(text)[i..i + |word|][j] == word[j] <==> IsLetter(text[i + j], word[j]) {
        assert Upper(text)[i..i + |word|][j] == Upper(text)[i + j];
      }
    }
  }

  lemma {:induction false} MentionsIff(rule: string, word: string)
    requires forall j :: 0 <= j < |word| ==> word[j] == '=' || 'A' <= word[j] <= 'Z'
    ensures Mentions(Upper(rule), word) <==> exists i :: SaysAt(rule, i, word)
  {
    if Mentions(Upper(rule), word) {
      var i := MentionsSome(Upper(rule), word);
      StandsIffSays(rule, i, word);
    }
    if i :| SaysAt(rule, i, word) {
      StandsIffSays(rule, i, word);
      MentionsAny(Upper(rule), i, word);
    }
  }

  lemma {:induction false} BoundedIff(rule: string)
    ensures IsBounded(rule) <==> NamesItsEnd(rule)
  {
    MentionsIff(rule, "COUNT=");
    MentionsIff(rule, "UNTIL=");
  }

  /** The window reaches the object. Without a rule: it does not end before the
      leading component starts, nor begin after each component has ended. With a
      rule that names its end: the same with the end of the latest occurrence of the
      first hundred years, or of the start itself if the rule does not parse or
      leaves none. An endless series and an object that cannot be dated are always
      reached. */
  ghost predicate Reaches(k: Calendrics, e: RuleEngine, cal: Component, window: Range) {
    var comps := Timed(cal.children);
    && comps != []
    && match StartOf(k, Lead(comps)) {
         case None => true
         case Some(start) =>
           var dur := DurationOf(k, Lead(comps), start.at);
           if RuleOf(cal) == "" then
             start.at <= window.end && (start.at + dur >= window.start || EndsFrom(k, comps, window.start))
           else if !NamesItsEnd(RuleOf(cal)) then true
           else start.at <= window.end && EndReached(k, e, cal, start, dur, window)
       }
  }

  ghost predicate EndReached(k: Calendrics, e: RuleEngine, cal: Component, start: Moment, dur: int, window: Range)
    requires Timed(cal.children) != []
  {
    if e.between(start, RuleOf(cal), 0, 0).None? then start.at + dur >= window.start
    else exists b :: LatestStart(k, e, cal, start, b) && b + dur >= window.start
  }

  lemma {:induction false} PlainOverlapsIff(k: Calendrics, e: RuleEngine, cal: Component, start: Moment, dur: int, window: Range)
    requires ParseCalendar(k, e, cal).Ok? && RuleOf(cal) == "" && HasSpan(k, cal, start, dur)
    ensures var o := ParseCalendar(k, e, cal).parsed; Overlaps(o.first, o.last, window) <==>
      start.at <= window.end && (start.at + dur >= window.start || EndsFrom(k, Timed(cal.children), window.start))
  {
    PlainBounds(k, e, cal, start, dur);
    WidestIff(k, Timed(cal.children), start.at + dur, window.start);
  }

  lemma {:induction false} BoundedOverlapsIff(k: Calendrics, e: RuleEngine, cal: Component, start: Moment, dur: int, window: Range)
    requires FaithfulEngine(e) && IsBoundedSeries(k, e, cal, start, dur)
    ensures var o := ParseCalendar(k, e, cal).parsed; Overlaps(o.first, o.last, window) <==>
      start.at <= window.end && exists b :: LatestStart(k, e, cal, start, b) && b + dur >= window.start
  {
    var b := BoundedLast(k, e, cal, start, dur);
    forall b' | LatestStart(k, e, cal, start, b') ensures b' == b { LatestUnique(k, e, cal, start, b, b'); }
  }

  lemma {:induction false} OtherBounds(k: Calendrics, e: RuleEngine, cal: Component)
    requires FaithfulEngine(e) && ParseCalendar(k, e, cal).Ok?
    ensures var o, lead := ParseCalendar(k, e, cal).parsed, Lead(Timed(cal.children));
      && (StartOf(k, lead).None? ==> o.first == None && o.last == None)
      && (StartOf(k, lead).Some? && RuleOf(cal) != "" ==>
            var start := StartOf(k, lead).value;
            && o.first == Some(start.at)
            && (!IsBounded(RuleOf(cal)) ==> o.last == None)
            && (IsBounded(RuleOf(cal)) && e.between(start, RuleOf(cal), 0, 0).None? ==>
                  o.last == Some(start.at + DurationOf(k, lead, start.at))))
  {
    ParsedBounds(k, e, cal);
  }

  /** The index prunes an object exactly for the windows that do not reach it. */
  lemma {:induction false} KeptExactly(k: Calendrics, e: RuleEngine, cal: Component, window: Range)
    requires FaithfulEngine(e) && ParseCalendar(k, e, cal).Ok?
    ensures var o := ParseCalendar(k, e, cal).parsed; Overlaps(o.first, o.last, window) <==> Reaches(k, e, cal, window)
  {
    var comps := Timed(cal.children);
    ParsedBounds(k, e, cal);
    OtherBounds(k, e, cal);
    BoundedIff(RuleOf(cal));
    if StartOf(k, Lead(comps)).Some? {
      var start := StartOf(k, Lead(comps)).value;
      var dur := DurationOf(k, Lead(comps), start.at);
      if RuleOf(cal) == "" {
        PlainOverlapsIff(k, e, cal, start, dur, window);
      } else if IsBounded(RuleOf(cal)) && e.between(start, RuleOf(cal), 0, 0).Some? {
        BoundedOverlapsIff(k, e, cal, start, dur, window);
      }
    }
  }

  // ----- The share renderer's selection -----

  datatype Stored = Stored(cal: Component, first: Option<int>, last: Option<int>)

  /** The events of the stored objects that the index does not prune. */
  function Selected(objs: seq<Stored>, window: Range): seq<Component>
    decreases |objs|
  {
    if objs == [] then []
    else
      var n := |objs| - 1;
      Selected(objs[..n], window) +
      if Overlaps(objs[n].first, objs[n].last, window) then Events(objs[n].cal.children) else []
  }

  method SelectEvents(objs: seq<Stored>, window: Range) returns (combined: seq<Component>)
    ensures combined == Selected(objs, window)
  {
    combined := [];
    for i := 0 to |objs|
      invariant combined == Selected(objs[..i], window)
    {
      assert objs[..i + 1][..i] == objs[..i];
      if !Overlaps(objs[i].first, objs[i].last, window) { continue; }
      ghost var before := combined;
      for j := 0 to |objs[i].cal.children|
        invariant combined == before + Events(objs[i].cal.children[..j])
      {
        assert objs[i].cal.children[..j + 1][..j] == objs[i].cal.children[..j];
        var child := objs[i].cal.children[j];
        if child.name == VEVENT { combined := combined + [child]; }
      }
      assert objs[i].cal.children[..|objs[i].cal.children|] == objs[i].cal.children;
    }
    assert objs[..|objs|] == objs;
  }

  lemma {:induction false} SelectedHolds(objs: seq<Stored>, window: Range, i: nat, c: Component)
    requires i < |objs| && Overlaps(objs[i].first, objs[i].last, window) && c in Events(objs[i].cal.children)
    ensures c in Selected(objs, window)
  {
    if i < |objs| - 1 { SelectedHolds(objs[..|objs| - 1], window, i, c); }
  }

  /** Every event of a stored object with an occurrence that touches the window
      reaches the view filter, when the stored bounds are those computed at
      parsing. */
  lemma {:induction false} SelectionKeepsOccurring(k: Calendrics, e: RuleEngine, objs: seq<Stored>, window: Range, i: nat,
                                                   start: Moment, dur: int, t: int, c: Component)
    requires FaithfulEngine(e) && i < |objs| && ParseCalendar(k, e, objs[i].cal).Ok?
    requires var o := ParseCalendar(k, e, objs[i].cal).parsed; objs[i].first == o.first && objs[i].last == o.last
    requires Occurs(k, e, objs[i].cal, t) && WithinIndex(k, objs[i].cal, start, dur, t)
    requires t <= window.end && t + dur >= window.start && c in Events(objs[i].cal.children)
    ensures c in Selected(objs, window)
  {
    IndexNeverHides(k, e, objs[i].cal, window, start, dur, t);
    SelectedHolds(objs, window, i, c);
  }
}
