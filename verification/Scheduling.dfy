/** Construction of iTIP messages and the annotation of stored events
    (internal/scheduling). Case folding covers ASCII letters. */
module Scheduling {
  import opened Components
  import opened Texts
  import opened Instants
  import opened Timezones

  const ATTENDEE := "ATTENDEE"
  const SCHEDULE_STATUS := "SCHEDULE-STATUS"

  // ----- Addresses -----

  function Normalized(email: string): string {
    Lower(Trim(email))
  }

  /** The bare address of a mailto value: scheme dropped, trimmed, lowered. */
  function MailtoAddress(v: string): string {
    var t := Trim(v);
    Normalized(if |t| >= 7 && Lower(t[..7]) == "mailto:" then t[7..] else t)
  }

  lemma {:induction false} TrimRightAppend(a: string, b: string)
    requires a != [] && !IsSpace(a[|a| - 1])
    ensures TrimRight(a + b) == a + TrimRight(b)
    decreases |b|
  {
    if b == [] {
      assert a + b == a;
    } else if IsSpace(b[|b| - 1]) {
      assert (a + b)[..|a + b| - 1] == a + b[..|b| - 1];
      TrimRightAppend(a, b[..|b| - 1]);
    }
  }

  lemma {:induction false} TrimRightCons(c: char, t: string)
    ensures TrimRight([c] + t) == if TrimRight(t) == [] && IsSpace(c) then [] else [c] + TrimRight(t)
    decreases |t|
  {
    if t == [] {
      assert [c] + t == [c];
      assert [c][..0] == [];
    } else if IsSpace(t[|t| - 1]) {
      assert ([c] + t)[..|[c] + t| - 1] == [c] + t[..|t| - 1];
      TrimRightCons(c, t[..|t| - 1]);
    }
  }

  lemma {:induction false} TrimCommutes(s: string)
    ensures TrimLeft(TrimRight(s)) == TrimRight(TrimLeft(s))
    decreases |s|
  {
    if s != [] {
      var t := s[1..];
      assert s == [s[0]] + t;
      TrimRightCons(s[0], t);
      if IsSpace(s[0]) {
        TrimCommutes(t);
        if TrimRight(t) != [] { assert ([s[0]] + TrimRight(t))[1..] == TrimRight(t); }
      }
    }
  }

  lemma {:induction false} TrimRightIdempotent(s: string)
    ensures TrimRight(TrimRight(s)) == TrimRight(s)
    decreases |s|
  {
    if s != [] && IsSpace(s[|s| - 1]) { TrimRightIdempotent(s[..|s| - 1]); }
  }

  lemma {:induction false} TrimLeftIdempotent(s: string)
    ensures TrimLeft(TrimLeft(s)) == TrimLeft(s)
  {
    if s != [] && IsSpace(s[0]) { TrimLeftIdempotent(s[1..]); }
  }

  lemma {:induction false} TrimIdempotent(s: string)
    ensures Trim(Trim(s)) == Trim(s) && Trim(TrimRight(s)) == Trim(s)
  {
    TrimCommutes(s);
    TrimCommutes(TrimLeft(s));
    TrimLeftIdempotent(s);
    TrimRightIdempotent(TrimLeft(s));
    TrimRightIdempotent(s);
    TrimCommutes(TrimRight(s));
  }

  lemma {:induction false} TrimLeftLower(s: string)
    ensures TrimLeft(Lower(s)) == Lower(TrimLeft(s))
  {
    if s != [] && IsSpace(s[0]) {
      TrimLeftLower(s[1..]);
      assert Lower(s)[1..] == Lower(s[1..]);
    }
  }

  lemma {:induction false} TrimRightLower(s: string)
    ensures TrimRight(Lower(s)) == Lower(TrimRight(s))
    decreases |s|
  {
    if s != [] && IsSpace(s[|s| - 1]) {
      TrimRightLower(s[..|s| - 1]);
      assert Lower(s)[..|s| - 1] == Lower(s[..|s| - 1]);
    }
  }

  lemma {:induction false} NormalizedIdempotent(email: string)
    ensures Normalized(Normalized(email)) == Normalized(email)
  {
    TrimLeftLower(Trim(email));
    TrimRightLower(TrimLeft(Trim(email)));
    TrimIdempotent(email);
    assert Lower(Lower(Trim(email))) == Lower(Trim(email));
  }

  /** A value written as mailto: plus an address reads back as that address. */
  lemma {:induction false} MailtoReads(email: string)
    ensures MailtoAddress("mailto:" + email) == Normalized(email)
  {
    var v := "mailto:" + email;
    assert TrimLeft(v) == v;
    TrimRightAppend("mailto:", email);
    var t := Trim(v);
    assert t == "mailto:" + TrimRight(email);
    assert t[..7] == "mailto:" && t[7..] == TrimRight(email);
    assert Lower(t[..7]) == "mailto:";
    TrimIdempotent(email);
  }

  /** White space, by code point. */
  lemma {:induction false} SpacesAre(c: char)
    ensures IsSpace(c) <==> c as int == 0x20 || 0x09 <= c as int <= 0x0D || c as int == 0x85 || c as int == 0xA0
  {}

  /** Normalising trims, and writes capitals small; it does nothing else. */
  lemma {:induction false} NormalizedExact(email: string, i: nat)
    ensures |Normalized(email)| == |Trim(email)|
    ensures i < |Trim(email)| ==>
        Normalized(email)[i] as int == Trim(email)[i] as int + if 'A' <= Trim(email)[i] <= 'Z' then 32 else 0
  {}

  /** The scheme may be written in any case, and need not be there. */
  lemma {:induction false} MailtoForms(scheme: string, email: string)
    ensures |scheme| == 7 && (forall i :: 0 <= i < 7 ==> scheme[i] == "mailto:"[i] || scheme[i] == "MAILTO:"[i]) ==>
        MailtoAddress(scheme + email) == Normalized(email)
    ensures ':' !in email ==> MailtoAddress(email) == Normalized(email)
  {
    if |scheme| == 7 && (forall i :: 0 <= i < 7 ==> scheme[i] == "mailto:"[i] || scheme[i] == "MAILTO:"[i]) {
      SchemeDropped(scheme, email);
    }
    if ':' !in email { NoScheme(email); }
  }

  lemma {:induction false} SchemeDropped(scheme: string, email: string)
    requires |scheme| == 7 && forall i :: 0 <= i < 7 ==> scheme[i] == "mailto:"[i] || scheme[i] == "MAILTO:"[i]
    ensures MailtoAddress(scheme + email) == Normalized(email)
  {
    var v := scheme + email;
    assert !IsSpace(scheme[0]) && !IsSpace(scheme[6]);
    assert TrimLeft(v) == v;
    TrimRightAppend(scheme, email);
    var t := Trim(v);
    assert t == scheme + TrimRight(email);
    assert t[..7] == scheme && t[7..] == TrimRight(email);
    forall i | 0 <= i < 7 ensures Lower(scheme)[i] == "mailto:"[i] {}
    assert Lower(t[..7]) == "mailto:";
    TrimIdempotent(email);
  }

  lemma {:induction false} NoScheme(email: string)
    requires ':' !in email
    ensures MailtoAddress(email) == Normalized(email)
  {
    var i, j := TrimExact(email);
    var t := Trim(email);
    if |t| >= 7 {
      assert t[6] == email[i + 6];
      assert Lower(t[..7])[6] != ':';
    }
    TrimIdempotent(email);
  }

  // ----- Clones -----

  /** Parameters the server keeps on the organizer's copy and never sends. */
  const SERVER_PARAMS: set<string> := {"SCHEDULE-STATUS", "SCHEDULE-AGENT", "SCHEDULE-FORCE-SEND"}

  function Stripped(ps: seq<Prop>): seq<Prop> {
    seq(|ps|, i requires 0 <= i < |ps| => ps[i].(params := ps[i].params - SERVER_PARAMS))
  }

  function ClonedEvent(src: Component): Component {
    Component(VEVENT, map name | name in src.props :: Stripped(src.props[name]), NonAlarms(src.children))
  }

  function ClonedEvents(events: seq<Component>): seq<Component> {
    seq(|events|, i requires 0 <= i < |events| => ClonedEvent(events[i]))
  }

  function MessageHeader(itipMethod: string): Props {
    Header()["METHOD" := [TextProp("METHOD", itipMethod)]]
  }

  function Cloned(src: Component, itipMethod: string): Component {
    Component(VCALENDAR, MessageHeader(itipMethod), ClonedEvents(Events(src.children)))
  }

  method StripServerParams(ps: seq<Prop>) returns (out: seq<Prop>)
    ensures out == Stripped(ps)
  {
    out := [];
    for i := 0 to |ps|
      invariant out == Stripped(ps[..i])
    {
      var p := ps[i];
      p := p.(params := p.params - {"SCHEDULE-STATUS"});
      p := p.(params := p.params - {"SCHEDULE-AGENT"});
      p := p.(params := p.params - {"SCHEDULE-FORCE-SEND"});
      assert p.params == ps[i].params - SERVER_PARAMS;
      out := out + [p];
    }
    assert ps[..|ps|] == ps;
  }

  method CloneEvent(src: Component) returns (dst: Component)
    ensures dst == ClonedEvent(src)
  {
    var props: Props := map[];
    var names := src.props.Keys;
    while names != {}
      invariant names <= src.props.Keys
      invariant props == map f | f in src.props && f !in names :: Stripped(src.props[f])
      decreases names
    {
      var name :| name in names;
      var stripped := StripServerParams(src.props[name]);
      props := props[name := stripped];
      names := names - {name};
    }
    var children: seq<Component> := [];
    for i := 0 to |src.children|
      invariant children == NonAlarms(src.children[..i])
    {
      assert src.children[..i + 1][..i] == src.children[..i];
      if src.children[i].name == VALARM { continue; }
      children := children + [src.children[i]];
    }
    assert src.children[..|src.children|] == src.children;
    dst := Component(VEVENT, props, children);
  }

  method CloneCalendar(src: Component, itipMethod: string) returns (out: Component)
    ensures out == Cloned(src, itipMethod)
  {
    out := Component(VCALENDAR, MessageHeader(itipMethod), []);
    for i := 0 to |src.children|
      invariant out == Component(VCALENDAR, MessageHeader(itipMethod), ClonedEvents(Events(src.children[..i])))
    {
      assert src.children[..i + 1][..i] == src.children[..i];
      if src.children[i].name == VEVENT {
        var clone := CloneEvent(src.children[i]);
        out := out.(children := out.children + [clone]);
      }
    }
    assert src.children[..|src.children|] == src.children;
  }

  // ----- REQUEST -----

  ghost function Request(src: Component, zones: ZoneDb): Component {
    Bundle(Cloned(src, "REQUEST"), zones)
  }

  method BuildRequest(src: Component, zones: ZoneDb) returns (out: Component)
    ensures out == Request(src, zones)
  {
    out := CloneCalendar(src, "REQUEST");
    out := BundleTimezones(out, zones);
  }

  /** In a REQUEST the events are the clones of the source's events in order,
      behind the VTIMEZONEs of every resolvable zone they name. */
  lemma {:induction false} RequestZones(src: Component, zones: ZoneDb)
    requires WellFormedZones(zones)
    ensures var out := Request(src, zones).children; var clones := ClonedEvents(Events(src.children));
      && |out| >= |clones| && out[|out| - |clones|..] == clones
      && (forall i :: 0 <= i < |out| - |clones| ==> out[i].name == VTIMEZONE)
      && (forall n :: n in AllTzids(clones) && zones(n).Some? ==> zones(n).value in out[..|out| - |clones|])
  {
    var plain := Cloned(src, "REQUEST");
    BundleResolves(plain, zones);
    forall c | c in plain.children ensures c.name != VTIMEZONE {}
    assert PresentZones(plain.children) == {};
  }

  /** What one property of a message says of the stored one: everything but what the
      server keeps to itself. */
  ghost predicate SaysOf(sent: Prop, kept: Prop) {
    && sent.name == kept.name && sent.value == kept.value
    && (forall key :: key in sent.params <==>
          key in kept.params && key != "SCHEDULE-STATUS" && key != "SCHEDULE-AGENT" && key != "SCHEDULE-FORCE-SEND")
    && (forall key :: key in sent.params ==> sent.params[key] == kept.params[key])
  }

  ghost predicate SendsOf(sent: Component, kept: Component) {
    && sent.name == "VEVENT" && sent.props.Keys == kept.props.Keys
    && (forall name :: name in kept.props ==> |sent.props[name]| == |kept.props[name]|)
    && (forall name, i :: name in kept.props && 0 <= i < |kept.props[name]| ==> SaysOf(sent.props[name][i], kept.props[name][i]))
    && (forall child :: child in sent.children <==> child in kept.children && child.name != "VALARM")
  }

  lemma {:induction false} NonAlarmMembers(children: seq<Component>, c: Component)
    ensures c in NonAlarms(children) <==> c in children && c.name != VALARM
  {
    if children != [] {
      var n := |children| - 1;
      NonAlarmMembers(children[..n], c);
      assert children == children[..n] + [children[n]];
    }
  }

  lemma {:induction false} CloneSends(c: Component)
    ensures SendsOf(ClonedEvent(c), c)
  {
    forall child ensures child in NonAlarms(c.children) <==> child in c.children && child.name != VALARM {
      NonAlarmMembers(c.children, child);
    }
    forall name, i | name in c.props && 0 <= i < |c.props[name]|
      ensures SaysOf(ClonedEvent(c).props[name][i], c.props[name][i])
    {
      assert ClonedEvent(c).props[name][i].params == c.props[name][i].params - SERVER_PARAMS;
    }
  }

  lemma {:induction false} RequestHeader(src: Component, zones: ZoneDb)
    ensures var out := Request(src, zones); ValueOf(out, "METHOD") == "REQUEST" && ValueOf(out, "VERSION") == "2.0"
  {
    assert Request(src, zones).props == MessageHeader("REQUEST");
  }

  /** An invitation has the method REQUEST and, in order behind its zones, the
      events of the calendar without alarms and without the three parameters that
      the server keeps to itself; all else of them is sent. */
  lemma {:induction false} RequestSends(src: Component, zones: ZoneDb, i: nat)
    requires WellFormedZones(zones) && i < |Events(src.children)|
    ensures var out := Request(src, zones); var k := |out.children| - |Events(src.children)|;
      && ValueOf(out, "METHOD") == "REQUEST" && ValueOf(out, "VERSION") == "2.0"
      && k >= 0 && (forall j :: 0 <= j < k ==> out.children[j].name == "VTIMEZONE")
      && SendsOf(out.children[k + i], Events(src.children)[i])
  {
    RequestZones(src, zones);
    RequestHeader(src, zones);
    var out, events := Request(src, zones).children, Events(src.children);
    var k := |out| - |events|;
    assert out[k..][i] == out[k + i];
    CloneSends(events[i]);
    assert out[k + i] == ClonedEvent(events[i]);
  }

  // ----- SCHEDULE-STATUS annotation -----

  /** The position of the master event: the first event without RECURRENCE-ID, or
      the first event; the length when there is none. */
  function FirstEvent(children: seq<Component>, needMaster: bool, from: nat): (i: nat)
    requires from <= |children|
    ensures from <= i <= |children|
    ensures i < |children| ==> children[i].name == VEVENT
    decreases |children| - from
  {
    if from == |children| then from
    else if children[from].name == VEVENT && !(needMaster && Has(children[from], RECURRENCE_ID)) then from
    else FirstEvent(children, needMaster, from + 1)
  }

  function MasterIndex(children: seq<Component>): (i: nat)
    ensures i <= |children|
    ensures i < |children| ==> children[i].name == VEVENT
  {
    var i := FirstEvent(children, true, 0);
    if i < |children| then i else FirstEvent(children, false, 0)
  }

  lemma {:induction false} FirstEventIs(children: seq<Component>, needMaster: bool, from: nat)
    requires from <= |children|
    ensures var i := FirstEvent(children, needMaster, from);
      && (forall j :: from <= j < i ==> children[j].name != VEVENT || (needMaster && Has(children[j], RECURRENCE_ID)))
      && (i < |children| && needMaster ==> !Has(children[i], RECURRENCE_ID))
    decreases |children| - from
  {
    if FirstEvent(children, needMaster, from) != from { FirstEventIs(children, needMaster, from + 1); }
  }

  /** The master is the first event without RECURRENCE-ID; without one, the first
      event. */
  lemma {:induction false} MasterIndexIs(children: seq<Component>)
    ensures var i := MasterIndex(children);
      if i < |children| && !Has(children[i], RECURRENCE_ID) then
        children[i].name == "VEVENT" && forall j :: 0 <= j < i ==> children[j].name != "VEVENT" || Has(children[j], RECURRENCE_ID)
      else
        && (forall j :: 0 <= j < |children| ==> children[j].name != "VEVENT" || Has(children[j], RECURRENCE_ID))
        && (forall j :: 0 <= j < i ==> children[j].name != "VEVENT")
        && (i < |children| ==> children[i].name == "VEVENT")
  {
    FirstEventIs(children, true, 0);
    FirstEventIs(children, false, 0);
  }

  method MasterEvent(children: seq<Component>) returns (i: nat)
    ensures i == MasterIndex(children)
  {
    i := 0;
    while i < |children|
      invariant i <= |children| && FirstEvent(children, true, 0) == FirstEvent(children, true, i)
    {
      if children[i].name == VEVENT && Get(children[i].props, RECURRENCE_ID) == None { return; }
      i := i + 1;
    }
    i := 0;
    while i < |children|
      invariant i <= |children| && FirstEvent(children, false, 0) == FirstEvent(children, false, i)
    {
      if children[i].name == VEVENT { return; }
      i := i + 1;
    }
  }

  datatype Attendee = Attendee(email: string, cn: string, role: string, partstat: string, agent: string)

  /** extractAttendees: the addressed ATTENDEE lines. */
  function Attendees(ps: seq<Prop>): seq<Attendee>
    decreases |ps|
  {
    if ps == [] then []
    else
      var p := ps[|ps| - 1];
      Attendees(ps[..|ps| - 1]) +
      if MailtoAddress(p.value) == "" then []
      else [Attendee(MailtoAddress(p.value), Param(p, "CN"), Param(p, "ROLE"), Param(p, "PARTSTAT"), Param(p, "SCHEDULE-AGENT"))]
  }

  predicate Delivers(agent: string) {
    agent == "" || Lower(agent) == "server"
  }

  predicate IsOrganizer(a: Attendee, organizer: string) {
    Normalized(a.email) == Normalized(organizer)
  }

  /** The outcome for one attendee: 1.2 for a local mailbox, 1.1 for queued mail,
      nothing if client-managed. */
  function StatusFor(a: Attendee, locals: set<string>): string {
    if !Delivers(a.agent) then "" else if Normalized(a.email) in locals then "1.2" else "1.1"
  }

  // ----- What a scheduling pass does for the attendees -----

  datatype AttendeeRow = AttendeeRow(
    cn: string, role: string, partstat: string, rsvp: bool, isLocal: bool, scheduleStatus: string, updatedAt: int)

  /** An event's attendee rows by address, and, in order, the local mailboxes that
      got its invitation and the addresses to which it was queued. */
  datatype Effects = Effects(rows: map<string, AttendeeRow>, delivered: seq<string>, queued: seq<string>)

  function RowFor(a: Attendee, locals: set<string>, now: int): AttendeeRow {
    AttendeeRow(a.cn, a.role, if a.partstat == "" then "NEEDS-ACTION" else a.partstat, true,
                Normalized(a.email) in locals, StatusFor(a, locals), now)
  }

  function Sent(e: Effects, a: Attendee, locals: set<string>): Effects {
    if !Delivers(a.agent) then e
    else if Normalized(a.email) in locals then e.(delivered := e.delivered + [Normalized(a.email)])
    else e.(queued := e.queued + [a.email])
  }

  function Handled(e: Effects, a: Attendee, organizer: string, locals: set<string>, now: int): Effects {
    if IsOrganizer(a, organizer) then e
    else Sent(e, a, locals).(rows := e.rows[Normalized(a.email) := RowFor(a, locals, now)])
  }

  function HandledAll(e: Effects, attendees: seq<Attendee>, organizer: string, locals: set<string>, now: int): Effects
    decreases |attendees|
  {
    if attendees == [] then e
    else
      var n := |attendees| - 1;
      Handled(HandledAll(e, attendees[..n], organizer, locals, now), attendees[n], organizer, locals, now)
  }

  /** A delivery or a row update that fails ends the pass at that attendee. */
  datatype Fault = NoFault | DeliveryFails(at: nat) | RowFails(at: nat)

  /** Where the pass ends: a fault at an attendee for whom the step is not taken
      does not show. */
  predicate Stops(fault: Fault, attendees: seq<Attendee>, organizer: string) {
    match fault
    case NoFault => false
    case DeliveryFails(j) => j < |attendees| && !IsOrganizer(attendees[j], organizer) && Delivers(attendees[j].agent)
    case RowFails(j) => j < |attendees| && !IsOrganizer(attendees[j], organizer)
  }

  function EffectsOf(e: Effects, attendees: seq<Attendee>, organizer: string, locals: set<string>, now: int, fault: Fault): Effects {
    if !Stops(fault, attendees, organizer) then HandledAll(e, attendees, organizer, locals, now)
    else
      var before := HandledAll(e, attendees[..fault.at], organizer, locals, now);
      if fault.RowFails? then Sent(before, attendees[fault.at], locals) else before
  }

  /** The outcomes OnPut records for the attendees but the organizer. */
  function Statuses(attendees: seq<Attendee>, organizer: string, locals: set<string>): map<string, string>
    decreases |attendees|
  {
    if attendees == [] then map[]
    else
      var a := attendees[|attendees| - 1];
      var before := Statuses(attendees[..|attendees| - 1], organizer, locals);
      if IsOrganizer(a, organizer) || !Delivers(a.agent) then before
      else before[Normalized(a.email) := StatusFor(a, locals)]
  }

  function AnnotatedProp(p: Prop, statuses: map<string, string>): Prop {
    var address := MailtoAddress(p.value);
    if address in statuses then p.(params := p.params[SCHEDULE_STATUS := [statuses[address]]]) else p
  }

  function AnnotatedProps(ps: seq<Prop>, statuses: map<string, string>): seq<Prop> {
    seq(|ps|, i requires 0 <= i < |ps| => AnnotatedProp(ps[i], statuses))
  }

  function AnnotatedEvent(event: Component, statuses: map<string, string>): Component {
    if ATTENDEE in event.props then
      event.(props := event.props[ATTENDEE := AnnotatedProps(event.props[ATTENDEE], statuses)])
    else event
  }

  /** The calendar that writeScheduleStatus stores back. */
  function Annotated(cal: Component, statuses: map<string, string>): Component {
    var i := MasterIndex(cal.children);
    if i == |cal.children| then cal
    else cal.(children := cal.children[i := AnnotatedEvent(cal.children[i], statuses)])
  }

  /** What OnPut leaves stored for an event with scheduling information. */
  function AfterOnPut(cal: Component, organizer: string, locals: set<string>): Component {
    var i := MasterIndex(cal.children);
    if i == |cal.children| then cal
    else Annotated(cal, Statuses(Attendees(AllOf(cal.children[i].props, ATTENDEE)), organizer, locals))
  }

  method WriteScheduleStatus(cal: Component, i: nat, statuses: map<string, string>) returns (out: Component)
    requires i == MasterIndex(cal.children) && i < |cal.children|
    ensures out == Annotated(cal, statuses)
  {
    var master := cal.children[i];
    var changed := false;
    var ps := AllOf(master.props, ATTENDEE);
    var edited := ps;
    for j := 0 to |ps|
      invariant |edited| == |ps|
      invariant forall k :: 0 <= k < |ps| ==> edited[k] == if k < j then AnnotatedProp(ps[k], statuses) else ps[k]
      invariant !changed ==> edited == ps
      invariant changed ==> ATTENDEE in master.props
    {
      var address := MailtoAddress(ps[j].value);
      if address !in statuses { continue; }
      edited := edited[j := edited[j].(params := edited[j].params[SCHEDULE_STATUS := [statuses[address]]])];
      changed := true;
    }
    assert edited == AnnotatedProps(ps, statuses);
    if !changed {
      assert ATTENDEE in master.props ==> master.props[ATTENDEE := edited] == master.props;
      assert cal.children[i := master] == cal.children;
      return cal;
    }
    out := cal.(children := cal.children[i := master.(props := master.props[ATTENDEE := edited])]);
  }

  /** The ATTENDEE lines of the master. */
  function MasterLines(cal: Component): seq<Prop> {
    var i := MasterIndex(cal.children);
    if i == |cal.children| then [] else AllOf(cal.children[i].props, ATTENDEE)
  }

  function AttendeesOf(cal: Component): seq<Attendee> {
    Attendees(MasterLines(cal))
  }

  method Deliver(e: Effects, a: Attendee, locals: set<string>) returns (after: Effects, status: string)
    ensures after == Sent(e, a, locals) && status == StatusFor(a, locals)
    ensures status != "" <==> Delivers(a.agent)
  {
    after, status := e, "";
    if Delivers(a.agent) && Normalized(a.email) in locals {
      after := after.(delivered := after.delivered + [Normalized(a.email)]);
      status := "1.2";
    } else if Delivers(a.agent) {
      after := after.(queued := after.queued + [a.email]);
      status := "1.1";
    }
  }

  /** The row is replaced whole, whatever the attendee answered before. */
  method Upsert(e: Effects, a: Attendee, status: string, locals: set<string>, now: int) returns (after: Effects)
    requires status == StatusFor(a, locals)
    ensures after == e.(rows := e.rows[Normalized(a.email) := RowFor(a, locals, now)])
  {
    var partstat := if a.partstat == "" then "NEEDS-ACTION" else a.partstat;
    var row := AttendeeRow(a.cn, a.role, partstat, true, Normalized(a.email) in locals, status, now);
    after := e.(rows := e.rows[Normalized(a.email) := row]);
  }

  /** One attendee other than the organizer, who is the j-th of the pass. */
  method Handle(e: Effects, statuses: map<string, string>, a: Attendee, locals: set<string>, now: int, fault: Fault, j: nat)
    returns (after: Effects, known: map<string, string>, failed: bool)
    ensures failed == (fault == RowFails(j) || (fault == DeliveryFails(j) && Delivers(a.agent)))
    ensures after == if fault == DeliveryFails(j) && Delivers(a.agent) then e
                     else if fault == RowFails(j) then Sent(e, a, locals)
                     else Sent(e, a, locals).(rows := e.rows[Normalized(a.email) := RowFor(a, locals, now)])
    ensures known == if failed || !Delivers(a.agent) then statuses else statuses[Normalized(a.email) := StatusFor(a, locals)]
  {
    known := statuses;
    if Delivers(a.agent) && fault == DeliveryFails(j) { return e, known, true; }
    var status;
    after, status := Deliver(e, a, locals);
    if fault == RowFails(j) { return after, known, true; }
    after := Upsert(after, a, status, locals, now);
    if status != "" {
      known := known[Normalized(a.email) := status];
    }
    failed := false;
  }

  lemma {:induction false} PassStep(e: Effects, attendees: seq<Attendee>, j: nat, organizer: string, locals: set<string>, now: int)
    requires j < |attendees|
    ensures HandledAll(e, attendees[..j + 1], organizer, locals, now)
         == Handled(HandledAll(e, attendees[..j], organizer, locals, now), attendees[j], organizer, locals, now)
    ensures var a, before := attendees[j], Statuses(attendees[..j], organizer, locals);
      Statuses(attendees[..j + 1], organizer, locals) ==
        if IsOrganizer(a, organizer) || !Delivers(a.agent) then before else before[Normalized(a.email) := StatusFor(a, locals)]
  {
    assert attendees[..j + 1][..j] == attendees[..j];
  }

  method OnPut(cal: Component, organizer: string, locals: set<string>, now: int, e: Effects, fault: Fault)
    returns (out: Component, after: Effects, failed: bool)
    ensures failed == Stops(fault, AttendeesOf(cal), organizer)
    ensures out == if failed then cal else AfterOnPut(cal, organizer, locals)
    ensures after == EffectsOf(e, AttendeesOf(cal), organizer, locals, now, fault)
  {
    var i := MasterEvent(cal.children);
    if i == |cal.children| { return cal, e, false; }
    var attendees := Attendees(AllOf(cal.children[i].props, ATTENDEE));
    var statuses: map<string, string> := map[];
    after := e;
    for j := 0 to |attendees|
      invariant statuses == Statuses(attendees[..j], organizer, locals)
      invariant after == HandledAll(e, attendees[..j], organizer, locals, now)
      invariant Stops(fault, attendees, organizer) ==> j <= fault.at
    {
      PassStep(e, attendees, j, organizer, locals, now);
      if Normalized(attendees[j].email) == Normalized(organizer) { continue; }
      after, statuses, failed := Handle(after, statuses, attendees[j], locals, now, fault, j);
      if failed { return cal, after, true; }
    }
    assert attendees[..|attendees|] == attendees;
    failed := false;
    out := WriteScheduleStatus(cal, i, statuses);
  }

  // ----- Rows, deliveries and annotations agree -----

  predicate Invited(attendees: seq<Attendee>, organizer: string, address: string) {
    exists i :: 0 <= i < |attendees| && !IsOrganizer(attendees[i], organizer) && Normalized(attendees[i].email) == address
  }

  /** How many lines ask the server to deliver to an address. */
  function Asked(attendees: seq<Attendee>, organizer: string, address: string): nat
    decreases |attendees|
  {
    if attendees == [] then 0
    else
      var a := attendees[|attendees| - 1];
      Asked(attendees[..|attendees| - 1], organizer, address) +
      if !IsOrganizer(a, organizer) && Delivers(a.agent) && Normalized(a.email) == address then 1 else 0
  }

  function Times(s: seq<string>, address: string): nat
    decreases |s|
  {
    if s == [] then 0 else Times(s[..|s| - 1], address) + if Normalized(s[|s| - 1]) == address then 1 else 0
  }

  lemma {:induction false} TimesSnoc(s: seq<string>, x: string, address: string)
    ensures Times(s + [x], address) == Times(s, address) + if Normalized(x) == address then 1 else 0
  {
    assert (s + [x])[..|s|] == s;
  }

  /** A pass reaches each address once for every line that asks for it, by mailbox
      if the address is local and by mail if not, and nobody else; the organizer
      is not written to. */
  lemma {:induction false} ReachedAsAsked(attendees: seq<Attendee>, organizer: string, locals: set<string>, now: int, address: string)
    ensures var e := HandledAll(Effects(map[], [], []), attendees, organizer, locals, now);
      && Times(e.delivered, address) == (if address in locals then Asked(attendees, organizer, address) else 0)
      && Times(e.queued, address) == (if address in locals then 0 else Asked(attendees, organizer, address))
    ensures Asked(attendees, organizer, Normalized(organizer)) == 0
  {
    if attendees != [] {
      var n := |attendees| - 1;
      ReachedAsAsked(attendees[..n], organizer, locals, now, address);
      HandledCounts(HandledAll(Effects(map[], [], []), attendees[..n], organizer, locals, now), attendees[n], organizer, locals, now, address);
    }
  }

  lemma {:induction false} HandledCounts(e: Effects, a: Attendee, organizer: string, locals: set<string>, now: int, address: string)
    ensures var after := Handled(e, a, organizer, locals, now);
      var asked := if !IsOrganizer(a, organizer) && Delivers(a.agent) && Normalized(a.email) == address then 1 else 0;
      && Times(after.delivered, address) == Times(e.delivered, address) + (if address in locals then asked else 0)
      && Times(after.queued, address) == Times(e.queued, address) + (if address in locals then 0 else asked)
  {
    SentCounts(e, a, locals, address);
  }

  lemma {:induction false} SentCounts(e: Effects, a: Attendee, locals: set<string>, address: string)
    ensures var sent := Sent(e, a, locals); var asked := if Delivers(a.agent) && Normalized(a.email) == address then 1 else 0;
      && Times(sent.delivered, address) == Times(e.delivered, address) + (if address in locals then asked else 0)
      && Times(sent.queued, address) == Times(e.queued, address) + (if address in locals then 0 else asked)
  {
    NormalizedIdempotent(a.email);
    TimesSnoc(e.delivered, Normalized(a.email), address);
    TimesSnoc(e.queued, a.email, address);
  }

  lemma {:induction false} InvitedSnoc(attendees: seq<Attendee>, a: Attendee, organizer: string, address: string)
    ensures Invited(attendees + [a], organizer, address) <==>
      Invited(attendees, organizer, address) || (!IsOrganizer(a, organizer) && Normalized(a.email) == address)
  {
    var all := attendees + [a];
    assert forall i :: 0 <= i < |attendees| ==> all[i] == attendees[i];
    assert all[|attendees|] == a;
  }

  /** The rows that a pass writes are those of the invited, whatever was there. */
  lemma {:induction false} RowsOfInvited(e: Effects, attendees: seq<Attendee>, organizer: string, locals: set<string>, now: int, address: string)
    ensures var rows := HandledAll(e, attendees, organizer, locals, now).rows;
      if Invited(attendees, organizer, address) then
        address in rows && rows[address] == RowFor(LastLine(attendees, organizer, address), locals, now)
      else
        (address in rows <==> address in e.rows) && (address in rows ==> rows[address] == e.rows[address])
  {
    if attendees != [] {
      var n := |attendees| - 1;
      RowsOfInvited(e, attendees[..n], organizer, locals, now, address);
      InvitedSnoc(attendees[..n], attendees[n], organizer, address);
      assert attendees == attendees[..n] + [attendees[n]];
    }
  }

  /** Server-managed: no agent is named, or SERVER in any case of letters. */
  predicate AsksServer(agent: string) {
    agent == "" || (|agent| == 6 && forall i :: 0 <= i < 6 ==> agent[i] == "server"[i] || agent[i] == "SERVER"[i])
  }

  lemma {:induction false} DeliversIff(agent: string)
    ensures Delivers(agent) <==> AsksServer(agent)
  {
    if |agent| == 6 {
      forall i | 0 <= i < 6 ensures Lower(agent)[i] == "server"[i] <==> agent[i] == "server"[i] || agent[i] == "SERVER"[i] {}
      if AsksServer(agent) { assert Lower(agent) == "server"; }
    }
  }

  /** Column by column, the row that a line asks for. */
  predicate RowSays(row: AttendeeRow, line: Prop, locals: set<string>, now: int) {
    var address := MailtoAddress(line.value);
    && row.cn == Param(line, "CN") && row.role == Param(line, "ROLE")
    && row.partstat == (if Param(line, "PARTSTAT") == "" then "NEEDS-ACTION" else Param(line, "PARTSTAT"))
    && row.rsvp && (row.isLocal <==> address in locals) && row.updatedAt == now
    && row.scheduleStatus ==
         (if !AsksServer(Param(line, "SCHEDULE-AGENT")) then "" else if address in locals then "1.2" else "1.1")
  }

  function LineAttendee(line: Prop): Attendee {
    Attendee(MailtoAddress(line.value), Param(line, "CN"), Param(line, "ROLE"), Param(line, "PARTSTAT"), Param(line, "SCHEDULE-AGENT"))
  }

  lemma {:induction false} PassLast(e: Effects, ps: seq<Prop>, organizer: string, locals: set<string>, now: int)
    requires ps != []
    ensures var before := HandledAll(e, Attendees(ps[..|ps| - 1]), organizer, locals, now);
      HandledAll(e, Attendees(ps), organizer, locals, now) ==
        if MailtoAddress(ps[|ps| - 1].value) == "" then before
        else Handled(before, LineAttendee(ps[|ps| - 1]), organizer, locals, now)
  {
    var earlier := Attendees(ps[..|ps| - 1]);
    if MailtoAddress(ps[|ps| - 1].value) == "" {
      assert Attendees(ps) == earlier;
    } else {
      assert Attendees(ps) == earlier + [LineAttendee(ps[|ps| - 1])];
      HandledSnoc(e, earlier, LineAttendee(ps[|ps| - 1]), organizer, locals, now);
    }
  }

  lemma {:induction false} HandledSnoc(e: Effects, attendees: seq<Attendee>, a: Attendee, organizer: string, locals: set<string>, now: int)
    ensures HandledAll(e, attendees + [a], organizer, locals, now)
         == Handled(HandledAll(e, attendees, organizer, locals, now), a, organizer, locals, now)
  {
    assert (attendees + [a])[..|attendees|] == attendees;
  }

  lemma {:induction false} LineRow(e: Effects, line: Prop, organizer: string, locals: set<string>, now: int)
    requires MailtoAddress(line.value) != "" && MailtoAddress(line.value) != Normalized(organizer)
    ensures var address, rows := MailtoAddress(line.value), Handled(e, LineAttendee(line), organizer, locals, now).rows;
      address in rows && RowSays(rows[address], line, locals, now)
  {
    AddressNormal(line.value);
    DeliversIff(Param(line, "SCHEDULE-AGENT"));
  }

  lemma {:induction false} AddressNormal(v: string)
    ensures Normalized(MailtoAddress(v)) == MailtoAddress(v)
  {
    var t := Trim(v);
    NormalizedIdempotent(if |t| >= 7 && Lower(t[..7]) == "mailto:" then t[7..] else t);
  }

  /** After a pass over the lines of an event, the row of an address other than the
      organizer's says what the last line for the address asks for. */
  lemma {:induction false} RowOfLastLine(e: Effects, ps: seq<Prop>, organizer: string, locals: set<string>, now: int, j: nat)
    requires j < |ps| && MailtoAddress(ps[j].value) != "" && MailtoAddress(ps[j].value) != Normalized(organizer)
    requires forall i :: j < i < |ps| ==> MailtoAddress(ps[i].value) != MailtoAddress(ps[j].value)
    ensures var address, rows := MailtoAddress(ps[j].value), HandledAll(e, Attendees(ps), organizer, locals, now).rows;
      address in rows && RowSays(rows[address], ps[j], locals, now)
  {
    var n := |ps| - 1;
    PassLast(e, ps, organizer, locals, now);
    var before := HandledAll(e, Attendees(ps[..n]), organizer, locals, now);
    if j == n {
      LineRow(before, ps[n], organizer, locals, now);
    } else {
      RowOfLastLine(e, ps[..n], organizer, locals, now, j);
      OtherRowStays(before, ps[n], organizer, locals, now, MailtoAddress(ps[j].value));
    }
  }

  lemma {:induction false} OtherRowStays(e: Effects, line: Prop, organizer: string, locals: set<string>, now: int, address: string)
    requires address in e.rows && MailtoAddress(line.value) != address
    ensures var rows := Handled(e, LineAttendee(line), organizer, locals, now).rows; address in rows && rows[address] == e.rows[address]
  {
    AddressNormal(line.value);
  }

  /** The line that decides an address's row. */
  function LastLine(attendees: seq<Attendee>, organizer: string, address: string): Attendee
    requires Invited(attendees, organizer, address)
    decreases |attendees|
  {
    var n := |attendees| - 1;
    if !IsOrganizer(attendees[n], organizer) && Normalized(attendees[n].email) == address then attendees[n]
    else
      InvitedSnoc(attendees[..n], attendees[n], organizer, address);
      assert attendees == attendees[..n] + [attendees[n]];
      LastLine(attendees[..n], organizer, address)
  }

  lemma {:induction false} StatusesOf(attendees: seq<Attendee>, organizer: string, locals: set<string>, address: string)
    ensures var statuses := Statuses(attendees, organizer, locals);
      && (address in statuses <==> Asked(attendees, organizer, address) > 0)
      && (address in statuses ==> statuses[address] == if address in locals then "1.2" else "1.1")
  {
    if attendees != [] {
      StatusesOf(attendees[..|attendees| - 1], organizer, locals, address);
    }
  }

  lemma {:induction false} LastLineFacts(attendees: seq<Attendee>, organizer: string, address: string)
    requires Invited(attendees, organizer, address)
    ensures var a := LastLine(attendees, organizer, address);
      Normalized(a.email) == address && (Delivers(a.agent) ==> Asked(attendees, organizer, address) > 0)
  {
    var n := |attendees| - 1;
    if IsOrganizer(attendees[n], organizer) || Normalized(attendees[n].email) != address {
      InvitedSnoc(attendees[..n], attendees[n], organizer, address);
      assert attendees == attendees[..n] + [attendees[n]];
      LastLineFacts(attendees[..n], organizer, address);
    }
  }

  /** The status in an invited address's row is that of its last line. */
  lemma {:induction false} RowStatus(e: Effects, attendees: seq<Attendee>, organizer: string, locals: set<string>, now: int, address: string)
    requires Invited(attendees, organizer, address)
    ensures var rows, a := HandledAll(e, attendees, organizer, locals, now).rows, LastLine(attendees, organizer, address);
      && address in rows && (Delivers(a.agent) ==> Asked(attendees, organizer, address) > 0)
      && rows[address].scheduleStatus == if !Delivers(a.agent) then "" else if address in locals then "1.2" else "1.1"
  {
    RowsOfInvited(e, attendees, organizer, locals, now, address);
    LastLineFacts(attendees, organizer, address);
  }

  /** The status on a line of the stored event after a pass: that of the delivery,
      or what the line said before. */
  lemma {:induction false} LineStatus(cal: Component, organizer: string, locals: set<string>, j: nat)
    requires j < |MasterLines(cal)|
    ensures var out, line := MasterLines(AfterOnPut(cal, organizer, locals)), MasterLines(cal)[j];
      var address := MailtoAddress(line.value);
      && |out| == |MasterLines(cal)| && MailtoAddress(out[j].value) == address
      && Param(out[j], SCHEDULE_STATUS) ==
           if Asked(AttendeesOf(cal), organizer, address) == 0 then Param(line, SCHEDULE_STATUS)
           else if address in locals then "1.2" else "1.1"
  {
    var address := MailtoAddress(MasterLines(cal)[j].value);
    var statuses := Statuses(AttendeesOf(cal), organizer, locals);
    AnnotationKeepsAttendees(cal, statuses);
    StatusesOf(AttendeesOf(cal), organizer, locals, address);
    assert MasterLines(Annotated(cal, statuses)) == AnnotatedProps(MasterLines(cal), statuses);
  }

  /** A line of an invited attendee and the attendee's row say the same status
      after a pass if and only if, for an address that the server delivered for,
      its last line asks for that too, and for any other the line carried no status
      before. */
  lemma {:induction false} StatusAgreesIff(e: Effects, cal: Component, organizer: string, locals: set<string>, now: int, j: nat)
    requires j < |MasterLines(cal)|
    requires Invited(AttendeesOf(cal), organizer, MailtoAddress(MasterLines(cal)[j].value))
    ensures var out, line := MasterLines(AfterOnPut(cal, organizer, locals)), MasterLines(cal)[j];
      var address, rows := MailtoAddress(line.value), HandledAll(e, AttendeesOf(cal), organizer, locals, now).rows;
      && j < |out| && address in rows
      && (Param(out[j], SCHEDULE_STATUS) == rows[address].scheduleStatus <==>
          if Asked(AttendeesOf(cal), organizer, address) > 0 then Delivers(LastLine(AttendeesOf(cal), organizer, address).agent)
          else Param(line, SCHEDULE_STATUS) == "")
  {
    LineStatus(cal, organizer, locals, j);
    RowStatus(e, AttendeesOf(cal), organizer, locals, now, MailtoAddress(MasterLines(cal)[j].value));
  }

  /** After a pass that failed, wherever it did, a pass that succeeds leaves the
      rows that it would have left alone. */
  lemma {:induction false} RowsConverge(e: Effects, attendees: seq<Attendee>, organizer: string, locals: set<string>, first: int, now: int, fault: Fault)
    ensures HandledAll(EffectsOf(e, attendees, organizer, locals, first, fault), attendees, organizer, locals, now).rows
         == HandledAll(e, attendees, organizer, locals, now).rows
  {
    var mid := EffectsOf(e, attendees, organizer, locals, first, fault);
    var part := if Stops(fault, attendees, organizer) then attendees[..fault.at] else attendees;
    var a := HandledAll(mid, attendees, organizer, locals, now).rows;
    var b := HandledAll(e, attendees, organizer, locals, now).rows;
    forall address ensures (address in a <==> address in b) && (address in a ==> a[address] == b[address]) {
      RowsOfInvited(mid, attendees, organizer, locals, now, address);
      RowsOfInvited(e, attendees, organizer, locals, now, address);
      RowsOfInvited(e, part, organizer, locals, first, address);
      if Invited(part, organizer, address) {
        var i :| 0 <= i < |part| && !IsOrganizer(part[i], organizer) && Normalized(part[i].email) == address;
        assert part[i] == attendees[i];
      }
    }
  }

  /** A pass that fails has done what a pass over the attendees before the failure
      does; if it is a row that could not be written, its delivery is made as well. */
  lemma {:induction false} FailedPassDid(e: Effects, attendees: seq<Attendee>, organizer: string, locals: set<string>, now: int, fault: Fault)
    requires Stops(fault, attendees, organizer)
    ensures var done, before := EffectsOf(e, attendees, organizer, locals, now, fault), HandledAll(e, attendees[..fault.at], organizer, locals, now);
      var through := HandledAll(e, attendees[..fault.at + 1], organizer, locals, now);
      && done.rows == before.rows
      && done.delivered == (if fault.RowFails? then through else before).delivered
      && done.queued == (if fault.RowFails? then through else before).queued
  {
    PassStep(e, attendees, fault.at, organizer, locals, now);
  }

  // ----- Annotation is invisible to attendees -----

  lemma {:induction false} AnnotationStripped(event: Component, statuses: map<string, string>)
    ensures ClonedEvent(AnnotatedEvent(event, statuses)) == ClonedEvent(event)
  {
    if ATTENDEE in event.props {
      var ps := event.props[ATTENDEE];
      forall i | 0 <= i < |ps| ensures AnnotatedProp(ps[i], statuses).params - SERVER_PARAMS == ps[i].params - SERVER_PARAMS {}
      assert Stripped(AnnotatedProps(ps, statuses)) == Stripped(ps);
    }
  }

  lemma {:induction false} EventsReplaced(children: seq<Component>, i: nat, c: Component)
    requires i < |children| && children[i].name == VEVENT && c.name == VEVENT
    requires ClonedEvent(c) == ClonedEvent(children[i])
    ensures ClonedEvents(Events(children[i := c])) == ClonedEvents(Events(children))
  {
    var n := |children| - 1;
    var edited := children[i := c];
    if i == n {
      assert edited[..n] == children[..n];
    } else {
      EventsReplaced(children[..n], i, c);
      assert edited[..n] == children[..n][i := c];
    }
    ClonedLast(edited);
    ClonedLast(children);
  }

  lemma {:induction false} ClonedLast(children: seq<Component>)
    requires children != []
    ensures var n := |children| - 1; var before := ClonedEvents(Events(children[..n]));
      ClonedEvents(Events(children)) == if children[n].name == VEVENT then before + [ClonedEvent(children[n])] else before
  {
    var n := |children| - 1;
    ClonedSnoc(Events(children[..n]), children[n]);
    if children[n].name != VEVENT { assert Events(children) == Events(children[..n]); }
  }

  lemma {:induction false} ClonedSnoc(events: seq<Component>, c: Component)
    ensures ClonedEvents(events + [c]) == ClonedEvents(events) + [ClonedEvent(c)]
  {}

  /** Whatever delivery outcomes are written into the stored event, invitations
      built from it are unchanged. */
  lemma {:induction false} AnnotationInvisible(cal: Component, statuses: map<string, string>, zones: ZoneDb)
    ensures Request(Annotated(cal, statuses), zones) == Request(cal, zones)
  {
    var i := MasterIndex(cal.children);
    if i < |cal.children| {
      AnnotationStripped(cal.children[i], statuses);
      EventsReplaced(cal.children, i, AnnotatedEvent(cal.children[i], statuses));
    }
  }

  lemma {:induction false} AnnotationIdempotent(event: Component, statuses: map<string, string>)
    ensures AnnotatedEvent(AnnotatedEvent(event, statuses), statuses) == AnnotatedEvent(event, statuses)
  {
    if ATTENDEE in event.props {
      var ps := event.props[ATTENDEE];
      forall i | 0 <= i < |ps| ensures AnnotatedProp(AnnotatedProp(ps[i], statuses), statuses) == AnnotatedProp(ps[i], statuses) {
        var once := AnnotatedProp(ps[i], statuses);
        assert AnnotatedProp(once, statuses).params == once.params;
      }
      assert AnnotatedProps(AnnotatedProps(ps, statuses), statuses) == AnnotatedProps(ps, statuses);
      var once := AnnotatedEvent(event, statuses);
      assert once.props[ATTENDEE := AnnotatedProps(ps, statuses)] == once.props;
    }
  }

  /** The annotated event has the attendees, position and outcomes of the original. */
  lemma {:induction false} AnnotationKeepsAttendees(cal: Component, statuses: map<string, string>)
    requires MasterIndex(cal.children) < |cal.children|
    ensures var i := MasterIndex(cal.children); var once := Annotated(cal, statuses);
      && |once.children| == |cal.children| && MasterIndex(once.children) == i
      && once.children[i] == AnnotatedEvent(cal.children[i], statuses)
      && Attendees(AllOf(once.children[i].props, ATTENDEE)) == Attendees(AllOf(cal.children[i].props, ATTENDEE))
  {
    var i := MasterIndex(cal.children);
    var event := cal.children[i];
    MasterKept(cal.children, i, AnnotatedEvent(event, statuses));
    AttendeesKept(AllOf(event.props, ATTENDEE), statuses);
  }

  /** Scheduling pass after scheduling pass: the second finds the same attendees
      and outcomes and writes the same event. */
  lemma {:induction false} OnPutIdempotent(cal: Component, organizer: string, locals: set<string>)
    ensures AfterOnPut(AfterOnPut(cal, organizer, locals), organizer, locals) == AfterOnPut(cal, organizer, locals)
  {
    var i := MasterIndex(cal.children);
    if i < |cal.children| {
      var statuses := Statuses(Attendees(AllOf(cal.children[i].props, ATTENDEE)), organizer, locals);
      var once := Annotated(cal, statuses);
      AnnotationKeepsAttendees(cal, statuses);
      AnnotationIdempotent(cal.children[i], statuses);
      assert once.children[i := AnnotatedEvent(once.children[i], statuses)] == once.children;
    }
  }

  /** The invitation built after a scheduling pass is the one built before it. */
  lemma {:induction false} OnPutInvisible(cal: Component, organizer: string, locals: set<string>, zones: ZoneDb)
    ensures Request(AfterOnPut(cal, organizer, locals), zones) == Request(cal, zones)
  {
    var i := MasterIndex(cal.children);
    if i < |cal.children| {
      AnnotationInvisible(cal, Statuses(Attendees(AllOf(cal.children[i].props, ATTENDEE)), organizer, locals), zones);
    }
  }

  lemma {:induction false} AttendeesKept(ps: seq<Prop>, statuses: map<string, string>)
    ensures Attendees(AnnotatedProps(ps, statuses)) == Attendees(ps)
  {
    if ps != [] {
      var n := |ps| - 1;
      AttendeesKept(ps[..n], statuses);
      assert AnnotatedProps(ps, statuses)[..n] == AnnotatedProps(ps[..n], statuses);
    }
  }

  lemma {:induction false} FirstEventKept(children: seq<Component>, i: nat, c: Component, needMaster: bool, from: nat)
    requires i < |children| && from <= |children|
    requires c.name == children[i].name && Has(c, RECURRENCE_ID) == Has(children[i], RECURRENCE_ID)
    ensures FirstEvent(children[i := c], needMaster, from) == FirstEvent(children, needMaster, from)
    decreases |children| - from
  {
    if from < |children| { FirstEventKept(children, i, c, needMaster, from + 1); }
  }

  lemma {:induction false} MasterKept(children: seq<Component>, i: nat, c: Component)
    requires i < |children| && c.name == children[i].name && Has(c, RECURRENCE_ID) == Has(children[i], RECURRENCE_ID)
    ensures MasterIndex(children[i := c]) == MasterIndex(children)
  {
    FirstEventKept(children, i, c, true, 0);
    FirstEventKept(children, i, c, false, 0);
  }
}
