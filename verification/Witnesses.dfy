/** Concrete inputs on which the view filter, the occurrence index and the
    scheduler miss their promise: why the theorems carry the conditions they do. */
module Witnesses {
  import opened Components
  import opened Texts
  import opened Instants
  import opened ViewRules
  import opened Timezones
  import opened ViewFilter
  import opened ViewMeaning
  import opened ViewCalendar
  import opened OccurrenceIndex
  import Scheduling

  // ----- A small world -----

  const YEAR := 365 * 24 * HOUR

  const MIDNIGHT := "20260101T000000"
  const ONE := "20260101T010000"

  const LONDON := "Europe/London"
  const PARIS := "Europe/Paris"

  /** Paris is an hour ahead of London: one o'clock there is midnight here. */
  function ReadLocal(raw: string, zone: Zone): Option<int> {
    var ahead := if zone == Iana(PARIS) then HOUR else 0;
    if raw == MIDNIGHT then Some(-ahead) else if raw == ONE then Some(HOUR - ahead) else None
  }

  function Load(tzid: string): Option<Zone> {
    if tzid == LONDON || tzid == PARIS then Some(Iana(tzid)) else None
  }

  function NoDate(raw: string, zone: Zone): Option<int> { None }

  function NoUtc(raw: string): Option<int> { None }

  function HundredYears(m: Moment): int { m.at + 100 * YEAR }

  const SAMPLE: Calendrics := Calendrics(Load, NoDate, NoUtc, ReadLocal, HundredYears)

  /** Every rule generates the start and one more instant, a fixed gap later. */
  function Twice(gap: nat): (e: RuleEngine) {
    RuleEngine(
      (start: Moment, rule: string, t: int) => t == start.at || t == start.at + gap,
      (start: Moment, rule: string, lo: int, hi: int) => Some(Between(start.at, start.at + gap, lo, hi)))
  }

  function Between(a: int, b: int, lo: int, hi: int): seq<int> {
    (if lo <= a <= hi then [a] else []) + (if a != b && lo <= b <= hi then [b] else [])
  }

  lemma {:induction false} TwiceFaithful(gap: nat)
    ensures FaithfulEngine(Twice(gap))
  {
    var e := Twice(gap);
    forall start: Moment, rule: string, lo: int, hi: int
      ensures e.between(start, rule, lo, hi) == Some(Between(start.at, start.at + gap, lo, hi))
      ensures Ascending(Between(start.at, start.at + gap, lo, hi))
    {}
    forall start: Moment, rule: string, t: int
      ensures e.occurs(start, rule, t) <==> t == start.at || t == start.at + gap
    {}
    forall a: int, b: int, lo: int, hi: int, t: int
      ensures t in Between(a, b, lo, hi) <==> lo <= t <= hi && (t == a || t == b)
    {}
  }

  ghost predicate OccursTwice(e: RuleEngine, gap: nat) {
    && (forall start, rule, t :: e.occurs(start, rule, t) <==> t == start.at || t == start.at + gap)
    && (forall start, rule, lo, hi :: e.between(start, rule, lo, hi).Some?)
  }

  lemma {:induction false} TwiceEngine(gap: nat) returns (e: RuleEngine)
    ensures FaithfulEngine(e) && OccursTwice(e, gap)
  {
    e := Twice(gap);
    TwiceFaithful(gap);
  }

  // ----- An override written in another zone -----

  const MASTER := Component(VEVENT, map[
    "UID" := [TextProp("UID", "u")],
    "DTSTART" := [Prop("DTSTART", map["TZID" := [LONDON]], MIDNIGHT)],
    "RRULE" := [TextProp("RRULE", "FREQ=HOURLY;COUNT=2")]], [])

  const CANCELLED := Component(VEVENT, map[
    "UID" := [TextProp("UID", "u")],
    "RECURRENCE-ID" := [Prop("RECURRENCE-ID", map["TZID" := [PARIS]], ONE)],
    "STATUS" := [TextProp("STATUS", "CANCELLED")]], [])

  const PLAIN_VIEW := Spec("full", "", false, false, false, false, map[])

  lemma {:induction false} StampsRead()
    ensures IsStamp(ONE) && 'T' in ONE && 'T' in MIDNIGHT
    ensures ReadStamp(SAMPLE, MIDNIGHT, Iana(LONDON)) == Some(0) && ReadStamp(SAMPLE, ONE, Iana(LONDON)) == Some(HOUR)
    ensures ReadStamp(SAMPLE, ONE, Iana(PARIS)) == Some(0)
  {
    assert MIDNIGHT[8] == 'T' && ONE[8] == 'T';
    assert MIDNIGHT[10] != ONE[10];
  }

  lemma {:induction false} MasterReads()
    ensures StartOf(SAMPLE, MASTER) == Some(Moment(0, Iana(LONDON))) && TzidOf(MASTER, "DTSTART") == LONDON
    ensures ExdateInstants(SAMPLE, MASTER, Iana(LONDON)) == []
  {
    StampsRead();
  }

  lemma {:induction false} MasterHas()
    ensures !Has(MASTER, RECURRENCE_ID) && Has(MASTER, "RRULE") && ValueOf(MASTER, "UID") == "u"
    ensures !Dropped(MASTER, PLAIN_VIEW)
  {}

  lemma {:induction false} CancelledHas()
    ensures Dropped(CANCELLED, PLAIN_VIEW) && Has(CANCELLED, RECURRENCE_ID) && ValueOf(CANCELLED, "UID") == "u"
    ensures ValueOf(CANCELLED, RECURRENCE_ID) == ONE && TzidOf(CANCELLED, RECURRENCE_ID) == PARIS
  {
    assert ValueOf(CANCELLED, "STATUS") == "CANCELLED";
  }

  lemma {:induction false} CancelledReads()
    ensures Slot(SAMPLE, CANCELLED, Iana(LONDON)) == Some(0)
    ensures ReadExdate(SAMPLE, Exdate(CANCELLED, LONDON), Iana(LONDON)) == [HOUR]
  {
    StampsRead();
    CancelledHas();
    ExdateOfOne(Exdate(CANCELLED, LONDON));
  }

  lemma {:induction false} ExdateOfOne(ex: Prop)
    requires ex.value == ONE && Param(ex, "TZID") == LONDON
    ensures ReadExdate(SAMPLE, ex, Iana(LONDON)) == [HOUR]
  {
    StampsRead();
    StampExdate(SAMPLE, ex, Iana(LONDON));
  }

  lemma {:induction false} PairIsSeries(m: Component, ov: Component, uid: string)
    requires m.name == VEVENT && ov.name == VEVENT && ValueOf(m, "UID") == uid && ValueOf(ov, "UID") == uid
    requires Has(ov, RECURRENCE_ID)
    ensures OneSeries([m, ov], uid)
  {}

  lemma {:induction false} BothGenerated()
    ensures var w := World(SAMPLE, Twice(HOUR)); Generates(w, MASTER, 0) && Generates(w, MASTER, HOUR)
    ensures HomeZone(SAMPLE, MASTER) == Iana(LONDON)
  {
    MasterReads();
  }

  /** A series at midnight and one o'clock in London, whose midnight instance is
      cancelled under its Paris name. The copied EXDATE erases one o'clock: the
      cancelled instance stays visible and the other one is lost. */
  lemma {:induction false} MisreadOverride()
    ensures FaithfulEngine(Twice(HOUR)) && OneSeries([MASTER, CANCELLED], "u") && Unmanaged(Effective(PLAIN_VIEW))
    ensures var w, comps, rules := World(SAMPLE, Twice(HOUR)), [MASTER, CANCELLED], Effective(PLAIN_VIEW);
      var out, face := FilteredSeries(comps, rules, PLAIN_VIEW), Face(Filtered(MASTER, rules, BusyLabel(PLAIN_VIEW)));
      && Seen(w, out, Instance(0, face)) && !Permitted(w, comps, rules, PLAIN_VIEW, Instance(0, face))
      && !Seen(w, out, Instance(HOUR, face)) && Permitted(w, comps, rules, PLAIN_VIEW, Instance(HOUR, face))
  {
    TwiceFaithful(HOUR);
    BothGenerated();
    CancelledHas();
    CancelledReads();
    MasterReads();
    MasterHas();
    PairIsSeries(MASTER, CANCELLED, "u");
    ManagedUnmanaged(PLAIN_VIEW);
    MisreadHides(World(SAMPLE, Twice(HOUR)), MASTER, CANCELLED, "u", Effective(PLAIN_VIEW), PLAIN_VIEW, 0, HOUR);
  }

  // ----- A series longer than a hundred years -----

  const RULE := "COUNT=2;FREQ=YEARLY;INTERVAL=150"

  const LONG := Component(VEVENT, map[
    "UID" := [TextProp("UID", "u")],
    "DTSTART" := [Prop("DTSTART", map["TZID" := [LONDON]], MIDNIGHT)],
    "RRULE" := [TextProp("RRULE", RULE)]], [])

  lemma {:induction false} RuleIsBounded()
    ensures IsBounded(RULE)
  {
    assert Upper(RULE)[..6] == "COUNT=";
    assert Mentions(Upper(RULE), "COUNT=");
  }

  /** What the index reads of a lone event with a rule. */
  predicate Reads(k: Calendrics, c: Component, start: Moment, rule: string) {
    && c.name == VEVENT && !Has(c, RECURRENCE_ID) && ValueOf(c, "UID") != ""
    && StartOf(k, c) == Some(start) && DurationOf(k, c, start.at) == 0
    && ValueOf(c, "RRULE") == rule && ExdateInstants(k, c, start.zone) == []
  }

  lemma {:induction false} LongReads()
    ensures Reads(SAMPLE, LONG, Moment(0, Iana(LONDON)), RULE)
  {
    StampsRead();
  }

  lemma {:induction false} LongEvent() returns (k: Calendrics, c: Component, start: Moment, rule: string)
    ensures Reads(k, c, start, rule) && rule != "" && IsBounded(rule)
    ensures k.centuryAfter(start) == start.at + 100 * YEAR
  {
    k, c, start, rule := SAMPLE, LONG, Moment(0, Iana(LONDON)), RULE;
    LongReads();
    RuleIsBounded();
  }

  lemma {:induction false} OneTimed(c: Component)
    requires c.name == VEVENT
    ensures Timed([c]) == [c]
    ensures !Has(c, RECURRENCE_ID) ==> Lead([c]) == c
  {
    assert Timed([c][..0]) == [] && Master([c][..0]) == None;
  }

  ghost predicate OnlyTwo(k: Calendrics, e: RuleEngine, cal: Component, start: Moment, t: int)
    requires Timed(cal.children) != []
  {
    forall u :: Free(k, e, cal, start, u) <==> u == start.at || u == t
  }

  lemma {:induction false} OneEventParsed(k: Calendrics, e: RuleEngine, c: Component)
    requires c.name == VEVENT && ValueOf(c, "UID") != ""
    ensures ParseCalendar(k, e, Component(VCALENDAR, map[], [c])).Ok?
  {
    OneTimed(c);
    ParseAcceptsOneSeries(k, e, Component(VCALENDAR, map[], [c]));
  }

  lemma {:induction false} OneEventSpan(k: Calendrics, c: Component, start: Moment, rule: string)
    requires Reads(k, c, start, rule)
    ensures var cal := Component(VCALENDAR, map[], [c]); HasSpan(k, cal, start, 0) && RuleOf(cal) == rule
  {
    OneTimed(c);
  }

  lemma {:induction false} OneEventTwice(k: Calendrics, e: RuleEngine, c: Component, start: Moment, rule: string, gap: nat)
    requires Reads(k, c, start, rule) && OccursTwice(e, gap)
    ensures var cal := Component(VCALENDAR, map[], [c]); Timed(cal.children) != [] && OnlyTwo(k, e, cal, start, start.at + gap)
  {
    OneTimed(c);
  }

  /** A bounded series of events without length that occurs at its start and once
      more, past its first hundred years. */
  ghost predicate OutlastsCentury(k: Calendrics, e: RuleEngine, cal: Component, start: Moment, t: int) {
    && IsBoundedSeries(k, e, cal, start, 0) && start.at < k.centuryAfter(start) <= t
    && OnlyTwo(k, e, cal, start, t)
  }

  lemma {:induction false} SecondPruned(k: Calendrics, e: RuleEngine, cal: Component, start: Moment, t: int)
    requires FaithfulEngine(e) && OutlastsCentury(k, e, cal, start, t)
    ensures Occurs(k, e, cal, t) && !KeptForStarts(k, e, cal, ParseCalendar(k, e, cal).parsed)
  {
    LatestIs(k, e, cal, start, start.at);
    LaterPruned(k, e, cal, start, 0, start.at, t);
  }

  lemma {:induction false} EventOutlasts(k: Calendrics, e: RuleEngine, c: Component, start: Moment, rule: string, gap: nat)
    requires Reads(k, c, start, rule) && rule != "" && IsBounded(rule) && OccursTwice(e, gap)
    requires start.at < k.centuryAfter(start) <= start.at + gap
    ensures OutlastsCentury(k, e, Component(VCALENDAR, map[], [c]), start, start.at + gap)
  {
    OneEventParsed(k, e, c);
    OneEventSpan(k, c, start, rule);
    OneEventTwice(k, e, c, start, rule, gap);
  }

  lemma {:induction false} LongOutlasts(e: RuleEngine) returns (k: Calendrics, cal: Component, start: Moment, t: int)
    requires OccursTwice(e, 150 * YEAR)
    ensures OutlastsCentury(k, e, cal, start, t)
  {
    var c, rule;
    k, c, start, rule := LongEvent();
    EventOutlasts(k, e, c, start, rule, 150 * YEAR);
    cal, t := Component(VCALENDAR, map[], [c]), start.at + 150 * YEAR;
  }

  lemma {:induction false} LongSeries() returns (k: Calendrics, e: RuleEngine, cal: Component, start: Moment, t: int)
    ensures FaithfulEngine(e) && OutlastsCentury(k, e, cal, start, t)
  {
    e := TwiceEngine(150 * YEAR);
    k, cal, start, t := LongOutlasts(e);
  }

  /** A bounded series that is pruned for a window in which it occurs: an event of
      no length that comes a second time 150 years on. */
  lemma {:induction false} PastCenturyPruned() returns (k: Calendrics, e: RuleEngine, cal: Component, start: Moment, t: int)
    ensures FaithfulEngine(e) && OutlastsCentury(k, e, cal, start, t)
    ensures Occurs(k, e, cal, t) && !KeptForStarts(k, e, cal, ParseCalendar(k, e, cal).parsed)
  {
    k, e, cal, start, t := LongSeries();
    SecondPruned(k, e, cal, start, t);
  }

  // ----- An event that ends before it starts -----

  const BACKWARDS := Component(VEVENT, map[
    "UID" := [TextProp("UID", "u")],
    "DTSTART" := [Prop("DTSTART", map["TZID" := [LONDON]], ONE)],
    "DTEND" := [Prop("DTEND", map["TZID" := [LONDON]], MIDNIGHT)]], [])

  lemma {:induction false} BackwardsReads()
    ensures !Has(BACKWARDS, RECURRENCE_ID) && ValueOf(BACKWARDS, "UID") == "u" && ValueOf(BACKWARDS, "RRULE") == ""
    ensures StartOf(SAMPLE, BACKWARDS) == Some(Moment(HOUR, Iana(LONDON))) && DurationOf(SAMPLE, BACKWARDS, HOUR) == -HOUR
  {
    StampsRead();
  }

  lemma {:induction false} BackwardsEvent() returns (k: Calendrics, c: Component, start: Moment)
    ensures c.name == VEVENT && !Has(c, RECURRENCE_ID) && ValueOf(c, "UID") != "" && ValueOf(c, "RRULE") == ""
    ensures StartOf(k, c) == Some(start) && DurationOf(k, c, start.at) < 0
  {
    BackwardsReads();
    k, c, start := SAMPLE, BACKWARDS, Moment(HOUR, Iana(LONDON));
  }

  /** An event from one o'clock to midnight of the same day is pruned for a window
      in which it starts. */
  lemma {:induction false} BackwardsPruned(e: RuleEngine) returns (k: Calendrics, cal: Component, start: Moment, dur: int)
    ensures ParseCalendar(k, e, cal).Ok? && HasSpan(k, cal, start, dur) && dur < 0
    ensures !KeptAtStart(ParseCalendar(k, e, cal).parsed, start.at)
  {
    var c;
    k, c, start := BackwardsEvent();
    cal, dur := Component(VCALENDAR, map[], [c]), DurationOf(k, c, start.at);
    OneTimed(c);
    OneEventParsed(k, e, c);
    SingleKeptIff(k, e, cal, start, dur);
  }

  // ----- Statuses that the event and the row say differently -----

  const HOST := "o@x.org"
  const GUEST := "a@x.org"

  function Line(params: Params): Prop {
    Prop("ATTENDEE", params, "mailto:" + GUEST)
  }

  /** Managed by the client now, with the status of an earlier delivery. */
  const STALE := Line(map["SCHEDULE-AGENT" := ["CLIENT"], "SCHEDULE-STATUS" := ["1.1"]])
  const SERVED := Line(map[])
  const CLIENT := Line(map["SCHEDULE-AGENT" := ["CLIENT"]])

  function Invitation(lines: seq<Prop>): Component {
    Component(VCALENDAR, map[], [Component(VEVENT, map["ATTENDEE" := lines], [])])
  }

  lemma {:induction false} GuestReads(params: Params)
    ensures Scheduling.MailtoAddress(Line(params).value) == GUEST && Scheduling.Normalized(GUEST) == GUEST
    ensures Scheduling.Normalized(HOST) == HOST && GUEST != HOST
  {
    Scheduling.MailtoReads(GUEST);
    assert GUEST[0] != HOST[0];
  }

  lemma {:induction false} InvitationLines(lines: seq<Prop>)
    ensures Scheduling.MasterLines(Invitation(lines)) == lines
  {}

  lemma {:induction false} ClientReads()
    ensures Param(STALE, "SCHEDULE-AGENT") == "CLIENT" && Param(STALE, "SCHEDULE-STATUS") == "1.1"
    ensures Param(CLIENT, "SCHEDULE-AGENT") == "CLIENT" && Param(SERVED, "SCHEDULE-AGENT") == ""
    ensures !Scheduling.Delivers("CLIENT") && Scheduling.Delivers("")
  {
    assert Lower("CLIENT")[0] == 'c';
  }

  /** An attendee line for an address in normal form that is not the organizer's. */
  predicate ForGuest(line: Prop, organizer: string, address: string) {
    Scheduling.MailtoAddress(line.value) == address && address != "" && Scheduling.Normalized(address) == address
    && Scheduling.Normalized(organizer) != address
  }

  function GuestOf(line: Prop, address: string): Scheduling.Attendee {
    Scheduling.Attendee(address, Param(line, "CN"), Param(line, "ROLE"), Param(line, "PARTSTAT"), Param(line, "SCHEDULE-AGENT"))
  }

  lemma {:induction false} OneGuest(line: Prop, organizer: string, address: string)
    requires ForGuest(line, organizer, address)
    ensures Scheduling.Attendees([line]) == [GuestOf(line, address)]
  {
    assert [line][..0] == [];
  }

  lemma {:induction false} TwoGuests(a: Prop, b: Prop, organizer: string, address: string)
    requires ForGuest(a, organizer, address) && ForGuest(b, organizer, address)
    ensures Scheduling.Attendees([a, b]) == [GuestOf(a, address), GuestOf(b, address)]
  {
    OneGuest(a, organizer, address);
    assert [a, b][..1] == [a];
  }

  /** A pass that leaves the line that stood at j and the attendee's row with different statuses. */
  ghost predicate Disagrees(e: Scheduling.Effects, cal: Component, organizer: string, locals: set<string>, now: int, j: nat,
    address: string, onLine: string, inRow: string)
  {
    var out := Scheduling.MasterLines(Scheduling.AfterOnPut(cal, organizer, locals));
    var rows := Scheduling.HandledAll(e, Scheduling.AttendeesOf(cal), organizer, locals, now).rows;
    && j < |out| && address in rows && onLine != inRow
    && Param(out[j], "SCHEDULE-STATUS") == onLine && rows[address].scheduleStatus == inRow
  }

  lemma {:induction false} ClientLine(e: Scheduling.Effects, cal: Component, line: Prop, organizer: string, address: string, locals: set<string>, now: int)
    requires Scheduling.MasterLines(cal) == [line] && ForGuest(line, organizer, address)
    requires !Scheduling.Delivers(Param(line, "SCHEDULE-AGENT")) && Param(line, "SCHEDULE-STATUS") != ""
    ensures Disagrees(e, cal, organizer, locals, now, 0, address, Param(line, "SCHEDULE-STATUS"), "")
  {
    var attendees := Scheduling.AttendeesOf(cal);
    OneGuest(line, organizer, address);
    assert attendees[0] == GuestOf(line, address) && attendees[..0] == [];
    assert Scheduling.Invited(attendees, organizer, address);
    Scheduling.LineStatus(cal, organizer, locals, 0);
    Scheduling.RowStatus(e, attendees, organizer, locals, now, address);
  }

  lemma {:induction false} ClientAfterServer(e: Scheduling.Effects, cal: Component, a: Prop, b: Prop, organizer: string, address: string, locals: set<string>, now: int)
    requires Scheduling.MasterLines(cal) == [a, b] && ForGuest(a, organizer, address) && ForGuest(b, organizer, address)
    requires Scheduling.Delivers(Param(a, "SCHEDULE-AGENT")) && !Scheduling.Delivers(Param(b, "SCHEDULE-AGENT")) && address !in locals
    ensures Disagrees(e, cal, organizer, locals, now, 0, address, "1.1", "")
  {
    var attendees := Scheduling.AttendeesOf(cal);
    TwoGuests(a, b, organizer, address);
    assert attendees[1] == GuestOf(b, address) && attendees[..1] == [GuestOf(a, address)] && attendees[..1][..0] == [];
    assert Scheduling.Asked(attendees, organizer, address) == Scheduling.Asked(attendees[..1], organizer, address);
    assert Scheduling.Invited(attendees, organizer, address);
    Scheduling.LineStatus(cal, organizer, locals, 0);
    Scheduling.RowStatus(e, attendees, organizer, locals, now, address);
  }

  /** A client took over an attendee whose line carries the status of an earlier
      delivery: the line keeps it, the row says nothing. */
  lemma {:induction false} StaleStatusStays(e: Scheduling.Effects, locals: set<string>, now: int)
    ensures Disagrees(e, Invitation([STALE]), HOST, locals, now, 0, GUEST, "1.1", "")
  {
    GuestReads(STALE.params);
    InvitationLines([STALE]);
    ClientReads();
    ClientLine(e, Invitation([STALE]), STALE, HOST, GUEST, locals, now);
  }

  /** A guest listed twice, for the server and then for the client: the lines say
      that mail was queued, the row says nothing. */
  lemma {:induction false} LastLineManaged(e: Scheduling.Effects, locals: set<string>, now: int)
    requires GUEST !in locals
    ensures Disagrees(e, Invitation([SERVED, CLIENT]), HOST, locals, now, 0, GUEST, "1.1", "")
  {
    GuestReads(SERVED.params);
    GuestReads(CLIENT.params);
    InvitationLines([SERVED, CLIENT]);
    ClientReads();
    ClientAfterServer(e, Invitation([SERVED, CLIENT]), SERVED, CLIENT, HOST, GUEST, locals, now);
  }
}
