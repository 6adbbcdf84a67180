/** REPLY messages: building them (internal/scheduling/itip.go), applying those
    that arrive (internal/imip/reply.go), once per Message-ID
    (internal/imip/receiver.go), and the local response they must agree with. */
module Replies {
  import opened Components
  import opened Texts
  import opened Timezones
  import opened Scheduling

  // ----- Building -----

  /** The matching ATTENDEE lines with their new participation status. */
  function Kept(ps: seq<Prop>, email: string, partstat: string): seq<Prop>
    decreases |ps|
  {
    if ps == [] then []
    else
      var n := |ps| - 1;
      Kept(ps[..n], email, partstat) +
      if MailtoAddress(ps[n].value) == MailtoAddress("mailto:" + email)
      then [ps[n].(params := ps[n].params["PARTSTAT" := [partstat]])] else []
  }

  function ReplyEvent(event: Component, email: string, partstat: string): Component {
    var kept := Kept(AllOf(event.props, ATTENDEE), email, partstat);
    event.(props := if kept != [] then event.props[ATTENDEE := kept] else event.props - {ATTENDEE})
  }

  function ReplyEvents(events: seq<Component>, email: string, partstat: string): seq<Component> {
    seq(|events|, i requires 0 <= i < |events| => ReplyEvent(events[i], email, partstat))
  }

  ghost function Reply(src: Component, email: string, partstat: string, zones: ZoneDb): Component {
    var clone := Cloned(src, "REPLY");
    Bundle(clone.(children := ReplyEvents(clone.children, email, partstat)), zones)
  }

  method KeepOwn(ps: seq<Prop>, email: string, partstat: string) returns (kept: seq<Prop>)
    ensures kept == Kept(ps, email, partstat)
  {
    kept := [];
    for j := 0 to |ps|
      invariant kept == Kept(ps[..j], email, partstat)
    {
      assert ps[..j + 1][..j] == ps[..j];
      if MailtoAddress(ps[j].value) == MailtoAddress("mailto:" + email) {
        kept := kept + [ps[j].(params := ps[j].params["PARTSTAT" := [partstat]])];
      }
    }
    assert ps[..|ps|] == ps;
  }

  method EditClone(c: Component, email: string, partstat: string) returns (edited: Component)
    ensures edited == ReplyEvent(c, email, partstat)
  {
    var kept := KeepOwn(AllOf(c.props, ATTENDEE), email, partstat);
    if |kept| > 0 {
      edited := c.(props := c.props[ATTENDEE := kept]);
    } else {
      edited := c.(props := c.props - {ATTENDEE});
    }
  }

  method BuildReply(src: Component, email: string, partstat: string, zones: ZoneDb) returns (out: Component)
    ensures out == Reply(src, email, partstat, zones)
  {
    out := CloneCalendar(src, "REPLY");
    var clones := out.children;
    var edited: seq<Component> := [];
    for i := 0 to |clones|
      invariant edited == ReplyEvents(clones[..i], email, partstat)
    {
      var c := EditClone(clones[i], email, partstat);
      edited := edited + [c];
    }
    assert clones[..|clones|] == clones;
    out := BundleTimezones(out.(children := edited), zones);
  }

  // ----- Reading -----

  datatype Outcome = AppliedReply | NoMatch | MalformedReply

  datatype Reading = Reading(uid: string, email: string, partstat: string)

  function FirstVevent(children: seq<Component>): Option<Component> {
    if children == [] then None
    else if children[0].name == VEVENT then Some(children[0])
    else FirstVevent(children[1..])
  }

  /** What a decoded message says, if it is a well-formed REPLY. */
  function ReadReply(cal: Component): Option<Reading> {
    if Upper(ValueOf(cal, "METHOD")) != "REPLY" then None
    else
      match FirstVevent(cal.children)
      case None => None
      case Some(event) =>
        var uid := ValueOf(event, "UID");
        var email := MailtoAddress(ValueOf(event, ATTENDEE));
        var partstat := match Get(event.props, ATTENDEE) case Some(p) => Param(p, "PARTSTAT") case None => "";
        if uid == "" || email == "" || partstat == "" then None else Some(Reading(uid, email, partstat))
  }

  predicate Own(p: Prop, email: string) {
    MailtoAddress(p.value) == Normalized(email)
  }

  predicate Listed(ps: seq<Prop>, email: string) {
    exists i :: 0 <= i < |ps| && Own(ps[i], email)
  }

  lemma {:induction false} ListedSnoc(ps: seq<Prop>, last: Prop, email: string)
    ensures Listed(ps + [last], email) <==> Listed(ps, email) || Own(last, email)
  {
    var all := ps + [last];
    assert forall i :: 0 <= i < |ps| ==> all[i] == ps[i];
    assert all[|ps|] == last;
  }

  lemma {:induction false} KeptListed(ps: seq<Prop>, email: string, partstat: string)
    ensures Kept(ps, email, partstat) != [] <==> Listed(ps, email)
  {
    if ps != [] {
      var n := |ps| - 1;
      MailtoReads(email);
      KeptListed(ps[..n], email, partstat);
      ListedSnoc(ps[..n], ps[n], email);
      assert ps == ps[..n] + [ps[n]];
    }
  }

  lemma {:induction false} KeptEach(ps: seq<Prop>, email: string, partstat: string, i: nat)
    requires i < |Kept(ps, email, partstat)|
    ensures var p := Kept(ps, email, partstat)[i]; Own(p, email) && Param(p, "PARTSTAT") == partstat
  {
    var n := |ps| - 1;
    MailtoReads(email);
    if i < |Kept(ps[..n], email, partstat)| {
      KeptEach(ps[..n], email, partstat, i);
    }
  }

  lemma {:induction false} FirstVeventBehind(zones: seq<Component>, events: seq<Component>)
    requires forall i :: 0 <= i < |zones| ==> zones[i].name != VEVENT
    requires events != [] ==> events[0].name == VEVENT
    ensures FirstVevent(zones + events) == if events == [] then None else Some(events[0])
  {
    if zones == [] {
      assert zones + events == events;
    } else {
      assert (zones + events)[1..] == zones[1..] + events;
      FirstVeventBehind(zones[1..], events);
    }
  }

  lemma {:induction false} StrippedSame(ps: seq<Prop>, email: string)
    ensures Listed(Stripped(ps), email) <==> Listed(ps, email)
  {
    forall i | 0 <= i < |ps| ensures Stripped(ps)[i].value == ps[i].value {}
    if Listed(ps, email) {
      var i :| 0 <= i < |ps| && MailtoAddress(ps[i].value) == Normalized(email);
      assert MailtoAddress(Stripped(ps)[i].value) == Normalized(email);
    }
  }

  lemma {:induction false} ReplyEventReads(event: Component, email: string, partstat: string)
    ensures var r := ReplyEvent(ClonedEvent(event), email, partstat);
      && ValueOf(r, "UID") == ValueOf(event, "UID")
      && Has(r, ATTENDEE) == Listed(AllOf(event.props, ATTENDEE), email)
      && (Has(r, ATTENDEE) ==> MailtoAddress(ValueOf(r, ATTENDEE)) == Normalized(email) &&
                               Param(Get(r.props, ATTENDEE).value, "PARTSTAT") == partstat)
  {
    var clone := ClonedEvent(event);
    var ps := AllOf(clone.props, ATTENDEE);
    assert ps == Stripped(AllOf(event.props, ATTENDEE));
    StrippedSame(AllOf(event.props, ATTENDEE), email);
    KeptListed(ps, email, partstat);
    if Kept(ps, email, partstat) != [] { KeptEach(ps, email, partstat, 0); }
  }

  lemma {:induction false} BlankAddress()
    ensures MailtoAddress("") == ""
  {}

  /** The first event of a built REPLY is the clone of the source's first event
      with only the replying attendee left. */
  lemma {:induction false} ReplyShape(src: Component, email: string, partstat: string, zones: ZoneDb)
    requires WellFormedZones(zones) && Events(src.children) != []
    ensures var r := Reply(src, email, partstat, zones);
      && FirstVevent(r.children) == Some(ReplyEvent(ClonedEvent(Events(src.children)[0]), email, partstat))
      && ValueOf(r, "METHOD") == "REPLY"
  {
    var replies := ReplyEvents(ClonedEvents(Events(src.children)), email, partstat);
    var plain := Cloned(src, "REPLY").(children := replies);
    var injected := Injected(replies, zones);
    forall i | 0 <= i < |injected| ensures injected[i].name != VEVENT { assert injected[i] in injected; }
    FirstVeventBehind(injected, replies);
    assert Reply(src, email, partstat, zones).props == MessageHeader("REPLY");
  }

  lemma {:induction false} FirstReads(cal: Component, event: Component, uid: string, address: string, partstat: string)
    requires ValueOf(cal, "METHOD") == "REPLY" && FirstVevent(cal.children) == Some(event) && ValueOf(event, "UID") == uid
    requires Has(event, ATTENDEE) ==>
      MailtoAddress(ValueOf(event, ATTENDEE)) == address && Param(Get(event.props, ATTENDEE).value, "PARTSTAT") == partstat
    ensures var reading := ReadReply(cal);
      && (reading.Some? <==> uid != "" && address != "" && partstat != "" && Has(event, ATTENDEE))
      && (reading.Some? ==> reading.value == Reading(uid, address, partstat))
  {
    BlankAddress();
    assert Upper("REPLY") == "REPLY";
  }

  /** A built REPLY reads back as the attendee's answer exactly when the event has
      a UID and lists the attendee, and neither address nor status is blank. */
  lemma {:induction false} ReplyReads(src: Component, email: string, partstat: string, zones: ZoneDb)
    requires WellFormedZones(zones) && Events(src.children) != []
    ensures var event := Events(src.children)[0]; var reading := ReadReply(Reply(src, email, partstat, zones));
      && (reading.Some? <==> ValueOf(event, "UID") != "" && Normalized(email) != "" && partstat != "" &&
                             Listed(AllOf(event.props, ATTENDEE), email))
      && (reading.Some? ==> reading.value == Reading(ValueOf(event, "UID"), Normalized(email), partstat))
  {
    var event := Events(src.children)[0];
    ReplyShape(src, email, partstat, zones);
    ReplyEventReads(event, email, partstat);
    FirstReads(Reply(src, email, partstat, zones), ReplyEvent(ClonedEvent(event), email, partstat), ValueOf(event, "UID"),
               Normalized(email), partstat);
  }

  // ----- The tables -----

  datatype StoredObject = StoredObject(id: int, calendarId: int, uid: string, cal: Component)

  datatype InboxRow = InboxRow(body: Component, itipMethod: string, uid: string, originEmail: string, createdAt: int)

  datatype Tables = Tables(
    objects: seq<StoredObject>,
    owners: map<int, int>,
    attendees: map<(int, string), AttendeeRow>,
    inbox: map<(int, string), InboxRow>,
    processed: map<string, (string, Outcome)>)

  /** The first object with that UID, in id order. */
  function ObjectByUid(objects: seq<StoredObject>, uid: string): Option<StoredObject> {
    if objects == [] then None
    else if objects[0].uid == uid then Some(objects[0])
    else ObjectByUid(objects[1..], uid)
  }

  /** UpdateAttendeePartstat: None when there is no such row. */
  function WithPartstat(t: Tables, objectId: int, email: string, partstat: string, now: int): Option<Tables> {
    var key := (objectId, Normalized(email));
    if key !in t.attendees then None
    else Some(t.(attendees := t.attendees[key := t.attendees[key].(partstat := partstat, scheduleStatus := "2.0", updatedAt := now)]))
  }

  function WithInbox(t: Tables, calendarId: int, href: string, row: InboxRow): Tables {
    if calendarId !in t.owners then t else t.(inbox := t.inbox[(t.owners[calendarId], href) := row])
  }

  /** ApplyReply on a message whose calendar part decoded, or did not. */
  function Applied(t: Tables, part: Option<Component>, now: int): (Tables, Outcome, string) {
    match part
    case None => (t, MalformedReply, "")
    case Some(cal) =>
      match ReadReply(cal)
      case None => (t, MalformedReply, ReplyUid(cal))
      case Some(r) =>
        match ObjectByUid(t.objects, r.uid)
        case None => (t, NoMatch, r.uid)
        case Some(o) =>
          match WithPartstat(t, o.id, r.email, r.partstat, now)
          case None => (t, NoMatch, r.uid)
          case Some(t') =>
            (WithInbox(t', o.calendarId, SafeName(r.uid, "reply") + "-reply.ics", InboxRow(cal, "REPLY", r.uid, r.email, now)),
             AppliedReply, r.uid)
  }

  /** The UID reported with a malformed message. */
  function ReplyUid(cal: Component): string {
    if Upper(ValueOf(cal, "METHOD")) != "REPLY" then ""
    else
      match FirstVevent(cal.children)
      case None => ""
      case Some(event) => ValueOf(event, "UID")
  }

  /** RespondLocal: the same record made for an attendee with an account here. */
  ghost function Responded(t: Tables, email: string, uid: string, partstat: string, zones: ZoneDb, now: int): Tables {
    match ObjectByUid(t.objects, uid)
    case None => t
    case Some(o) =>
      var t' := match WithPartstat(t, o.id, email, partstat, now) case Some(u) => u case None => t;
      WithInbox(t', o.calendarId, SafeName(uid, "invite") + "-reply-" + SafeName(email, "invite") + ".ics",
                InboxRow(Reply(o.cal, email, partstat, zones), "REPLY", uid, email, now))
  }

  /** Reply round trip: a REPLY built from the stored event for a listed attendee
      reaches the attendee table exactly as the attendee's local response would,
      and touches no other row of it. */
  lemma {:induction false} ReplyRoundTrip(t: Tables, o: StoredObject, email: string, partstat: string, zones: ZoneDb, now: int)
    requires WellFormedZones(zones) && ObjectByUid(t.objects, o.uid) == Some(o) && o.uid != ""
    requires Events(o.cal.children) != [] && ValueOf(Events(o.cal.children)[0], "UID") == o.uid
    requires Listed(AllOf(Events(o.cal.children)[0].props, ATTENDEE), email) && Normalized(email) != "" && partstat != ""
    ensures var (t', outcome, uid) := Applied(t, Some(Reply(o.cal, email, partstat, zones)), now);
      var key := (o.id, Normalized(email));
      && t'.attendees == Responded(t, email, o.uid, partstat, zones, now).attendees
      && uid == o.uid
      && (outcome == if key in t.attendees then AppliedReply else NoMatch)
      && t'.attendees.Keys == t.attendees.Keys
      && (key in t.attendees ==>
            t'.attendees[key] == t.attendees[key].(partstat := partstat, scheduleStatus := "2.0", updatedAt := now))
      && (forall other :: other in t.attendees && other != key ==> t'.attendees[other] == t.attendees[other])
      && t'.objects == t.objects && t'.owners == t.owners && t'.processed == t.processed
  {
    ReplyReads(o.cal, email, partstat, zones);
    AppliedReading(t, Reply(o.cal, email, partstat, zones), o, email, partstat, now);
    PartstatWritten(t, o.id, email, partstat, now);
    RespondedWrites(t, o, email, partstat, zones, now);
  }

  lemma {:induction false} PartstatWritten(t: Tables, objectId: int, email: string, partstat: string, now: int)
    ensures var key := (objectId, Normalized(email)); var updated := WithPartstat(t, objectId, email, partstat, now);
      && (updated.Some? <==> key in t.attendees)
      && (updated.Some? ==>
            var rows := updated.value.attendees;
            && rows.Keys == t.attendees.Keys
            && rows[key] == t.attendees[key].(partstat := partstat, scheduleStatus := "2.0", updatedAt := now)
            && forall other :: other in t.attendees && other != key ==> rows[other] == t.attendees[other])
  {}

  lemma {:induction false} RespondedWrites(t: Tables, o: StoredObject, email: string, partstat: string, zones: ZoneDb, now: int)
    requires ObjectByUid(t.objects, o.uid) == Some(o)
    ensures var updated := WithPartstat(t, o.id, email, partstat, now);
      Responded(t, email, o.uid, partstat, zones, now).attendees
      == if updated.Some? then updated.value.attendees else t.attendees
  {}

  /** What a well-read REPLY does to the tables. */
  lemma {:induction false} AppliedReading(t: Tables, cal: Component, o: StoredObject, email: string, partstat: string, now: int)
    requires ReadReply(cal) == Some(Reading(o.uid, Normalized(email), partstat)) && ObjectByUid(t.objects, o.uid) == Some(o)
    ensures var (t', outcome, uid) := Applied(t, Some(cal), now);
      var updated := WithPartstat(t, o.id, email, partstat, now);
      && uid == o.uid
      && (outcome == if updated.Some? then AppliedReply else NoMatch)
      && t'.attendees == (if updated.Some? then updated.value.attendees else t.attendees)
      && t'.objects == t.objects && t'.owners == t.owners && t'.processed == t.processed
  {
    NormalizedIdempotent(email);
  }

  // ----- What a message comes to -----

  /** The object found for a UID is the first in id order that has it. */
  lemma {:induction false} ObjectFound(objects: seq<StoredObject>, uid: string)
    ensures ObjectByUid(objects, uid).None? <==> forall i :: 0 <= i < |objects| ==> objects[i].uid != uid
    ensures ObjectByUid(objects, uid).Some? ==>
      exists i :: 0 <= i < |objects| && objects[i] == ObjectByUid(objects, uid).value && objects[i].uid == uid
        && forall j :: 0 <= j < i ==> objects[j].uid != uid
  {
    if objects != [] && objects[0].uid != uid {
      var rest := objects[1..];
      ObjectFound(rest, uid);
      assert forall i :: 1 <= i < |objects| ==> objects[i] == rest[i - 1];
      if ObjectByUid(rest, uid).Some? {
        var i :| 0 <= i < |rest| && rest[i] == ObjectByUid(rest, uid).value && rest[i].uid == uid && forall j :: 0 <= j < i ==> rest[j].uid != uid;
        assert objects[i + 1] == rest[i];
        forall j | 0 <= j < i + 1 ensures objects[j].uid != uid {
          if j > 0 { assert objects[j] == rest[j - 1]; }
        }
      }
    } else if objects != [] {
      assert objects[0].uid == uid;
    }
  }

  /** A message that is not a REPLY, or reads as none, is malformed; one whose event
      or attendee is not known matches nothing; neither changes a table. */
  lemma {:induction false} Unapplied(t: Tables, part: Option<Component>, now: int)
    ensures var (t', outcome, uid) := Applied(t, part, now);
      && (outcome != AppliedReply ==> t' == t)
      && (part.None? || Upper(ValueOf(part.value, "METHOD")) != "REPLY" ==> outcome == MalformedReply && uid == "")
      && (outcome == MalformedReply <==> part.None? || ReadReply(part.value).None?)
      && (outcome == MalformedReply && uid != "" ==>
            FirstVevent(part.value.children).Some? && uid == ValueOf(FirstVevent(part.value.children).value, "UID"))
      && (part.Some? && Upper(ValueOf(part.value, "METHOD")) == "REPLY" && FirstVevent(part.value.children).Some? ==>
            uid == ValueOf(FirstVevent(part.value.children).value, "UID"))
      && (outcome == NoMatch <==>
            part.Some? && ReadReply(part.value).Some? &&
            var r := ReadReply(part.value).value; (forall o :: o in t.objects && ObjectByUid(t.objects, r.uid) == Some(o) ==> (o.id, Normalized(r.email)) !in t.attendees))
  {
    if part.Some? && ReadReply(part.value).Some? { ObjectFound(t.objects, ReadReply(part.value).value.uid); }
  }

  /** A reply that is applied, or given here, is deposited, whole, in the inbox of the
      owner of the event's calendar, and no other inbox row changes. */
  lemma {:induction false} OrganizerGetsReply(t: Tables, o: StoredObject, email: string, partstat: string, zones: ZoneDb, now: int)
    returns (href: string, href': string)
    requires WellFormedZones(zones) && ObjectByUid(t.objects, o.uid) == Some(o) && o.uid != ""
    requires Events(o.cal.children) != [] && ValueOf(Events(o.cal.children)[0], "UID") == o.uid
    requires Listed(AllOf(Events(o.cal.children)[0].props, ATTENDEE), email) && Normalized(email) != "" && partstat != ""
    requires o.calendarId in t.owners && (o.id, Normalized(email)) in t.attendees
    ensures var reply := Reply(o.cal, email, partstat, zones);
      Applied(t, Some(reply), now).0.inbox ==
        t.inbox[(t.owners[o.calendarId], href) := InboxRow(reply, "REPLY", o.uid, Normalized(email), now)]
    ensures var reply := Reply(o.cal, email, partstat, zones);
      Responded(t, email, o.uid, partstat, zones, now).inbox ==
        t.inbox[(t.owners[o.calendarId], href') := InboxRow(reply, "REPLY", o.uid, email, now)]
  {
    var reply := Reply(o.cal, email, partstat, zones);
    href, href' := SafeName(o.uid, "reply") + "-reply.ics", SafeName(o.uid, "invite") + "-reply-" + SafeName(email, "invite") + ".ics";
    ReplyReads(o.cal, email, partstat, zones);
    NormalizedIdempotent(email);
    AppliedInbox(t, reply, o, Normalized(email), partstat, now);
    RespondedInbox(t, o, email, partstat, zones, now);
  }

  lemma {:induction false} AppliedInbox(t: Tables, cal: Component, o: StoredObject, address: string, partstat: string, now: int)
    requires ReadReply(cal) == Some(Reading(o.uid, address, partstat)) && ObjectByUid(t.objects, o.uid) == Some(o)
    requires Normalized(address) == address && (o.id, address) in t.attendees && o.calendarId in t.owners
    ensures Applied(t, Some(cal), now).0.inbox ==
      t.inbox[(t.owners[o.calendarId], SafeName(o.uid, "reply") + "-reply.ics") := InboxRow(cal, "REPLY", o.uid, address, now)]
  {}

  lemma {:induction false} RespondedInbox(t: Tables, o: StoredObject, email: string, partstat: string, zones: ZoneDb, now: int)
    requires ObjectByUid(t.objects, o.uid) == Some(o) && o.calendarId in t.owners
    ensures Responded(t, email, o.uid, partstat, zones, now).inbox ==
      t.inbox[(t.owners[o.calendarId], SafeName(o.uid, "invite") + "-reply-" + SafeName(email, "invite") + ".ics") :=
        InboxRow(Reply(o.cal, email, partstat, zones), "REPLY", o.uid, email, now)]
  {}

  // ----- Delivery -----

  datatype Delivery = Delivery(messageId: string, part: Option<Component>, now: int)

  function Marked(t: Tables, messageId: string, uid: string, outcome: Outcome): Tables {
    if messageId in t.processed then t else t.(processed := t.processed[messageId := (uid, outcome)])
  }

  /** process: a Message-ID already seen is skipped. */
  function Processed(t: Tables, d: Delivery): Tables {
    if d.messageId != "" && d.messageId in t.processed then t
    else
      var (t', outcome, uid) := Applied(t, d.part, d.now);
      if d.messageId != "" then Marked(t', d.messageId, uid, outcome) else t'
  }

  function ProcessedAll(t: Tables, ds: seq<Delivery>): Tables
    decreases |ds|
  {
    if ds == [] then t else Processed(ProcessedAll(t, ds[..|ds| - 1]), ds[|ds| - 1])
  }

  /** A Message-ID seen before changes nothing; a new one is applied and recorded with
      its outcome; a message without one is applied each time and not recorded. */
  lemma {:induction false} ProcessedOnce(t: Tables, d: Delivery)
    ensures var t', applied := Processed(t, d), Applied(t, d.part, d.now);
      if d.messageId == "" then t' == applied.0
      else if d.messageId in t.processed then t' == t
      else t' == applied.0.(processed := t.processed[d.messageId := (applied.2, applied.1)])
  {
    AppliedKeepsProcessed(t, d.part, d.now);
  }

  predicate SeenBefore(ds: seq<Delivery>, messageId: string) {
    exists i :: 0 <= i < |ds| && ds[i].messageId == messageId
  }

  /** The deliveries with repeated Message-IDs removed. */
  function WithoutRepeats(ds: seq<Delivery>): seq<Delivery>
    decreases |ds|
  {
    if ds == [] then []
    else
      var n := |ds| - 1;
      WithoutRepeats(ds[..n]) + if SeenBefore(ds[..n], ds[n].messageId) then [] else [ds[n]]
  }

  lemma {:induction false} AppliedKeepsProcessed(t: Tables, part: Option<Component>, now: int)
    ensures Applied(t, part, now).0.processed == t.processed
  {}

  lemma {:induction false} SeenSnoc(ds: seq<Delivery>, d: Delivery, messageId: string)
    ensures SeenBefore(ds + [d], messageId) <==> SeenBefore(ds, messageId) || d.messageId == messageId
  {
    if i :| 0 <= i < |ds| && ds[i].messageId == messageId { assert (ds + [d])[i].messageId == messageId; }
    assert (ds + [d])[|ds|] == d;
  }

  lemma {:induction false} DeliveredAreProcessed(t: Tables, ds: seq<Delivery>, messageId: string)
    requires messageId != "" && (messageId in t.processed || SeenBefore(ds, messageId))
    ensures messageId in ProcessedAll(t, ds).processed
  {
    if ds != [] {
      var n := |ds| - 1;
      var before := ProcessedAll(t, ds[..n]);
      AppliedKeepsProcessed(before, ds[n].part, ds[n].now);
      SeenSnoc(ds[..n], ds[n], messageId);
      assert ds[..n] + [ds[n]] == ds;
      if messageId in t.processed || SeenBefore(ds[..n], messageId) { DeliveredAreProcessed(t, ds[..n], messageId); }
    }
  }

  lemma {:induction false} ProcessedSnoc(t: Tables, ds: seq<Delivery>, d: Delivery)
    ensures ProcessedAll(t, ds + [d]) == Processed(ProcessedAll(t, ds), d)
  {
    assert (ds + [d])[..|ds|] == ds;
  }

  /** However often messages are delivered, the tables end as if each Message-ID
      had been delivered once, at its first delivery. */
  lemma {:induction false} RepeatsHaveNoEffect(t: Tables, ds: seq<Delivery>)
    requires forall i :: 0 <= i < |ds| ==> ds[i].messageId != ""
    ensures ProcessedAll(t, ds) == ProcessedAll(t, WithoutRepeats(ds))
  {
    if ds != [] {
      var n := |ds| - 1;
      RepeatsHaveNoEffect(t, ds[..n]);
      var kept := WithoutRepeats(ds[..n]);
      if SeenBefore(ds[..n], ds[n].messageId) {
        DeliveredAreProcessed(t, ds[..n], ds[n].messageId);
        assert WithoutRepeats(ds) == kept;
      } else {
        ProcessedSnoc(t, kept, ds[n]);
      }
    }
  }

  // ----- The receiver -----

  class Receiver {
    var objects: seq<StoredObject>
    var owners: map<int, int>
    var attendees: map<(int, string), AttendeeRow>
    var inbox: map<(int, string), InboxRow>
    var processed: map<string, (string, Outcome)>

    function State(): Tables
      reads this
    {
      Tables(objects, owners, attendees, inbox, processed)
    }

    method UpdateAttendeePartstat(objectId: int, email: string, partstat: string, now: int) returns (found: bool)
      modifies this`attendees
      ensures found == WithPartstat(old(State()), objectId, email, partstat, now).Some?
      ensures State() == if found then WithPartstat(old(State()), objectId, email, partstat, now).value else old(State())
    {
      var key := (objectId, Normalized(email));
      if key !in attendees { return false; }
      attendees := attendees[key := attendees[key].(partstat := partstat, scheduleStatus := "2.0", updatedAt := now)];
      found := true;
    }

    method FindByUid(uid: string) returns (o: Option<StoredObject>)
      ensures o == ObjectByUid(objects, uid)
    {
      var i := 0;
      while i < |objects|
        invariant i <= |objects| && ObjectByUid(objects, uid) == ObjectByUid(objects[i..], uid)
      {
        assert objects[i..][1..] == objects[i + 1..];
        if objects[i].uid == uid { return Some(objects[i]); }
        i := i + 1;
      }
      o := None;
    }

    method FindVevent(children: seq<Component>) returns (event: Option<Component>)
      ensures event == FirstVevent(children)
    {
      var i := 0;
      while i < |children|
        invariant i <= |children| && FirstVevent(children) == FirstVevent(children[i..])
      {
        assert children[i..][1..] == children[i + 1..];
        if children[i].name == VEVENT { return Some(children[i]); }
        i := i + 1;
      }
      event := None;
    }

    method ApplyReply(part: Option<Component>, now: int) returns (outcome: Outcome, uid: string)
      modifies this`attendees, this`inbox
      ensures (State(), outcome, uid) == Applied(old(State()), part, now)
    {
      if part == None { return MalformedReply, ""; }
      var cal := part.value;
      if Upper(ValueOf(cal, "METHOD")) != "REPLY" { return MalformedReply, ""; }
      var event := FindVevent(cal.children);
      if event == None { return MalformedReply, ""; }
      uid := ValueOf(event.value, "UID");
      if uid == "" { return MalformedReply, ""; }
      var email, partstat := "", "";
      var p := Get(event.value.props, ATTENDEE);
      BlankAddress();
      if p.Some? {
        email, partstat := MailtoAddress(p.value.value), Param(p.value, "PARTSTAT");
      }
      if email == "" || partstat == "" { return MalformedReply, uid; }
      var o := FindByUid(uid);
      if o == None { return NoMatch, uid; }
      var found := UpdateAttendeePartstat(o.value.id, email, partstat, now);
      if !found { return NoMatch, uid; }
      if o.value.calendarId in owners {
        var key := (owners[o.value.calendarId], SafeName(uid, "reply") + "-reply.ics");
        inbox := inbox[key := InboxRow(cal, "REPLY", uid, email, now)];
      }
      outcome := AppliedReply;
    }

    method Process(messageId: string, part: Option<Component>, now: int)
      modifies this
      ensures State() == Processed(old(State()), Delivery(messageId, part, now))
    {
      if messageId != "" && messageId in processed { return; }
      var outcome, uid := ApplyReply(part, now);
      if messageId != "" && messageId !in processed {
        processed := processed[messageId := (uid, outcome)];
      }
    }

    method RespondLocal(email: string, uid: string, partstat: string, zones: ZoneDb, now: int)
      modifies this`attendees, this`inbox
      ensures State() == Responded(old(State()), email, uid, partstat, zones, now)
    {
      var o := FindByUid(uid);
      if o == None { return; }
      var found := UpdateAttendeePartstat(o.value.id, email, partstat, now);
      var reply := BuildReply(o.value.cal, email, partstat, zones);
      if o.value.calendarId in owners {
        var key := (owners[o.value.calendarId], SafeName(uid, "invite") + "-reply-" + SafeName(email, "invite") + ".ics");
        inbox := inbox[key := InboxRow(reply, "REPLY", uid, email, now)];
      }
    }
  }
}
