/** Parsed iCalendar values: properties with parameters, and components with
    children. A calendar is itself a component. Values stand for the decoded
    object graph; a missing parameter table and an empty one are the same here. */
module Components {

  datatype Option<+T> = None | Some(value: T)

  type Params = map<string, seq<string>>

  datatype Prop = Prop(name: string, params: Params, value: string)

  type Props = map<string, seq<Prop>>

  datatype Component = Component(name: string, props: Props, children: seq<Component>)

  const VCALENDAR := "VCALENDAR"
  const VEVENT := "VEVENT"
  const VTODO := "VTODO"
  const VALARM := "VALARM"
  const VTIMEZONE := "VTIMEZONE"
  const RECURRENCE_ID := "RECURRENCE-ID"

  /** The first property of that name, if there is one. */
  function Get(props: Props, name: string): Option<Prop> {
    if name in props && |props[name]| > 0 then Some(props[name][0]) else None
  }

  predicate Has(c: Component, name: string) {
    Get(c.props, name).Some?
  }

  /** The value of the first property of that name, or the empty string. */
  function ValueOf(c: Component, name: string): string {
    match Get(c.props, name)
    case Some(p) => p.value
    case None => ""
  }

  /** All properties of that name; an absent name reads as the empty list. */
  function AllOf(props: Props, name: string): seq<Prop> {
    if name in props then props[name] else []
  }

  /** The first value of a parameter, or the empty string. */
  function Param(p: Prop, key: string): string {
    if key in p.params && |p.params[key]| > 0 then p.params[key][0] else ""
  }

  /** The TZID parameter of a component's first property of that name. */
  function TzidOf(c: Component, name: string): string {
    match Get(c.props, name)
    case Some(p) => Param(p, "TZID")
    case None => ""
  }

  /** A plain text property, as a component setter writes it. */
  function TextProp(name: string, text: string): Prop {
    Prop(name, map[], text)
  }

  /** The header of a calendar the server writes. */
  function Header(): Props {
    map["VERSION" := [TextProp("VERSION", "2.0")], "PRODID" := [TextProp("PRODID", "-//furryfoxcorp//calshare//EN")]]
  }

  /** The first component without RECURRENCE-ID. */
  function Master(comps: seq<Component>): Option<Component>
    decreases |comps|
  {
    if comps == [] then None
    else
      var k := |comps| - 1;
      var earlier := Master(comps[..k]);
      if earlier.Some? then earlier
      else if !Has(comps[k], RECURRENCE_ID) then Some(comps[k]) else None
  }

  /** The events with that UID, in order. */
  function Group(events: seq<Component>, uid: string): seq<Component>
    decreases |events|
  {
    if events == [] then []
    else
      var k := |events| - 1;
      Group(events[..k], uid) + if ValueOf(events[k], "UID") == uid then [events[k]] else []
  }

  lemma {:induction false} GroupMembers(s: seq<Component>, uid: string, c: Component)
    ensures c in Group(s, uid) <==> c in s && ValueOf(c, "UID") == uid
  {
    if s != [] {
      var n := |s| - 1;
      GroupMembers(s[..n], uid, c);
      assert s == s[..n] + [s[n]];
    }
  }

  lemma {:induction false} GroupSnoc(events: seq<Component>, next: Component, uid: string)
    ensures Group(events + [next], uid) == if ValueOf(next, "UID") == uid then Group(events, uid) + [next] else Group(events, uid)
  {
    assert (events + [next])[..|events|] == events;
  }

  ghost predicate Absent(s: seq<Component>, uid: string) {
    forall c :: c in s ==> ValueOf(c, "UID") != uid
  }

  lemma {:induction false} AbsentGroup(s: seq<Component>, uid: string)
    ensures Absent(s, uid) <==> Group(s, uid) == []
  {
    forall c ensures c in Group(s, uid) <==> c in s && ValueOf(c, "UID") == uid { GroupMembers(s, uid, c); }
    NonEmptyHasMember(Group(s, uid));
  }

  lemma {:induction false} MasterMembers(comps: seq<Component>)
    ensures Master(comps).Some? ==> Master(comps).value in comps && !Has(Master(comps).value, RECURRENCE_ID)
    ensures Master(comps).None? ==> forall c :: c in comps ==> Has(c, RECURRENCE_ID)
  {
    if comps != [] {
      var n := |comps| - 1;
      MasterMembers(comps[..n]);
      assert comps == comps[..n] + [comps[n]];
    }
  }

  lemma {:induction false} NonEmptyHasMember<T>(s: seq<T>)
    ensures s != [] ==> exists x :: x in s
  {
    if s != [] { assert s[0] in s; }
  }

  /** The VEVENT children of a calendar, in order. */
  function Events(children: seq<Component>): seq<Component>
    decreases |children|
  {
    if children == [] then []
    else
      var k := |children| - 1;
      Events(children[..k]) + if children[k].name == VEVENT then [children[k]] else []
  }

  /** The children that are not alarms, in order. */
  function NonAlarms(children: seq<Component>): seq<Component>
    decreases |children|
  {
    if children == [] then []
    else
      var k := |children| - 1;
      NonAlarms(children[..k]) + if children[k].name == VALARM then [] else [children[k]]
  }

  lemma {:induction false} EventsOfAllEvents(cs: seq<Component>)
    requires forall i :: 0 <= i < |cs| ==> cs[i].name == VEVENT
    ensures Events(cs) == cs
  {
    if cs != [] {
      var k := |cs| - 1;
      EventsOfAllEvents(cs[..k]);
      assert cs == cs[..k] + [cs[k]];
    }
  }

  lemma {:induction false} EventsOfNoEvents(cs: seq<Component>)
    requires forall i :: 0 <= i < |cs| ==> cs[i].name != VEVENT
    ensures Events(cs) == []
  {
    if cs != [] {
      var k := |cs| - 1;
      EventsOfNoEvents(cs[..k]);
    }
  }

  lemma {:induction false} EventsConcat(a: seq<Component>, b: seq<Component>)
    ensures Events(a + b) == Events(a) + Events(b)
  {
    if b == [] {
      assert a + b == a;
    } else {
      var k := |b| - 1;
      EventsConcat(a, b[..k]);
      assert (a + b)[..|a + b| - 1] == a + b[..k];
    }
  }
}
