/** Reading instants from properties and expanding a recurrence
    (internal/ical/ical.go, internal/ical/recur.go). Calendar arithmetic and
    recurrence rules are parameters. */
module Instants {
  import opened Components

  datatype Zone = Utc | Iana(name: string)

  /** An instant in nanoseconds, with the location it was read in. */
  datatype Moment = Moment(at: int, zone: Zone)

  /** The time library: zone lookup, the three accepted layouts and the
      calendar date one hundred years on. */
  datatype Calendrics = Calendrics(
    load: string -> Option<Zone>,
    date: (string, Zone) -> Option<int>,
    utc: string -> Option<int>,
    local: (string, Zone) -> Option<int>,
    centuryAfter: Moment -> int)

  /** A date, a UTC date-time or a local date-time, by its form. */
  function ReadStamp(k: Calendrics, raw: string, zone: Zone): Option<int> {
    if 'T' !in raw then k.date(raw, zone)
    else if raw[|raw| - 1] == 'Z' then k.utc(raw)
    else k.local(raw, zone)
  }

  function ZoneOf(k: Calendrics, tzid: string, default: Zone): Zone {
    if tzid != "" && k.load(tzid).Some? then k.load(tzid).value else default
  }

  function WithZone(at: Option<int>, zone: Zone): Option<Moment> {
    match at
    case Some(t) => Some(Moment(t, zone))
    case None => None
  }

  /** propDateTime: a date ignores TZID, a UTC value is in UTC. */
  function PropMoment(k: Calendrics, c: Component, name: string, default: Zone): Option<Moment> {
    match Get(c.props, name)
    case None => None
    case Some(p) =>
      if p.value == "" then None
      else if 'T' !in p.value then WithZone(k.date(p.value, default), default)
      else if p.value[|p.value| - 1] == 'Z' then WithZone(k.utc(p.value), Utc)
      else
        var zone := ZoneOf(k, Param(p, "TZID"), default);
        WithZone(k.local(p.value, zone), zone)
  }

  function StartOf(k: Calendrics, c: Component): Option<Moment> {
    var start := PropMoment(k, c, "DTSTART", Utc);
    if start.Some? then start
    else if c.name == VTODO then PropMoment(k, c, "DUE", Utc)
    else None
  }

  function DurationOf(k: Calendrics, c: Component, start: int): int {
    var end := PropMoment(k, c, "DTEND", Utc);
    var due := PropMoment(k, c, "DUE", Utc);
    if end.Some? then end.value.at - start
    else if c.name == VTODO && due.Some? then due.value.at - start
    else 0
  }

  // ----- EXDATE -----

  function SplitCommas(s: string): (parts: seq<string>)
    ensures parts != []
    ensures ',' !in s ==> parts == [s]
  {
    if s == [] then [[]]
    else
      var rest := SplitCommas(s[1..]);
      assert [s[0]] + s[1..] == s;
      if s[0] == ',' then [[]] + rest
      else [[s[0]] + rest[0]] + rest[1..]
  }

  predicate IsSpace(c: char) {
    c in {' ', '\t', '\n', '\r'} || c as int in {0x0B, 0x0C, 0x85, 0xA0}
  }

  function TrimLeft(s: string): string {
    if s != [] && IsSpace(s[0]) then TrimLeft(s[1..]) else s
  }

  function TrimRight(s: string): string
    decreases |s|
  {
    if s != [] && IsSpace(s[|s| - 1]) then TrimRight(s[..|s| - 1]) else s
  }

  function Trim(s: string): string {
    TrimRight(TrimLeft(s))
  }

  function ReadParts(k: Calendrics, parts: seq<string>, zone: Zone): seq<int>
    decreases |parts|
  {
    if parts == [] then []
    else
      var last := |parts| - 1;
      var raw := Trim(parts[last]);
      ReadParts(k, parts[..last], zone) +
      if raw != "" && ReadStamp(k, raw, zone).Some? then [ReadStamp(k, raw, zone).value] else []
  }

  function ReadExdate(k: Calendrics, p: Prop, default: Zone): seq<int> {
    ReadParts(k, SplitCommas(p.value), ZoneOf(k, Param(p, "TZID"), default))
  }

  function ReadExdates(k: Calendrics, ps: seq<Prop>, default: Zone): seq<int>
    decreases |ps|
  {
    if ps == [] then []
    else ReadExdates(k, ps[..|ps| - 1], default) + ReadExdate(k, ps[|ps| - 1], default)
  }

  /** The instants a component's EXDATE properties exclude. */
  function ExdateInstants(k: Calendrics, c: Component, default: Zone): seq<int> {
    ReadExdates(k, AllOf(c.props, "EXDATE"), default)
  }

  method ReadProp(k: Calendrics, p: Prop, default: Zone) returns (out: seq<int>)
    ensures out == ReadExdate(k, p, default)
  {
    var zone := default;
    if Param(p, "TZID") != "" {
      var loaded := k.load(Param(p, "TZID"));
      if loaded.Some? { zone := loaded.value; }
    }
    var parts := SplitCommas(p.value);
    out := [];
    for j := 0 to |parts|
      invariant out == ReadParts(k, parts[..j], zone)
    {
      assert parts[..j + 1][..j] == parts[..j];
      var raw := Trim(parts[j]);
      if raw == "" { continue; }
      var t := ReadStamp(k, raw, zone);
      if t.Some? { out := out + [t.value]; }
    }
    assert parts[..|parts|] == parts;
  }

  lemma {:induction false} ReadPrefix(k: Calendrics, ps: seq<Prop>, i: nat, default: Zone)
    requires i < |ps|
    ensures ReadExdates(k, ps[..i + 1], default) == ReadExdates(k, ps[..i], default) + ReadExdate(k, ps[i], default)
  {
    assert ps[..i + 1][..i] == ps[..i];
  }

  method Exdates(k: Calendrics, c: Component, default: Zone) returns (out: seq<int>)
    ensures out == ExdateInstants(k, c, default)
  {
    var ps := AllOf(c.props, "EXDATE");
    out := [];
    for i := 0 to |ps|
      invariant out == ReadExdates(k, ps[..i], default)
    {
      ReadPrefix(k, ps, i, default);
      var times := ReadProp(k, ps[i], default);
      out := out + times;
    }
    assert ps[..|ps|] == ps;
  }

  lemma {:induction false} ReadBySome(k: Calendrics, ps: seq<Prop>, default: Zone, t: int) returns (p: Prop)
    requires t in ReadExdates(k, ps, default)
    ensures p in ps && t in ReadExdate(k, p, default)
  {
    var n := |ps| - 1;
    if t in ReadExdates(k, ps[..n], default) {
      p := ReadBySome(k, ps[..n], default, t);
    } else {
      p := ps[n];
    }
  }

  lemma {:induction false} ReadByAll(k: Calendrics, ps: seq<Prop>, default: Zone, t: int, p: Prop)
    requires p in ps && t in ReadExdate(k, p, default)
    ensures t in ReadExdates(k, ps, default)
  {
    var i :| 0 <= i < |ps| && ps[i] == p;
    ReadAt(k, ps, default, t, i);
  }

  lemma {:induction false} ReadAt(k: Calendrics, ps: seq<Prop>, default: Zone, t: int, i: nat)
    requires i < |ps| && t in ReadExdate(k, ps[i], default)
    ensures t in ReadExdates(k, ps, default)
  {
    if i < |ps| - 1 {
      ReadAt(k, ps[..|ps| - 1], default, t, i);
    }
  }

  /** The characters of an iCalendar date or date-time value. */
  predicate IsStamp(s: string) {
    s != [] && forall c :: c in s ==> '0' <= c <= '9' || c == 'T' || c == 'Z'
  }

  lemma {:induction false} StampExdate(k: Calendrics, p: Prop, default: Zone)
    requires IsStamp(p.value)
    ensures var t := ReadStamp(k, p.value, ZoneOf(k, Param(p, "TZID"), default));
      ReadExdate(k, p, default) == if t.Some? then [t.value] else []
  {
    assert ',' !in p.value;
    var zone := ZoneOf(k, Param(p, "TZID"), default);
    var parts := SplitCommas(p.value);
    assert parts == [p.value];
    assert p.value[0] in p.value && p.value[|p.value| - 1] in p.value;
    assert TrimLeft(p.value) == p.value && TrimRight(p.value) == p.value;
    assert ReadParts(k, parts[..0], zone) == [];
    assert parts[|parts| - 1] == p.value;
  }

  /** The parts with a comma between each two. */
  function Joined(parts: seq<string>): string {
    if parts == [] then "" else if |parts| == 1 then parts[0] else parts[0] + "," + Joined(parts[1..])
  }

  /** The parts of a value are what stands between its commas. */
  lemma {:induction false} SplitJoins(s: string)
    ensures Joined(SplitCommas(s)) == s
    ensures forall i :: 0 <= i < |SplitCommas(s)| ==> ',' !in SplitCommas(s)[i]
  {
    if s != [] {
      SplitJoins(s[1..]);
      assert s == [s[0]] + s[1..];
      JoinedCons(s[0], SplitCommas(s[1..]));
    }
  }

  lemma {:induction false} JoinedCons(c: char, parts: seq<string>)
    requires parts != []
    ensures Joined([[]] + parts) == "," + Joined(parts)
    ensures Joined([[c] + parts[0]] + parts[1..]) == [c] + Joined(parts)
  {
    assert ([[]] + parts)[1..] == parts;
    assert ([[c] + parts[0]] + parts[1..])[1..] == parts[1..];
  }

  /** Trimming removes exactly the white space at the two ends. */
  lemma {:induction false} TrimExact(s: string) returns (i: nat, j: nat)
    ensures i <= j <= |s| && Trim(s) == s[i..j]
    ensures forall k :: 0 <= k < i || j <= k < |s| ==> IsSpace(s[k])
    ensures Trim(s) != "" ==> !IsSpace(s[i]) && !IsSpace(s[j - 1])
  {
    i := LeftEnd(s);
    var t := TrimLeft(s);
    j := RightEnd(t);
    j := i + j;
    assert s[i..][..j - i] == s[i..j];
    forall k | j <= k < |s| ensures IsSpace(s[k]) { assert t[k - i] == s[k]; }
  }

  lemma {:induction false} LeftEnd(s: string) returns (i: nat)
    ensures i <= |s| && TrimLeft(s) == s[i..] && (i < |s| ==> !IsSpace(s[i])) && forall k :: 0 <= k < i ==> IsSpace(s[k])
  {
    i := 0;
    if s != [] && IsSpace(s[0]) {
      i := LeftEnd(s[1..]);
      i := i + 1;
    }
  }

  lemma {:induction false} RightEnd(s: string) returns (j: nat)
    ensures j <= |s| && TrimRight(s) == s[..j] && (j > 0 ==> !IsSpace(s[j - 1])) && forall k :: j <= k < |s| ==> IsSpace(s[k])
    decreases |s|
  {
    j := |s|;
    if s != [] && IsSpace(s[|s| - 1]) { j := RightEnd(s[..|s| - 1]); }
  }

  lemma {:induction false} PartsRead(k: Calendrics, parts: seq<string>, zone: Zone, t: int)
    ensures t in ReadParts(k, parts, zone) <==>
      exists i :: 0 <= i < |parts| && Trim(parts[i]) != "" && ReadStamp(k, Trim(parts[i]), zone) == Some(t)
  {
    if parts != [] {
      var n := |parts| - 1;
      var init := parts[..n];
      PartsRead(k, init, zone, t);
      assert forall i :: 0 <= i < n ==> init[i] == parts[i];
    }
  }

  /** What an EXDATE property excludes: the instants to which the trimmed parts
      between its commas read, in its own zone if that is known. */
  lemma {:induction false} ExdateReads(k: Calendrics, p: Prop, default: Zone, t: int)
    ensures var parts := SplitCommas(p.value);
      var zone := if Param(p, "TZID") != "" && k.load(Param(p, "TZID")).Some? then k.load(Param(p, "TZID")).value else default;
      && Joined(parts) == p.value && (forall i :: 0 <= i < |parts| ==> ',' !in parts[i])
      && (t in ReadExdate(k, p, default) <==>
            exists i :: 0 <= i < |parts| && Trim(parts[i]) != "" && ReadStamp(k, Trim(parts[i]), zone) == Some(t))
  {
    SplitJoins(p.value);
    PartsRead(k, SplitCommas(p.value), ZoneOf(k, Param(p, "TZID"), default), t);
  }

  // ----- Which zone counts -----

  /** A date counts in the default zone and a UTC time in UTC, whatever zone the
      property names; a local time counts in the zone named, if that is known. */
  lemma {:induction false} ZoneCounts(k: Calendrics, c: Component, name: string, default: Zone)
    requires PropMoment(k, c, name, default).Some?
    ensures var raw, tzid, m := ValueOf(c, name), TzidOf(c, name), PropMoment(k, c, name, default).value;
      if raw == "" then false
      else if 'T' !in raw then m.zone == default && Some(m.at) == k.date(raw, default)
      else if raw[|raw| - 1] == 'Z' then m.zone == Utc && Some(m.at) == k.utc(raw)
      else m.zone == (if tzid != "" && k.load(tzid).Some? then k.load(tzid).value else default) && Some(m.at) == k.local(raw, m.zone)
  {}

  /** A to-do that has no start starts when it is due, and one that has no end ends
      then; a due time says nothing of an event. */
  lemma {:induction false} DueStands(k: Calendrics, c: Component)
    requires PropMoment(k, c, "DTEND", Utc) == None
    ensures var start, due := PropMoment(k, c, "DTSTART", Utc), PropMoment(k, c, "DUE", Utc);
      && StartOf(k, c) == (if start.None? && c.name == "VTODO" then due else start)
      && (StartOf(k, c).Some? ==>
            StartOf(k, c).value.at + DurationOf(k, c, StartOf(k, c).value.at)
            == if c.name == "VTODO" && due.Some? then due.value.at else StartOf(k, c).value.at)
  {}

  lemma {:induction false} EndStands(k: Calendrics, c: Component, start: int)
    requires PropMoment(k, c, "DTEND", Utc).Some?
    ensures start + DurationOf(k, c, start) == PropMoment(k, c, "DTEND", Utc).value.at
  {}

  // ----- Recurrence rules -----

  /** The rule engine: which instants a rule generates from a start, and the
      ascending list of those in a closed interval (None for an invalid rule). */
  datatype RuleEngine = RuleEngine(
    occurs: (Moment, string, int) -> bool,
    between: (Moment, string, int, int) -> Option<seq<int>>)

  ghost predicate Ascending(s: seq<int>) {
    forall i, j :: 0 <= i < j < |s| ==> s[i] < s[j]
  }

  /** The list and the generated set agree; nothing precedes the start, and a
      rule's validity does not depend on the interval. */
  ghost predicate FaithfulEngine(e: RuleEngine) {
    && (forall start, rule, lo, hi {:trigger e.between(start, rule, lo, hi)} :: e.between(start, rule, lo, hi).Some? ==>
          Ascending(e.between(start, rule, lo, hi).value))
    && (forall start, rule, lo, hi, t {:trigger t in e.between(start, rule, lo, hi).value} ::
          e.between(start, rule, lo, hi).Some? ==>
            (t in e.between(start, rule, lo, hi).value <==> lo <= t <= hi && e.occurs(start, rule, t)))
    && (forall start, rule, t {:trigger e.occurs(start, rule, t)} :: e.occurs(start, rule, t) ==> start.at <= t)
    && (forall start, rule, lo, hi, lo', hi' {:trigger e.between(start, rule, lo, hi), e.between(start, rule, lo', hi')} ::
          e.between(start, rule, lo, hi).None? ==> e.between(start, rule, lo', hi').None?)
  }

  /** A half-open window. */
  datatype Range = Range(start: int, end: int) {
    predicate Contains(t: int) {
      !(t < start) && t < end
    }
  }

  function InWindow(occ: seq<int>, exdates: seq<int>, window: Range): seq<int>
    decreases |occ|
  {
    if occ == [] then []
    else
      var t := occ[|occ| - 1];
      InWindow(occ[..|occ| - 1], exdates, window) + if t !in exdates && window.Contains(t) then [t] else []
  }

  function Expanded(e: RuleEngine, start: Moment, rule: string, exdates: seq<int>, window: Range): Option<seq<int>> {
    match e.between(start, rule, window.start, window.end)
    case None => None
    case Some(occ) => Some(InWindow(occ, exdates, window))
  }

  method ExpandRrule(e: RuleEngine, start: Moment, rule: string, exdates: seq<int>, window: Range)
    returns (out: Option<seq<int>>)
    ensures out == Expanded(e, start, rule, exdates, window)
  {
    var all := e.between(start, rule, window.start, window.end);
    if all.None? { return None; }
    var occ := all.value;
    var times: seq<int> := [];
    for i := 0 to |occ|
      invariant times == InWindow(occ[..i], exdates, window)
    {
      assert occ[..i + 1][..i] == occ[..i];
      if occ[i] !in exdates && window.Contains(occ[i]) { times := times + [occ[i]]; }
    }
    assert occ[..|occ|] == occ;
    out := Some(times);
  }

  lemma {:induction false} InWindowMembers(occ: seq<int>, exdates: seq<int>, window: Range, t: int)
    ensures t in InWindow(occ, exdates, window) <==> t in occ && t !in exdates && window.Contains(t)
  {
    if occ != [] {
      InWindowMembers(occ[..|occ| - 1], exdates, window, t);
      assert occ == occ[..|occ| - 1] + [occ[|occ| - 1]];
    }
  }

  lemma {:induction false} InWindowAscending(occ: seq<int>, exdates: seq<int>, window: Range)
    requires Ascending(occ)
    ensures Ascending(InWindow(occ, exdates, window))
  {
    if occ != [] {
      var k := |occ| - 1;
      InWindowAscending(occ[..k], exdates, window);
      var init := InWindow(occ[..k], exdates, window);
      forall i | 0 <= i < |init| ensures init[i] < occ[k] {
        InWindowMembers(occ[..k], exdates, window, init[i]);
        assert init[i] in init;
      }
    }
  }

  /** Expansion lists, in ascending order, exactly the generated instants of the
      half-open window that no EXDATE removes. */
  lemma {:induction false} ExpandedExactly(e: RuleEngine, start: Moment, rule: string, exdates: seq<int>, window: Range)
    requires FaithfulEngine(e)
    requires Expanded(e, start, rule, exdates, window).Some?
    ensures var out := Expanded(e, start, rule, exdates, window).value;
      && Ascending(out)
      && forall t :: t in out <==> window.start <= t < window.end && e.occurs(start, rule, t) && t !in exdates
  {
    var occ := e.between(start, rule, window.start, window.end).value;
    InWindowAscending(occ, exdates, window);
    forall t ensures t in InWindow(occ, exdates, window) <==>
      window.start <= t < window.end && e.occurs(start, rule, t) && t !in exdates
    {
      InWindowMembers(occ, exdates, window, t);
    }
  }
}
