/** Injection of VTIMEZONE components (internal/ical/vtimezone.go). The zone
    database is a parameter: a function from names to generated components. */
module Timezones {
  import opened Components

  type ZoneDb = string -> Option<Component>

  /** What the generator guarantees of its components: they are VTIMEZONEs that
      carry the requested name and refer to no further zone. */
  ghost predicate WellFormedZones(zones: ZoneDb) {
    forall name :: zones(name).Some? ==>
      && zones(name).value.name == VTIMEZONE
      && Has(zones(name).value, "TZID")
      && ValueOf(zones(name).value, "TZID") == name
      && Tzids(zones(name).value) == {}
  }

  // ----- Lexicographic order of names -----

  predicate Leq(a: string, b: string) {
    a == [] || (b != [] && (a[0] < b[0] || (a[0] == b[0] && Leq(a[1..], b[1..]))))
  }

  lemma {:induction false} LeqTotal(a: string, b: string)
    ensures Leq(a, b) || Leq(b, a)
  {
    if a != [] && b != [] && a[0] == b[0] { LeqTotal(a[1..], b[1..]); }
  }

  lemma {:induction false} LeqAntisymmetric(a: string, b: string)
    requires Leq(a, b) && Leq(b, a)
    ensures a == b
  {
    if a != [] && b != [] {
      LeqAntisymmetric(a[1..], b[1..]);
      assert a == [a[0]] + a[1..] && b == [b[0]] + b[1..];
    }
  }

  lemma {:induction false} LeqTransitive(a: string, b: string, c: string)
    requires Leq(a, b) && Leq(b, c)
    ensures Leq(a, c)
  {
    if a != [] && a[0] == b[0] == c[0] { LeqTransitive(a[1..], b[1..], c[1..]); }
  }

  ghost predicate IsLeast(m: string, s: set<string>) {
    m in s && forall x :: x in s ==> Leq(m, x)
  }

  lemma {:induction false} LeastExists(s: set<string>)
    requires s != {}
    ensures exists m :: IsLeast(m, s)
  {
    var x :| x in s;
    LeqTotal(x, x);
    var rest := s - {x};
    assert s == rest + {x};
    if rest == {} {
      assert IsLeast(x, s);
    } else {
      LeastExists(rest);
      var y :| IsLeast(y, rest);
      LeqTotal(x, y);
      if Leq(x, y) {
        forall z | z in rest ensures Leq(x, z) { LeqTransitive(x, y, z); }
        assert IsLeast(x, s);
      } else {
        assert IsLeast(y, s);
      }
    }
  }

  ghost function Least(s: set<string>): (m: string)
    requires s != {}
    ensures IsLeast(m, s)
  {
    LeastExists(s);
    var m :| IsLeast(m, s); m
  }

  method FindLeast(s: set<string>) returns (m: string)
    requires s != {}
    ensures m == Least(s)
  {
    m :| m in s;
    var rest := s - {m};
    LeqTotal(m, m);
    while rest != {}
      invariant rest <= s && m in s
      invariant forall x :: x in s && x !in rest ==> Leq(m, x)
      decreases rest
    {
      var x :| x in rest;
      LeqTotal(m, x);
      LeqTotal(x, x);
      if !Leq(m, x) {
        forall z | z in s && z !in rest ensures Leq(x, z) { LeqTransitive(x, m, z); }
        m := x;
      }
      rest := rest - {x};
    }
    LeqAntisymmetric(m, Least(s));
  }

  /** The ascending enumeration of a set of names. */
  ghost function SortedNames(s: set<string>): (r: seq<string>)
    ensures forall x :: x in r <==> x in s
    ensures forall i, j :: 0 <= i < j < |r| ==> Leq(r[i], r[j]) && r[i] != r[j]
  {
    if s == {} then []
    else
      var m := Least(s);
      assert s == {m} + (s - {m});
      [m] + SortedNames(s - {m})
  }

  lemma {:induction false} LeastFirst(names: seq<string>, wanted: set<string>)
    requires wanted != {}
    ensures names + SortedNames(wanted) == names + [Least(wanted)] + SortedNames(wanted - {Least(wanted)})
  {
    var rest := SortedNames(wanted - {Least(wanted)});
    assert SortedNames(wanted) == [Least(wanted)] + rest;
    assert names + ([Least(wanted)] + rest) == names + [Least(wanted)] + rest;
  }

  method SortNames(s: set<string>) returns (names: seq<string>)
    ensures names == SortedNames(s)
  {
    var wanted := s;
    names := [];
    while wanted != {}
      invariant SortedNames(s) == names + SortedNames(wanted)
      decreases wanted
    {
      var least := FindLeast(wanted);
      LeastFirst(names, wanted);
      names := names + [least];
      wanted := wanted - {least};
    }
  }

  // ----- referencedTZIDs -----

  /** Every non-empty TZID parameter anywhere in a component tree. */
  function Tzids(c: Component): set<string>
    decreases c, 0
  {
    PropTzids(c.props) + AllTzids(c.children)
  }

  function AllTzids(cs: seq<Component>): set<string>
    decreases cs
  {
    if cs == [] then {}
    else AllTzids(cs[..|cs| - 1]) + Tzids(cs[|cs| - 1])
  }

  function PropTzids(props: Props): set<string> {
    set name, p | name in props && p in props[name] && Param(p, "TZID") != "" :: Param(p, "TZID")
  }

  /** Somewhere in the tree a property has that zone as its TZID. */
  ghost predicate Refers(c: Component, tzid: string)
    decreases c
  {
    || (exists name, p :: name in c.props && p in c.props[name] && Param(p, "TZID") == tzid)
    || (exists child :: child in c.children && Refers(child, tzid))
  }

  /** The walk collects the zones that the tree refers to, and no others. */
  lemma {:induction false} TzidsExactly(c: Component, tzid: string)
    ensures tzid in Tzids(c) <==> tzid != "" && Refers(c, tzid)
    decreases c, 0
  {
    AllTzidsExactly(c.children, tzid);
  }

  lemma {:induction false} AllTzidsExactly(cs: seq<Component>, tzid: string)
    ensures tzid in AllTzids(cs) <==> tzid != "" && exists c :: c in cs && Refers(c, tzid)
    decreases cs
  {
    if cs != [] {
      var n := |cs| - 1;
      AllTzidsExactly(cs[..n], tzid);
      TzidsExactly(cs[n], tzid);
      assert cs == cs[..n] + [cs[n]];
    }
  }

  lemma {:induction false} AllTzidsConcat(a: seq<Component>, b: seq<Component>)
    ensures AllTzids(a + b) == AllTzids(a) + AllTzids(b)
  {
    if b == [] {
      assert a + b == a;
    } else {
      AllTzidsConcat(a, b[..|b| - 1]);
      assert (a + b)[..|a + b| - 1] == a + b[..|b| - 1];
    }
  }

  lemma {:induction false} NoTzids(cs: seq<Component>)
    requires forall c :: c in cs ==> Tzids(c) == {}
    ensures AllTzids(cs) == {}
  {
    if cs != [] {
      NoTzids(cs[..|cs| - 1]);
      assert cs[|cs| - 1] in cs;
    }
  }

  method ReferencedTzids(children: seq<Component>) returns (out: set<string>)
    ensures out == AllTzids(children)
    decreases children
  {
    out := {};
    for i := 0 to |children|
      invariant out == AllTzids(children[..i])
    {
      var c := children[i];
      var names := c.props.Keys;
      ghost var done: set<string> := {};
      ghost var before := out;
      while names != {}
        invariant done + names == c.props.Keys
        invariant out == before + (set name, p | name in c.props && name in done && p in c.props[name] && Param(p, "TZID") != "" :: Param(p, "TZID"))
        decreases names
      {
        var name :| name in names;
        ghost var sofar := out;
        for k := 0 to |c.props[name]|
          invariant out == sofar + (set p | p in c.props[name][..k] && Param(p, "TZID") != "" :: Param(p, "TZID"))
        {
          assert c.props[name][..k + 1] == c.props[name][..k] + [c.props[name][k]];
          var tzid := Param(c.props[name][k], "TZID");
          if tzid != "" { out := out + {tzid}; }
        }
        assert c.props[name][..|c.props[name]|] == c.props[name];
        names, done := names - {name}, done + {name};
      }
      assert out == before + PropTzids(c.props);
      var nested := ReferencedTzids(c.children);
      out := out + nested;
      assert children[..i + 1][..i] == children[..i];
    }
    assert children[..|children|] == children;
  }

  // ----- BundleTimezones -----

  /** The names for which the calendar already holds a VTIMEZONE child. */
  function PresentZones(children: seq<Component>): set<string> {
    set c | c in children && c.name == VTIMEZONE && Has(c, "TZID") :: ValueOf(c, "TZID")
  }

  /** The generated components for those names that are absent and resolvable. */
  function Generated(names: seq<string>, present: set<string>, zones: ZoneDb): (r: seq<Component>)
    ensures forall c :: c in r <==> exists n :: n in names && n !in present && zones(n) == Some(c)
  {
    if names == [] then []
    else
      var k := |names| - 1;
      Generated(names[..k], present, zones) +
      if names[k] !in present && zones(names[k]).Some? then [zones(names[k]).value] else []
  }

  ghost function Injected(children: seq<Component>, zones: ZoneDb): seq<Component> {
    Generated(SortedNames(AllTzids(children)), PresentZones(children), zones)
  }

  /** The calendar with its missing VTIMEZONEs placed ahead of everything. */
  ghost function Bundle(cal: Component, zones: ZoneDb): Component {
    cal.(children := Injected(cal.children, zones) + cal.children)
  }

  method CollectPresent(children: seq<Component>) returns (present: set<string>)
    ensures present == PresentZones(children)
  {
    present := {};
    for i := 0 to |children|
      invariant present == PresentZones(children[..i])
    {
      var c := children[i];
      assert children[..i + 1] == children[..i] + [c];
      if c.name == VTIMEZONE && Get(c.props, "TZID").Some? {
        present := present + {Get(c.props, "TZID").value.value};
      }
    }
    assert children[..|children|] == children;
  }

  method Generate(names: seq<string>, present: set<string>, zones: ZoneDb) returns (injected: seq<Component>)
    ensures injected == Generated(names, present, zones)
  {
    injected := [];
    for i := 0 to |names|
      invariant injected == Generated(names[..i], present, zones)
    {
      assert names[..i + 1][..i] == names[..i];
      if names[i] !in present {
        var vtz := zones(names[i]);
        if vtz.Some? { injected := injected + [vtz.value]; }
      }
    }
    assert names[..|names|] == names;
  }

  method BundleTimezones(cal: Component, zones: ZoneDb) returns (out: Component)
    ensures out == Bundle(cal, zones)
  {
    var wanted := ReferencedTzids(cal.children);
    if |wanted| == 0 {
      assert Injected(cal.children, zones) + cal.children == cal.children;
      return cal;
    }
    var present := CollectPresent(cal.children);
    var names := SortNames(wanted);
    var injected := Generate(names, present, zones);
    out := cal.(children := injected + cal.children);
  }

  // ----- What bundling guarantees -----

  lemma {:induction false} GeneratedAscends(names: seq<string>, present: set<string>, zones: ZoneDb, i: nat, j: nat)
    requires WellFormedZones(zones) && forall i, j :: 0 <= i < j < |names| ==> Leq(names[i], names[j]) && names[i] != names[j]
    requires i < j < |Generated(names, present, zones)|
    ensures Before(Generated(names, present, zones)[i], Generated(names, present, zones)[j])
  {
    var n := |names| - 1;
    var earlier := Generated(names[..n], present, zones);
    if j < |earlier| {
      GeneratedAscends(names[..n], present, zones, i, j);
    } else {
      GeneratedBefore(names, present, zones, earlier[i]);
    }
  }

  lemma {:induction false} GeneratedBefore(names: seq<string>, present: set<string>, zones: ZoneDb, c: Component)
    requires WellFormedZones(zones) && names != [] && zones(names[|names| - 1]).Some?
    requires forall i, j :: 0 <= i < j < |names| ==> Leq(names[i], names[j]) && names[i] != names[j]
    requires c in Generated(names[..|names| - 1], present, zones)
    ensures Before(c, zones(names[|names| - 1]).value)
  {
    var m :| m in names[..|names| - 1] && m !in present && zones(m) == Some(c);
    var i :| 0 <= i < |names| - 1 && names[..|names| - 1][i] == m;
    assert names[i] == m;
  }

  /** Its zone has the smaller name. */
  ghost predicate Before(c: Component, d: Component) {
    Leq(ValueOf(c, "TZID"), ValueOf(d, "TZID")) && ValueOf(c, "TZID") != ValueOf(d, "TZID")
  }

  /** What bundling puts ahead: in ascending order of their names, each once, the
      zones that the calendar refers to, does not hold and that can be generated. */
  lemma {:induction false} InjectedExactly(cal: Component, zones: ZoneDb, c: Component) returns (injected: seq<Component>)
    requires WellFormedZones(zones)
    ensures Bundle(cal, zones) == cal.(children := injected + cal.children)
    ensures forall i, j :: 0 <= i < j < |injected| ==> Before(injected[i], injected[j])
    ensures c in injected <==>
      exists n :: n in AllTzids(cal.children) && n !in PresentZones(cal.children) && zones(n) == Some(c)
  {
    injected := Injected(cal.children, zones);
    InjectedMembers(cal.children, zones, c);
    forall i, j | 0 <= i < j < |injected| ensures Before(injected[i], injected[j]) {
      InjectedPair(cal.children, zones, i, j);
    }
  }

  lemma {:induction false} InjectedPair(children: seq<Component>, zones: ZoneDb, i: nat, j: nat)
    requires WellFormedZones(zones) && i < j < |Injected(children, zones)|
    ensures Before(Injected(children, zones)[i], Injected(children, zones)[j])
  {
    GeneratedAscends(SortedNames(AllTzids(children)), PresentZones(children), zones, i, j);
  }

  lemma {:induction false} InjectedMembers(children: seq<Component>, zones: ZoneDb, c: Component)
    ensures c in Injected(children, zones) <==>
      exists n :: n in AllTzids(children) && n !in PresentZones(children) && zones(n) == Some(c)
  {
    var names := SortedNames(AllTzids(children));
    if c in Injected(children, zones) {
      var n :| n in names && n !in PresentZones(children) && zones(n) == Some(c);
      assert n in AllTzids(children);
    }
    if n :| n in AllTzids(children) && n !in PresentZones(children) && zones(n) == Some(c) {
      assert n in names;
    }
  }

  /** Every referenced, resolvable zone has its VTIMEZONE in the result; what was
      injected stands ahead of the old children, which keep their order. */
  lemma {:induction false} BundleResolves(cal: Component, zones: ZoneDb)
    requires WellFormedZones(zones)
    ensures var out := Bundle(cal, zones).children; var k := |out| - |cal.children|;
      && k >= 0 && out[k..] == cal.children
      && (forall i :: 0 <= i < k ==> out[i].name == VTIMEZONE)
      && (forall n :: n in AllTzids(cal.children) && zones(n).Some? ==> n in PresentZones(out))
      && (forall n :: n in AllTzids(cal.children) && n !in PresentZones(cal.children) && zones(n).Some? ==>
            zones(n).value in out[..k])
  {
    var injected := Injected(cal.children, zones);
    var out := Bundle(cal, zones).children;
    assert out[|injected|..] == cal.children && out[..|injected|] == injected;
    forall i | 0 <= i < |injected| ensures out[i].name == VTIMEZONE {
      assert injected[i] in injected;
    }
    forall n | n in AllTzids(cal.children) && zones(n).Some? ensures n in PresentZones(out) {
      if n in PresentZones(cal.children) {
        var c :| c in cal.children && c.name == VTIMEZONE && Has(c, "TZID") && ValueOf(c, "TZID") == n;
        assert c in out;
      } else {
        assert zones(n).value in injected;
        assert zones(n).value in out;
      }
    }
  }

  /** Bundling twice is bundling once. */
  lemma {:induction false} BundleIdempotent(cal: Component, zones: ZoneDb)
    requires WellFormedZones(zones)
    ensures Bundle(Bundle(cal, zones), zones) == Bundle(cal, zones)
  {
    var injected := Injected(cal.children, zones);
    var once := Bundle(cal, zones);
    forall c | c in injected ensures Tzids(c) == {} {}
    NoTzids(injected);
    AllTzidsConcat(injected, cal.children);
    assert AllTzids(once.children) == AllTzids(cal.children);
    BundleResolves(cal, zones);
    var again := Injected(once.children, zones);
    forall c ensures c !in again {
      assert forall n :: n in AllTzids(cal.children) && zones(n).Some? ==> n in PresentZones(once.children);
    }
    NonEmptyHasMember(again);
    assert again + once.children == once.children;
  }
}
