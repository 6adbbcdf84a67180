/** Resolution of a view's field rules (internal/views/views.go). */
module ViewRules {
  import opened Components

  /** Rule words come from stored text, so an unrecognised word can occur. */
  datatype Rule = Keep | Strip | Replace | Unrecognised(word: string)

  type Rules = map<string, Rule>

  datatype Spec = Spec(
    preset: string,
    busyLabel: string,
    includePrivate: bool,
    includeCancelled: bool,
    includeTentative: bool,
    includeTransparent: bool,
    fieldOverrides: Rules)

  const DETAILS: seq<string> :=
    ["DESCRIPTION", "LOCATION", "URL", "ATTENDEE", "ORGANIZER", "CATEGORIES", "GEO", "ATTACH",
     "COMMENT", "RESOURCES", "PRIORITY", "CLASS", "CREATED"]

  const MANAGED: seq<string> :=
    ["SUMMARY", "STATUS", "TRANSP", "VALARM", "LAST-MODIFIED", "DTSTAMP", "SEQUENCE"] + DETAILS

  /** Timing and identity properties, kept unless a rule manages them. */
  const STRUCTURAL: set<string> :=
    {"UID", "DTSTART", "DTEND", "DURATION", "RRULE", "RDATE", "EXDATE", "RECURRENCE-ID"}

  /** The default rule of a managed field under a preset. */
  function PresetRule(preset: string, field: string): Rule {
    if field == "VALARM" then Strip
    else if field == "SUMMARY" && preset == "busy" then Replace
    else if field in DETAILS && (preset == "busy" || preset == "titles") then Strip
    else Keep
  }

  function PresetTable(preset: string): Rules {
    map field | field in MANAGED :: PresetRule(preset, field)
  }

  method StripAll(rules: Rules, fields: seq<string>) returns (out: Rules)
    ensures out.Keys == rules.Keys + (set f | f in fields)
    ensures forall f :: f in out ==> out[f] == if f in fields then Strip else rules[f]
  {
    out := rules;
    for i := 0 to |fields|
      invariant out.Keys == rules.Keys + (set f | f in fields[..i])
      invariant forall f :: f in out ==> out[f] == if f in fields[..i] then Strip else rules[f]
    {
      assert fields[..i + 1] == fields[..i] + [fields[i]];
      out := out[fields[i] := Strip];
    }
    assert fields[..|fields|] == fields;
  }

  lemma {:induction false} DetailsManaged(f: string)
    requires f in DETAILS
    ensures f in MANAGED
  {
    assert forall a: seq<string>, b: seq<string> :: f in b ==> f in a + b;
  }

  lemma {:induction false} PresetTableExact(rules: Rules, preset: string)
    requires rules.Keys == PresetTable(preset).Keys
    requires forall f :: f in rules ==> rules[f] == PresetRule(preset, f)
    ensures rules == PresetTable(preset)
  {}

  method StripDetails(rules: Rules) returns (out: Rules)
    requires forall f :: f in MANAGED ==> f in rules
    ensures out.Keys == rules.Keys
    ensures forall f :: f in out ==> out[f] == if f in DETAILS then Strip else rules[f]
  {
    out := StripAll(rules, DETAILS);
    forall f | f in DETAILS ensures f in rules { DetailsManaged(f); }
  }

  method PresetRules(preset: string) returns (rules: Rules)
    ensures rules == PresetTable(preset)
  {
    rules := map field | field in MANAGED :: if field == "VALARM" then Strip else Keep;
    if preset == "titles" {
      rules := StripDetails(rules);
    } else if preset == "busy" {
      rules := rules["SUMMARY" := Replace];
      rules := StripDetails(rules);
    }
    SummaryIsNoDetail();
    PresetTableExact(rules, preset);
  }

  lemma {:induction false} SummaryIsNoDetail()
    ensures "SUMMARY" in MANAGED && "VALARM" in MANAGED && "SUMMARY" !in DETAILS
  {
    assert MANAGED[0] == "SUMMARY" && MANAGED[3] == "VALARM";
    assert forall f :: f in DETAILS ==> |f| != 7 || f[0] != 'S';
  }

  /** The preset's rules with the view's own overrides on top. */
  function Effective(spec: Spec): Rules {
    PresetTable(spec.preset) + spec.fieldOverrides
  }

  method EffectiveRules(spec: Spec) returns (rules: Rules)
    ensures rules == Effective(spec)
  {
    rules := PresetRules(spec.preset);
    var names := spec.fieldOverrides.Keys;
    while names != {}
      invariant names <= spec.fieldOverrides.Keys
      invariant rules.Keys == PresetTable(spec.preset).Keys + (spec.fieldOverrides.Keys - names)
      invariant forall f :: f in rules ==>
        rules[f] == if f in spec.fieldOverrides && f !in names then spec.fieldOverrides[f] else PresetRule(spec.preset, f)
      decreases names
    {
      var name :| name in names;
      rules := rules[name := spec.fieldOverrides[name]];
      names := names - {name};
    }
  }

  function BusyLabel(spec: Spec): string {
    if spec.busyLabel != "" then spec.busyLabel else "Busy"
  }

  /** The rule for a field, if any. */
  function RuleFor(rules: Rules, field: string): Option<Rule> {
    if field in rules then Some(rules[field]) else None
  }

  /** Overrides stay within the fields a view manages, as the form handler
      enforces (internal/web/views_handlers.go). */
  predicate ManagedOverrides(spec: Spec) {
    forall f :: f in spec.fieldOverrides ==> f in MANAGED
  }

  lemma {:induction false} StructuralUnmanaged(spec: Spec, field: string)
    requires ManagedOverrides(spec) && field in STRUCTURAL
    ensures RuleFor(Effective(spec), field) == None
  {
    assert field !in MANAGED;
  }
}
