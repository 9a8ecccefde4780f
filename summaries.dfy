/** The ruleset summary: one human-readable line for each criterion of a
    fixed set whose selection or bounds differ from the no-op default. */
module Summaries {
  import opened Wrappers
  import opened Strings
  import opened Tables
  import opened Rulesets

  /** The upper bound the source's rulesets use for "no maximum". */
  const Unbounded: real := 10000000.0

  /** `criteria[key]`: the first criterion with that key. */
  function FindCriterion(cs: seq<Criterion>, key: string): (r: Option<Criterion>)
    ensures r.Some? <==> exists i :: 0 <= i < |cs| && cs[i].key == key
    ensures r.Some? ==> r.value in cs && r.value.key == key
  {
    if cs == [] then None
    else if cs[0].key == key then Some(cs[0])
    else
      var r := FindCriterion(cs[1..], key);
      assert forall i :: 1 <= i < |cs| ==> cs[i] == cs[1..][i - 1];
      r
  }

  /** `criterion[name]`: the setting of the first variable with that name. */
  function FindVariable(vs: seq<Variable>, name: string): (r: Option<Setting>)
    ensures r.Some? <==> exists i :: 0 <= i < |vs| && vs[i].name == name
    ensures r.Some? ==> Variable(name, r.value) in vs
  {
    if vs == [] then None
    else if vs[0].name == name then Some(vs[0].setting)
    else
      var r := FindVariable(vs[1..], name);
      assert forall i :: 1 <= i < |vs| ==> vs[i] == vs[1..][i - 1];
      r
  }

  /** `criteria[key][name]`, raising `KeyError` when either is missing. */
  function Lookup(cs: seq<Criterion>, key: string, name: string): Result<Setting, Failure> {
    match FindCriterion(cs, key)
    case None => Err(MissingKey(key))
    case Some(c) =>
      match FindVariable(c.variables, name)
      case None => Err(MissingKey(name))
      case Some(s) => Ok(s)
  }

  /** The phrase for a selection mode: "not in" exactly for `Exclude`. */
  function ModePhrase(mode: string): (r: string)
    ensures r == "not in" <==> mode == "Exclude"
    ensures r == "in" <==> mode != "Exclude"
  {
    if mode == "Exclude" then "not in" else "in"
  }

  /** The line for one offense criterion: present only for a non-empty
      `types` list, and reading `mode` only then. */
  function OffenseLine(s: Setting, scope: string): (r: Result<seq<string>, Failure>)
    ensures r.Ok? <==> s.types.Present? && (s.types.value != [] ==> s.mode.Present?)
    ensures r.Ok? ==> |r.value| <= 1 && (|r.value| == 1 <==> s.types.value != [])
    ensures r.Ok? && |r.value| == 1 ==>
      r.value[0] == scope + " offenses " + ModePhrase(s.mode.value) + " " + Join(s.types.value, ", ")
  {
    if s.types.Absent? then Err(MissingKey("types"))
    else if s.types.value == [] then Ok([])
    else if s.mode.Absent? then Err(MissingKey("mode"))
    else Ok([scope + " offenses " + ModePhrase(s.mode.value) + " " + Join(s.types.value, ", ")])
  }

  /** The line for one range criterion: present iff `min > floor` or
      `max < Unbounded`. Both entries are read first; `min` is compared
      first and `max` only when that comparison is false, and comparing
      `None` raises `TypeError`. */
  function RangeLine(s: Setting, floor: real, title: string, unit: string,
                     show: Option<real> -> string): (r: Result<seq<string>, Failure>)
    ensures r.Ok? <==>
      s.min.Present? && s.max.Present? && s.min.value.Some? && (s.min.value.value > floor || s.max.value.Some?)
    ensures r.Ok? ==> |r.value| <= 1
    ensures r.Ok? ==>
      (|r.value| == 1 <==> s.min.value.value > floor || (s.max.value.Some? && s.max.value.value < Unbounded))
  {
    if s.min.Absent? then Err(MissingKey("min"))
    else if s.max.Absent? then Err(MissingKey("max"))
    else
      var lo, hi := s.min.value, s.max.value;
      var line := title + " between " + show(lo) + " and " + show(hi) + " " + unit;
      if lo.None? then Err(NotNumeric("min"))
      else if lo.value > floor then Ok([line])
      else if hi.None? then Err(NotNumeric("max"))
      else if hi.value < Unbounded then Ok([line])
      else Ok([])
  }

  /** 1 for a criterion that gets a line, 0 for one that does not. */
  function Flag(b: bool): nat {
    if b then 1 else 0
  }

  /** An offense criterion away from its default: it selects some types. */
  predicate Selected(s: Result<Setting, Failure>) {
    s.Ok? && s.value.types.Present? && s.value.types.value != []
  }

  /** A range criterion away from its default: a minimum above `floor` or a
      maximum below `Unbounded`. */
  predicate Narrowed(s: Result<Setting, Failure>, floor: real) {
    s.Ok? && s.value.min.Present? && s.value.min.value.Some? &&
    (s.value.min.value.value > floor ||
     (s.value.max.Present? && s.value.max.value.Some? && s.value.max.value.value < Unbounded))
  }

  /** The line for the offense criterion `criteria[key][name]`. */
  function OffenseLineOf(cs: seq<Criterion>, key: string, name: string, scope: string): (r: Result<seq<string>, Failure>)
    ensures r.Ok? ==> |r.value| == Flag(Selected(Lookup(cs, key, name)))
  {
    var s := Lookup(cs, key, name);
    if s.Err? then Err(s.error) else OffenseLine(s.value, scope)
  }

  /** The line for the range criterion `criteria[key][name]`. */
  function RangeLineOf(cs: seq<Criterion>, key: string, name: string, floor: real, title: string, unit: string,
                       show: Option<real> -> string): (r: Result<seq<string>, Failure>)
    ensures r.Ok? ==> |r.value| == Flag(Narrowed(Lookup(cs, key, name), floor))
  {
    var s := Lookup(cs, key, name);
    if s.Err? then Err(s.error) else RangeLine(s.value, floor, title, unit, show)
  }

  /** The lines for the prior, current and controlling offense criteria: one
      for each of them that selects some types. */
  function OffenseSummary(cs: seq<Criterion>): (r: Result<seq<string>, Failure>)
    ensures r.Ok? ==> |r.value| <= 3
    ensures r.Ok? ==> |r.value| == Flag(Selected(Lookup(cs, "prior_commitments", "Offense")))
                                 + Flag(Selected(Lookup(cs, "current_commitments", "Offense")))
                                 + Flag(Selected(Lookup(cs, "controlling_offense", "Controlling Offense")))
  {
    var p1 := OffenseLineOf(cs, "prior_commitments", "Offense", "Prior");
    if p1.Err? then Err(p1.error)
    else
      var p2 := OffenseLineOf(cs, "current_commitments", "Offense", "Current");
      if p2.Err? then Err(p2.error)
      else
        var p3 := OffenseLineOf(cs, "controlling_offense", "Controlling Offense", "Controlling");
        if p3.Err? then Err(p3.error)
        else Ok(p1.value + p2.value + p3.value)
  }

  /** The lines for the sentence-length and time-served criteria: one for
      each of them whose bounds are narrower than the default. */
  function RangeSummary(cs: seq<Criterion>, show: Option<real> -> string): (r: Result<seq<string>, Failure>)
    ensures r.Ok? ==> |r.value| <= 2
    ensures r.Ok? ==> |r.value| == Flag(Narrowed(Lookup(cs, "sentence_length", "Aggregate Sentence in Months"), 240.0))
                                 + Flag(Narrowed(Lookup(cs, "sentence_served", "time served in years"), 10.0))
  {
    var p4 := RangeLineOf(cs, "sentence_length", "Aggregate Sentence in Months", 240.0, "Sentence length", "months", show);
    if p4.Err? then Err(p4.error)
    else
      var p5 := RangeLineOf(cs, "sentence_served", "time served in years", 10.0, "Time served", "years", show);
      if p5.Err? then Err(p5.error)
      else Ok(p4.value + p5.value)
  }

  /** `generate_ruleset_summary` as a function of the criteria: the lines in
      their fixed order, or the failure the first missing entry raises. */
  function Summary(cs: seq<Criterion>, show: Option<real> -> string): (r: Result<seq<string>, Failure>)
    ensures r.Ok? ==> |r.value| <= 5
    ensures r.Ok? ==> |r.value| == ActiveCriteria(cs)
  {
    var offenses := OffenseSummary(cs);
    if offenses.Err? then Err(offenses.error)
    else
      var ranges := RangeSummary(cs, show);
      if ranges.Err? then Err(ranges.error)
      else Ok(offenses.value + ranges.value)
  }

  /** How many of the five summarised criteria are away from their default. */
  function ActiveCriteria(cs: seq<Criterion>): nat {
    Flag(Selected(Lookup(cs, "prior_commitments", "Offense")))
    + Flag(Selected(Lookup(cs, "current_commitments", "Offense")))
    + Flag(Selected(Lookup(cs, "controlling_offense", "Controlling Offense")))
    + Flag(Narrowed(Lookup(cs, "sentence_length", "Aggregate Sentence in Months"), 240.0))
    + Flag(Narrowed(Lookup(cs, "sentence_served", "time served in years"), 10.0))
  }

  /** A setting at its no-op default for an offense criterion. */
  predicate NoSelection(r: Result<Setting, Failure>) {
    r.Ok? && r.value.types == Present([])
  }

  /** A setting at its no-op default for a range criterion. */
  predicate DefaultRange(r: Result<Setting, Failure>, floor: real) {
    r.Ok? && r.value.min.Present? && r.value.max.Present? &&
    r.value.min.value.Some? && r.value.min.value.value <= floor &&
    r.value.max.value.Some? && r.value.max.value.value >= Unbounded
  }

  /** A ruleset whose five summarised criteria are all at their defaults is
      summarised by no line at all. */
  lemma DefaultRulesetSummary(cs: seq<Criterion>, show: Option<real> -> string)
    requires NoSelection(Lookup(cs, "prior_commitments", "Offense"))
    requires NoSelection(Lookup(cs, "current_commitments", "Offense"))
    requires NoSelection(Lookup(cs, "controlling_offense", "Controlling Offense"))
    requires DefaultRange(Lookup(cs, "sentence_length", "Aggregate Sentence in Months"), 240.0)
    requires DefaultRange(Lookup(cs, "sentence_served", "time served in years"), 10.0)
    ensures Summary(cs, show) == Ok([])
  {
  }
}
