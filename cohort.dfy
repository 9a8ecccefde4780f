/** The cohort generator: the session object that owns the loaded tables, the
    shared identifier column, the ruleset and the disqualified-identifier set,
    and whose methods update them in place. */
module Cohort {
  import opened Wrappers
  import opened Strings
  import opened Tables
  import opened Evaluators
  import opened Rulesets
  import opened Summaries

  /** The `truth_count` loop of `get_raw_data`: whether the identifier column
      is present in the table of every listed category. */
  method SharesId(tables: map<string, Table>, cats: seq<string>, idCol: string) returns (shared: bool)
    requires forall i :: 0 <= i < |cats| ==> cats[i] in tables
    ensures shared <==> forall i :: 0 <= i < |cats| ==> idCol in tables[cats[i]].header
  {
    var truthCount := 0;
    var k := 0;
    while k < |cats|
      invariant 0 <= k <= |cats|
      invariant 0 <= truthCount <= k
      invariant truthCount == k <==> forall i :: 0 <= i < k ==> idCol in tables[cats[i]].header
    {
      if idCol in tables[cats[k]].header {
        truthCount := truthCount + 1;
      }
      k := k + 1;
    }
    shared := truthCount == |cats|;
  }

  /** The first three appends of `generate_ruleset_summary`: the prior,
      current and controlling offense lines, each only for a non-empty
      selection. */
  method AppendOffenseLines(parts: seq<string>, cs: seq<Criterion>) returns (r: Result<seq<string>, Failure>)
    ensures r.Ok? <==> OffenseSummary(cs).Ok?
    ensures r.Ok? ==> r.value == parts + OffenseSummary(cs).value
  {
    var summaryParts := parts;
    var p1 := OffenseLineOf(cs, "prior_commitments", "Offense", "Prior");
    if p1.Err? { return Err(p1.error); }
    summaryParts := summaryParts + p1.value;

    var p2 := OffenseLineOf(cs, "current_commitments", "Offense", "Current");
    if p2.Err? { return Err(p2.error); }
    AppendAssoc(parts, p1.value, p2.value);
    summaryParts := summaryParts + p2.value;

    var p3 := OffenseLineOf(cs, "controlling_offense", "Controlling Offense", "Controlling");
    if p3.Err? { return Err(p3.error); }
    AppendAssoc(parts, p1.value + p2.value, p3.value);
    summaryParts := summaryParts + p3.value;
    return Ok(summaryParts);
  }

  /** The last two appends of `generate_ruleset_summary`: the sentence-length
      and time-served lines, each only for a bound away from its default. */
  method AppendRangeLines(parts: seq<string>, cs: seq<Criterion>, show: Option<real> -> string)
    returns (r: Result<seq<string>, Failure>)
    ensures r.Ok? <==> RangeSummary(cs, show).Ok?
    ensures r.Ok? ==> r.value == parts + RangeSummary(cs, show).value
  {
    var summaryParts := parts;
    var p4 := RangeLineOf(cs, "sentence_length", "Aggregate Sentence in Months", 240.0, "Sentence length", "months", show);
    if p4.Err? { return Err(p4.error); }
    summaryParts := summaryParts + p4.value;

    var p5 := RangeLineOf(cs, "sentence_served", "time served in years", 10.0, "Time served", "years", show);
    if p5.Err? { return Err(p5.error); }
    AppendAssoc(parts, p4.value, p5.value);
    summaryParts := summaryParts + p5.value;
    return Ok(summaryParts);
  }

  lemma AppendAssoc(a: seq<string>, b: seq<string>, c: seq<string>)
    ensures (a + b) + c == a + (b + c)
  {
  }

  class CohortGenerator {
    const name: string
    const desc: string
    /** The code outside the engine: cleaners, the implication expander and
        number display. */
    const ext: Collaborators

    /** The raw tables, by category (the source's `<category>_raw` attributes). */
    var rawTables: map<string, Table>
    /** The qualifying tables, by category (the source's `<category>` attributes). */
    var responsive: map<string, Table>
    /** The identifier column shared by all tables, or `None` when it is not shared. */
    var id: Option<string>
    var offenseCategories: Option<seq<CategoryRow>>
    var ruleset: seq<Criterion>
    var disqualIds: set<Value>
    var rulesetSummary: seq<string>

    ghost predicate Valid()
      reads this
    {
      AllWellFormed(rawTables)
    }

    constructor (name: string, desc: string, ext: Collaborators)
      ensures Valid()
      ensures this.name == name && this.desc == desc && this.ext == ext
      ensures rawTables == map[] && responsive == map[] && id == None && offenseCategories == None
      ensures ruleset == [] && disqualIds == {} && rulesetSummary == []
    {
      this.name := name;
      this.desc := desc;
      this.ext := ext;
      rawTables := map[];
      responsive := map[];
      id := None;
      offenseCategories := None;
      ruleset := [];
      disqualIds := {};
      rulesetSummary := [];
    }

    /** `get_raw_data` after loading: `loaded` holds the table read for each
        category in `cats`. The identifier is cleaned and kept only when every
        one of these tables has it as a column. */
    method GetRawData(loaded: map<string, Table>, cats: seq<string>, idVar: string)
      requires Valid() && AllWellFormed(loaded)
      requires loaded.Keys == set i | 0 <= i < |cats| :: cats[i]
      modifies this`rawTables, this`id
      ensures Valid()
      ensures rawTables == old(rawTables) + loaded
      ensures var v := ext.cleanId(idVar);
        id == if forall i :: 0 <= i < |cats| ==> v in loaded[cats[i]].header then Some(v) else None
    {
      rawTables := rawTables + loaded;
      var v := ext.cleanId(idVar);
      assert forall i :: 0 <= i < |cats| ==> cats[i] in loaded;
      var shared := SharesId(rawTables, cats, v);
      id := if shared then Some(v) else None;
    }

    /** `get_offense_categorizations`: the category table is read with the
        CSV reader when the path mentions "csv" and then with the Excel reader
        when it mentions "xlsx", the later read winning; a path mentioning
        neither leaves the table as it was. */
    method GetOffenseCategorizations(path: string, readCsv: string -> seq<CategoryRow>,
                                     readExcel: string -> seq<CategoryRow>)
      modifies this`offenseCategories
      ensures offenseCategories ==
        if Contains(path, "xlsx") then Some(readExcel(path))
        else if Contains(path, "csv") then Some(readCsv(path))
        else old(offenseCategories)
    {
      if Contains(path, "csv") {
        offenseCategories := Some(readCsv(path));
      }
      if Contains(path, "xlsx") {
        offenseCategories := Some(readExcel(path));
      }
    }

    method GetRuleset(criteria: seq<Criterion>)
      modifies this`ruleset
      ensures ruleset == criteria
    {
      ruleset := criteria;
    }

    /** What one criterion is evaluated against in this session. */
    function Session(prefix: string, cleanColNames: bool): Env
      reads this
    {
      Env(rawTables, id, offenseCategories, ext, prefix, cleanColNames)
    }

    /** `apply_offense_rules`: unions the identifiers the offense rule finds
        into `disqualIds`; on a failure the set is left as it was. */
    method ApplyOffenseRules(data: string, selOff: set<string>, how: string, prefix: string, offenseVar: string)
      returns (ok: bool)
      requires Valid()
      modifies this`disqualIds
      ensures var r := OffenseRule(rawTables, id, data, selOff, how, prefix, offenseVar, ext.cleanOffense, old(disqualIds));
        ok == r.Ok? && disqualIds == if r.Ok? then old(disqualIds) + r.value else old(disqualIds)
      ensures old(disqualIds) <= disqualIds
    {
      if data !in rawTables {
        return false;
      }
      var df := rawTables[data];
      if id.None? || id.value !in df.header || offenseVar !in df.header {
        return false;
      }
      var rows := Project(df, id.value, offenseVar);
      if !AllText(Restrict(rows, disqualIds)) {
        return false;
      }
      var hits := OffenseHits(rows, disqualIds, selOff, how, prefix, ext.cleanOffense);
      disqualIds := disqualIds + hits;
      ok := true;
    }

    /** `apply_sentence_length_rules`: unions the identifiers with a value
        outside `[min, max]` into `disqualIds`; on a failure the set is left
        as it was. */
    method ApplySentenceLengthRules(data: string, sentenceVar: string, maxLength: Option<real>, minLength: Option<real>)
      returns (ok: bool)
      requires Valid()
      modifies this`disqualIds
      ensures var r := RangeRule(rawTables, id, data, sentenceVar, minLength, maxLength, old(disqualIds));
        ok == r.Ok? && disqualIds == if r.Ok? then old(disqualIds) + r.value else old(disqualIds)
      ensures old(disqualIds) <= disqualIds
    {
      if data !in rawTables {
        return false;
      }
      var df := rawTables[data];
      if id.None? || id.value !in df.header || sentenceVar !in df.header {
        return false;
      }
      var rows := Project(df, id.value, sentenceVar);
      if !AllNumeric(Restrict(rows, disqualIds)) {
        return false;
      }
      var hits := RangeHits(rows, disqualIds, minLength, maxLength);
      disqualIds := disqualIds + hits;
      ok := true;
    }

    /** `apply_ruleset`: starts from an empty disqualified set and applies the
        criteria in their stored order, skipping any that fails. */
    method ApplyRuleset(prefix: string, cleanColNames: bool)
      requires Valid()
      modifies this`disqualIds
      ensures disqualIds == Accumulate(Session(prefix, cleanColNames), ruleset, {})
    {
      disqualIds := {};
      var env := Session(prefix, cleanColNames);
      var k := 0;
      while k < |ruleset|
        invariant 0 <= k <= |ruleset|
        invariant env == Session(prefix, cleanColNames)
        invariant disqualIds == Accumulate(env, ruleset[..k], {})
      {
        var c := ruleset[k];
        match Classify(c.key) {
          case OffenseMatch =>
            var q := ParseOffense(env, c);
            if q.Ok? {
              var applied := ApplyOffenseRules(q.value.data, q.value.sel, q.value.how, prefix, q.value.column);
            }
          case NumericRange =>
            var q := ParseRange(env, c);
            if q.Ok? {
              var applied := ApplySentenceLengthRules(q.value.data, q.value.column, q.value.max, q.value.min);
            }
          case Unrecognized =>
        }
        TakeOneMore(ruleset, k);
        AccumulateSnoc(env, ruleset[..k], c, {});
        k := k + 1;
      }
      assert ruleset[..|ruleset|] == ruleset;
    }

    /** A category whose qualifying rows can be selected. */
    predicate Filterable(cat: string)
      reads this
    {
      cat in rawTables && id.Some? && id.value in rawTables[cat].header
    }

    /** `get_responsive_data`: for each category in turn, the raw table
        without the disqualified identifiers' rows. It stops at the first
        category whose table or identifier column is missing; `processed`
        counts the categories done before that. */
    method GetResponsiveData(cats: seq<string>) returns (processed: nat)
      requires Valid()
      modifies this`responsive
      ensures processed <= |cats|
      ensures forall i :: 0 <= i < processed ==> Filterable(cats[i])
      ensures processed < |cats| ==> !Filterable(cats[processed])
      ensures forall c :: c in responsive <==> c in old(responsive) || c in cats[..processed]
      ensures forall c :: c in cats[..processed] ==>
        Filterable(c) && responsive[c] == Qualifying(rawTables[c], id.value, disqualIds)
      ensures forall c :: c in old(responsive) && c !in cats[..processed] ==> responsive[c] == old(responsive)[c]
    {
      processed := 0;
      while processed < |cats|
        invariant processed <= |cats|
        invariant forall i :: 0 <= i < processed ==> Filterable(cats[i])
        invariant forall c :: c in responsive <==> c in old(responsive) || c in cats[..processed]
        invariant forall c :: c in cats[..processed] ==> responsive[c] == Qualifying(rawTables[c], id.value, disqualIds)
        invariant forall c :: c in old(responsive) && c !in cats[..processed] ==> responsive[c] == old(responsive)[c]
      {
        var cat := cats[processed];
        if !Filterable(cat) {
          return;
        }
        responsive := responsive[cat := Qualifying(rawTables[cat], id.value, disqualIds)];
        TakeOneMore(cats, processed);
        processed := processed + 1;
      }
    }

    /** `generate_ruleset_summary`: builds the summary lines one append at a
        time and stores them; a missing entry leaves the stored summary as it
        was. */
    method GenerateRulesetSummary() returns (ok: bool)
      modifies this`rulesetSummary
      ensures var r := Summary(ruleset, ext.showNumber);
        ok == r.Ok? && rulesetSummary == if r.Ok? then r.value else old(rulesetSummary)
    {
      var summaryParts := AppendOffenseLines([], ruleset);
      if summaryParts.Err? {
        return false;
      }
      assert summaryParts.value == OffenseSummary(ruleset).value;
      var allParts := AppendRangeLines(summaryParts.value, ruleset, ext.showNumber);
      if allParts.Err? {
        return false;
      }
      rulesetSummary := allParts.value;
      ok := true;
    }
  }
}
