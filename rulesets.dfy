/** Rulesets and the ruleset applier's specification: how one criterion is read,
    classified and dispatched, and how the disqualified set accumulates over the
    criteria in their stored order. */
module Rulesets {
  import opened Wrappers
  import opened Strings
  import opened Tables
  import opened Evaluators

  /** A dictionary entry that may be missing; reading a missing one raises `KeyError`. */
  datatype Field<+T> = Absent | Present(value: T)

  /** The `implications` entry of an offense criterion. A missing or `None`
      `perm`, `fix positions` or `placeholder` is `None`, as the source's
      `try`/`except` around each read makes it. */
  datatype ImplSpec = ImplSpec(codes: Field<map<string, seq<string>>>, perm: Option<int>,
                               fixPositions: Option<seq<int>>, placeholder: Option<string>)

  /** What the implication expander is called with. */
  datatype ImplArgs = ImplArgs(offenses: seq<string>, codes: map<string, seq<string>>, perm: Option<int>,
                               fixPositions: Option<seq<int>>, placeholder: Option<string>)

  /** The body under one variable name of a criterion: the entries the
      source reads from it. `min`/`max` hold `None` for a Python `None`. */
  datatype Setting = Setting(dataLabel: Field<string>, types: Field<seq<string>>, mode: Field<string>,
                             implications: Field<ImplSpec>, min: Field<Option<real>>, max: Field<Option<real>>)

  datatype Variable = Variable(name: string, setting: Setting)

  /** One criterion: its key and its variables in insertion order. */
  datatype Criterion = Criterion(key: string, variables: seq<Variable>)

  /** A row of the offense category table (columns `Type` and `Offenses`). */
  datatype CategoryRow = CategoryRow(category: string, offense: string)

  /** The code this model does not see, as uninterpreted functions:
      `utils.clean` on the identifier, `utils.clean` on a column name,
      `utils.clean_blk` on one offense value, `impl.gen_impl_off` (`None` when
      it raises) and Python's `str()` of a bound in the summary text. */
  datatype Collaborators = Collaborators(
    cleanId: string -> string,
    cleanColumn: string -> string,
    cleanOffense: string -> string,
    expand: ImplArgs -> Option<set<string>>,
    showNumber: Option<real> -> string)

  /** Everything one criterion is evaluated against. */
  datatype Env = Env(tables: map<string, Table>, id: Option<string>, categories: Option<seq<CategoryRow>>,
                     ext: Collaborators, prefix: string, cleanColNames: bool)

  datatype Kind = OffenseMatch | NumericRange | Unrecognized

  /** Dispatch by substring of the criterion key. */
  function Classify(key: string): Kind {
    if Contains(key, "commit") || Contains(key, "offense") then OffenseMatch
    else if Contains(key, "sentence") then NumericRange
    else Unrecognized
  }

  /** The dispatch in positional terms: a key goes to the offense evaluator
      iff "commit" or "offense" occurs in it, and to the range evaluator iff
      neither does and "sentence" does. */
  lemma ClassifyIff(key: string)
    ensures Classify(key) == OffenseMatch <==>
      (exists i :: OccursAt(key, "commit", i)) || (exists i :: OccursAt(key, "offense", i))
    ensures Classify(key) == NumericRange <==>
      !(exists i :: OccursAt(key, "commit", i)) && !(exists i :: OccursAt(key, "offense", i)) &&
      (exists i :: OccursAt(key, "sentence", i))
  {
    ContainsIff(key, "commit");
    ContainsIff(key, "offense");
    ContainsIff(key, "sentence");
  }

  /** The offense keys the source's rulesets use are dispatched to the
      offense rule. */
  lemma ClassifyOffenseKeys(key: string)
    ensures key in ["prior_commitments", "current_commitments", "controlling_offense"] ==> Classify(key) == OffenseMatch
  {
    if key == "prior_commitments" {
      assert OccursAt(key, "commit", 6);
      ClassifyIff(key);
    } else if key == "current_commitments" {
      assert OccursAt(key, "commit", 8);
      ClassifyIff(key);
    } else if key == "controlling_offense" {
      assert OccursAt(key, "offense", 12);
      ClassifyIff(key);
    }
  }

  /** A key with "sentence" at some position, lacking the letters 'm' and 'f'
      (so neither "commit" nor "offense"), is a range criterion. */
  lemma ClassifySentenceKey(key: string, i: int)
    requires OccursAt(key, "sentence", i)
    requires 'm' !in key && 'f' !in key
    ensures Classify(key) == NumericRange
  {
    ContainsIff(key, "sentence");
    AbsentLetter(key, "commit", 'm');
    AbsentLetter(key, "offense", 'f');
  }

  /** The sentence keys the source's rulesets use are dispatched to the
      range rule. */
  lemma ClassifySentenceKeys(key: string)
    ensures key in ["sentence_length", "sentence_served"] ==> Classify(key) == NumericRange
  {
    if key == "sentence_length" || key == "sentence_served" {
      ClassifySentenceKey(key, 0);
    }
  }

  /** `list(categories[categories["Type"].isin(types)]["Offenses"])`. */
  function SelectedOffenses(cats: seq<CategoryRow>, types: seq<string>): (r: seq<string>)
    ensures forall o :: o in r <==> exists i :: 0 <= i < |cats| && cats[i].category in types && cats[i].offense == o
  {
    if cats == [] then []
    else
      var rest := SelectedOffenses(cats[1..], types);
      assert forall i :: 1 <= i < |cats| ==> cats[i] == cats[1..][i - 1];
      if cats[0].category in types then [cats[0].offense] + rest else rest
  }

  /** The column name a criterion's first variable denotes. */
  function ColumnName(env: Env, name: string): string {
    if env.cleanColNames then env.ext.cleanColumn(name) else name
  }

  datatype OffenseQuery = OffenseQuery(data: string, sel: set<string>, how: string, column: string)

  datatype RangeQuery = RangeQuery(data: string, column: string, min: Option<real>, max: Option<real>)

  /** The arguments of the expander call for an offense setting. */
  function ExpanderArgs(cats: seq<CategoryRow>, s: Setting): ImplArgs
    requires s.types.Present? && s.implications.Present? && s.implications.value.codes.Present?
  {
    var im := s.implications.value;
    ImplArgs(SelectedOffenses(cats, s.types.value), im.codes.value, im.perm, im.fixPositions, im.placeholder)
  }

  /** The reads of an offense criterion inside the source's `try` block. */
  function ParseOffense(env: Env, c: Criterion): (r: Result<OffenseQuery, Failure>)
    ensures r.Ok? <==>
      |c.variables| > 0 && env.categories.Some? &&
      var s := c.variables[0].setting;
      s.dataLabel.Present? && s.types.Present? && s.mode.Present? &&
      s.implications.Present? && s.implications.value.codes.Present? &&
      env.ext.expand(ExpanderArgs(env.categories.value, s)).Some?
    ensures r.Ok? ==>
      var s := c.variables[0].setting;
      && r.value.data == s.dataLabel.value
      && r.value.how == s.mode.value
      && Some(r.value.sel) == env.ext.expand(ExpanderArgs(env.categories.value, s))
      && r.value.column == ColumnName(env, c.variables[0].name)
  {
    if |c.variables| == 0 then Err(NoVariable)
    else
      var v := c.variables[0];
      var s := v.setting;
      if s.dataLabel.Absent? then Err(MissingKey("data_label"))
      else if env.categories.None? then Err(NoCategories)
      else if s.types.Absent? then Err(MissingKey("types"))
      else if s.implications.Absent? then Err(MissingKey("implications"))
      else if s.implications.value.codes.Absent? then Err(MissingKey("codes"))
      else
        var sel := env.ext.expand(ExpanderArgs(env.categories.value, s));
        if sel.None? then Err(ExpansionFailed)
        else if s.mode.Absent? then Err(MissingKey("mode"))
        else Ok(OffenseQuery(s.dataLabel.value, sel.value, s.mode.value, ColumnName(env, v.name)))
  }

  /** The reads of a range criterion inside the source's `try` block. */
  function ParseRange(env: Env, c: Criterion): (r: Result<RangeQuery, Failure>)
    ensures r.Ok? <==>
      |c.variables| > 0 &&
      var s := c.variables[0].setting;
      s.dataLabel.Present? && s.min.Present? && s.max.Present?
    ensures r.Ok? ==>
      var s := c.variables[0].setting;
      r.value == RangeQuery(s.dataLabel.value, ColumnName(env, c.variables[0].name), s.min.value, s.max.value)
  {
    if |c.variables| == 0 then Err(NoVariable)
    else
      var v := c.variables[0];
      var s := v.setting;
      if s.dataLabel.Absent? then Err(MissingKey("data_label"))
      else if s.max.Absent? then Err(MissingKey("max"))
      else if s.min.Absent? then Err(MissingKey("min"))
      else Ok(RangeQuery(s.dataLabel.value, ColumnName(env, v.name), s.min.value, s.max.value))
  }

  /** Every identifier occurring in some table under the shared identifier column. */
  function AllIds(env: Env): set<Value>
    requires AllWellFormed(env.tables)
  {
    if env.id.None? then {}
    else
      set l, i | l in env.tables && env.id.value in env.tables[l].header && 0 <= i < |env.tables[l].rows|
        :: env.tables[l].rows[i][env.id.value]
  }

  /** One criterion: the identifiers it newly disqualifies, or its failure. */
  function Step(env: Env, c: Criterion, disq: set<Value>): (r: Result<set<Value>, Failure>)
    requires AllWellFormed(env.tables)
    ensures r.Ok? ==> r.value <= AllIds(env) - disq
    ensures Classify(c.key) == Unrecognized ==> r == Ok({})
    ensures Classify(c.key) == OffenseMatch && ParseOffense(env, c).Err? ==> r == Err(ParseOffense(env, c).error)
    ensures Classify(c.key) == NumericRange && ParseRange(env, c).Err? ==> r == Err(ParseRange(env, c).error)
  {
    match Classify(c.key)
    case OffenseMatch =>
      var q :- ParseOffense(env, c);
      var r := OffenseRule(env.tables, env.id, q.data, q.sel, q.how, env.prefix, q.column, env.ext.cleanOffense, disq);
      assert r.Ok? ==> r.value <= AllIds(env) - disq by {
        if r.Ok? {
          forall v | v in r.value ensures v in AllIds(env) {
            var i :| 0 <= i < |env.tables[q.data].rows| && env.tables[q.data].rows[i][env.id.value] == v;
          }
        }
      }
      r
    case NumericRange =>
      var q :- ParseRange(env, c);
      var r := RangeRule(env.tables, env.id, q.data, q.column, q.min, q.max, disq);
      assert r.Ok? ==> r.value <= AllIds(env) - disq by {
        if r.Ok? {
          forall v | v in r.value ensures v in AllIds(env) {
            var i :| 0 <= i < |env.tables[q.data].rows| && env.tables[q.data].rows[i][env.id.value] == v;
          }
        }
      }
      r
    case Unrecognized => Ok({})
  }

  /** The disqualified set after one criterion: the union with what it found,
      or the set as it was when the criterion fails or is not recognised. */
  function Outcome(env: Env, c: Criterion, disq: set<Value>): (r: set<Value>)
    requires AllWellFormed(env.tables)
    ensures disq <= r <= disq + AllIds(env)
    ensures Step(env, c, disq).Err? ==> r == disq
    ensures Classify(c.key) == Unrecognized ==> r == disq
    ensures Step(env, c, disq).Ok? ==> r == disq + Step(env, c, disq).value
  {
    match Step(env, c, disq)
    case Ok(hits) => disq + hits
    case Err(_) => disq
  }

  /** Dispatch: an offense criterion whose reads succeed runs the
      offense evaluator on what it read. */
  lemma StepOffense(env: Env, c: Criterion, disq: set<Value>)
    requires AllWellFormed(env.tables)
    requires Classify(c.key) == OffenseMatch && ParseOffense(env, c).Ok?
    ensures var q := ParseOffense(env, c).value;
            Step(env, c, disq) == OffenseRule(env.tables, env.id, q.data, q.sel, q.how, env.prefix, q.column,
                                              env.ext.cleanOffense, disq)
  {
  }

  /** An offense criterion whose reads and table checks succeed disqualifies
      `v` iff `v` is not yet disqualified and some row of the named table with
      identifier `v` has a code in the expanded selection (Exclude) or outside
      it (Include). */
  lemma StepOffenseHits(env: Env, c: Criterion, disq: set<Value>, v: Value)
    requires AllWellFormed(env.tables)
    requires Classify(c.key) == OffenseMatch && ParseOffense(env, c).Ok?
    ensures var q := ParseOffense(env, c).value;
            Step(env, c, disq).Ok? ==>
              var rows := env.tables[q.data].rows;
              (v in Step(env, c, disq).value <==>
                 v !in disq && (q.how == "Exclude" || q.how == "Include") &&
                 exists i :: 0 <= i < |rows| && rows[i][env.id.value] == v &&
                             (Code(rows[i][q.column], env.prefix, env.ext.cleanOffense) in q.sel <==> q.how == "Exclude"))
  {
    var q := ParseOffense(env, c).value;
    if Step(env, c, disq).Ok? {
      OffenseRuleHits(env.tables, env.id, q.data, q.sel, q.how, env.prefix, q.column, env.ext.cleanOffense, disq, v);
    }
  }

  /** Dispatch: a range criterion whose reads succeed runs the
      range evaluator on what it read. */
  lemma StepRange(env: Env, c: Criterion, disq: set<Value>)
    requires AllWellFormed(env.tables)
    requires Classify(c.key) == NumericRange && ParseRange(env, c).Ok?
    ensures var q := ParseRange(env, c).value;
            Step(env, c, disq) == RangeRule(env.tables, env.id, q.data, q.column, q.min, q.max, disq)
  {
  }

  /** A range criterion whose reads and table checks succeed disqualifies `v`
      iff `v` is not yet disqualified and some row of the named table with
      identifier `v` breaks a set bound. */
  lemma StepRangeHits(env: Env, c: Criterion, disq: set<Value>, v: Value)
    requires AllWellFormed(env.tables)
    requires Classify(c.key) == NumericRange && ParseRange(env, c).Ok?
    ensures var q := ParseRange(env, c).value;
            Step(env, c, disq).Ok? ==>
              var rows := env.tables[q.data].rows;
              (v in Step(env, c, disq).value <==>
                 v !in disq &&
                 exists i :: 0 <= i < |rows| && rows[i][env.id.value] == v && Violates(rows[i][q.column], q.min, q.max))
  {
    var q := ParseRange(env, c).value;
    if Step(env, c, disq).Ok? {
      RangeRuleHits(env.tables, env.id, q.data, q.column, q.min, q.max, disq, v);
    }
  }

  /** A criterion that succeeds from `x` succeeds from any larger `y` and adds
      the same identifiers to it: what was already disqualified does not change
      a criterion's verdict on anyone else. */
  lemma StepAbsorbs(env: Env, c: Criterion, x: set<Value>, y: set<Value>)
    requires AllWellFormed(env.tables)
    requires x <= y && Step(env, c, x).Ok?
    ensures Step(env, c, y).Ok?
    ensures y + Step(env, c, x).value == y + Step(env, c, y).value
  {
    match Classify(c.key)
    case OffenseMatch =>
      var q := ParseOffense(env, c).value;
      StepOffense(env, c, x);
      StepOffense(env, c, y);
      OffenseRuleAbsorbs(env.tables, env.id, q.data, q.sel, q.how, env.prefix, q.column, env.ext.cleanOffense, x, y);
    case NumericRange =>
      var q := ParseRange(env, c).value;
      StepRange(env, c, x);
      StepRange(env, c, y);
      RangeRuleAbsorbs(env.tables, env.id, q.data, q.column, q.min, q.max, x, y);
    case Unrecognized =>
  }

  /** Two criteria that both succeed from `disq` can run in either order: each
      still succeeds after the other and the union is the same. */
  lemma SuccessfulCriteriaCommute(env: Env, c1: Criterion, c2: Criterion, disq: set<Value>)
    requires AllWellFormed(env.tables)
    requires Step(env, c1, disq).Ok? && Step(env, c2, disq).Ok?
    ensures Outcome(env, c2, Outcome(env, c1, disq)) == disq + Step(env, c1, disq).value + Step(env, c2, disq).value
    ensures Outcome(env, c1, Outcome(env, c2, disq)) == Outcome(env, c2, Outcome(env, c1, disq))
  {
    var a := Outcome(env, c1, disq);
    var b := Outcome(env, c2, disq);
    StepAbsorbs(env, c2, disq, a);
    StepAbsorbs(env, c1, disq, b);
  }

  /** The disqualified set after the criteria `cs`, in order, starting from `disq`. */
  function Accumulate(env: Env, cs: seq<Criterion>, disq: set<Value>): set<Value>
    requires AllWellFormed(env.tables)
    decreases |cs|
  {
    if cs == [] then disq
    else Outcome(env, cs[|cs| - 1], Accumulate(env, cs[..|cs| - 1], disq))
  }

  /** Monotone accumulation: criteria only ever add identifiers, and only
      identifiers that occur in the session's tables. */
  lemma {:induction false} AccumulateBounds(env: Env, cs: seq<Criterion>, disq: set<Value>)
    requires AllWellFormed(env.tables)
    ensures disq <= Accumulate(env, cs, disq) <= disq + AllIds(env)
    decreases |cs|
  {
    if cs != [] {
      AccumulateBounds(env, cs[..|cs| - 1], disq);
    }
  }

  /** The disqualified set never shrinks: running further criteria after
      `pre` only adds identifiers. */
  lemma {:induction false} AccumulateGrows(env: Env, pre: seq<Criterion>, post: seq<Criterion>, disq: set<Value>)
    requires AllWellFormed(env.tables)
    ensures Accumulate(env, pre, disq) <= Accumulate(env, pre + post, disq)
    decreases |post|
  {
    if post == [] {
      assert pre + post == pre;
    } else {
      var post', last := post[..|post| - 1], post[|post| - 1];
      AccumulateGrows(env, pre, post', disq);
      SplitLast(pre, post);
      AccumulateSnoc(env, pre + post', last, disq);
    }
  }

  /** Appending one criterion applies its outcome to the accumulated set. */
  lemma AccumulateSnoc(env: Env, cs: seq<Criterion>, c: Criterion, disq: set<Value>)
    requires AllWellFormed(env.tables)
    ensures Accumulate(env, cs + [c], disq) == Outcome(env, c, Accumulate(env, cs, disq))
  {
    assert (cs + [c])[..|cs|] == cs;
  }

  lemma TakeOneMore<T>(cs: seq<T>, k: nat)
    requires k < |cs|
    ensures cs[..k + 1] == cs[..k] + [cs[k]]
  {
  }

  lemma SplitLast(xs: seq<Criterion>, ys: seq<Criterion>)
    requires ys != []
    ensures xs + ys == (xs + ys[..|ys| - 1]) + [ys[|ys| - 1]]
  {
    assert ys == ys[..|ys| - 1] + [ys[|ys| - 1]];
  }

  /** A criterion that changes nothing at its turn (it failed, or its key was
      not recognised) can be dropped: the later criteria still run and end
      on the same set. */
  lemma {:induction false} NoOpCriterionSkipped(env: Env, pre: seq<Criterion>, c: Criterion,
                                                post: seq<Criterion>, disq: set<Value>)
    requires AllWellFormed(env.tables)
    requires Outcome(env, c, Accumulate(env, pre, disq)) == Accumulate(env, pre, disq)
    ensures Accumulate(env, pre + [c] + post, disq) == Accumulate(env, pre + post, disq)
    decreases |post|
  {
    if post == [] {
      assert pre + [c] + post == pre + [c];
      assert pre + post == pre;
      AccumulateSnoc(env, pre, c, disq);
    } else {
      var post', last := post[..|post| - 1], post[|post| - 1];
      NoOpCriterionSkipped(env, pre, c, post', disq);
      SplitLast(pre + [c], post);
      SplitLast(pre, post);
      AccumulateSnoc(env, pre + [c] + post', last, disq);
      AccumulateSnoc(env, pre + post', last, disq);
    }
  }

  /** Failure isolation: a criterion whose evaluation fails is skipped and the
      rest of the ruleset is applied as if it were not there. */
  lemma FailingCriterionSkipped(env: Env, pre: seq<Criterion>, c: Criterion, post: seq<Criterion>, disq: set<Value>)
    requires AllWellFormed(env.tables)
    requires Step(env, c, Accumulate(env, pre, disq)).Err?
    ensures Accumulate(env, pre + [c] + post, disq) == Accumulate(env, pre + post, disq)
  {
    NoOpCriterionSkipped(env, pre, c, post, disq);
  }

  /** A criterion whose key matches no category is skipped. */
  lemma UnrecognizedCriterionSkipped(env: Env, pre: seq<Criterion>, c: Criterion, post: seq<Criterion>, disq: set<Value>)
    requires AllWellFormed(env.tables)
    requires Classify(c.key) == Unrecognized
    ensures Accumulate(env, pre + [c] + post, disq) == Accumulate(env, pre + post, disq)
  {
    NoOpCriterionSkipped(env, pre, c, post, disq);
  }

  /** Runs that reach the same set continue alike. */
  lemma {:induction false} AccumulateSameFrom(env: Env, xs: seq<Criterion>, ys: seq<Criterion>,
                                              post: seq<Criterion>, disq: set<Value>)
    requires AllWellFormed(env.tables)
    requires Accumulate(env, xs, disq) == Accumulate(env, ys, disq)
    ensures Accumulate(env, xs + post, disq) == Accumulate(env, ys + post, disq)
    decreases |post|
  {
    if post == [] {
      assert xs + post == xs;
      assert ys + post == ys;
    } else {
      var post', last := post[..|post| - 1], post[|post| - 1];
      AccumulateSameFrom(env, xs, ys, post', disq);
      SplitLast(xs, post);
      SplitLast(ys, post);
      AccumulateSnoc(env, xs + post', last, disq);
      AccumulateSnoc(env, ys + post', last, disq);
    }
  }

  /** Order matters only through failures: swapping two adjacent criteria
      that both succeed at their turn leaves the final set unchanged. */
  lemma SwapSuccessfulCriteria(env: Env, pre: seq<Criterion>, c1: Criterion, c2: Criterion,
                               post: seq<Criterion>, disq: set<Value>)
    requires AllWellFormed(env.tables)
    requires Step(env, c1, Accumulate(env, pre, disq)).Ok? && Step(env, c2, Accumulate(env, pre, disq)).Ok?
    ensures Accumulate(env, pre + [c1, c2] + post, disq) == Accumulate(env, pre + [c2, c1] + post, disq)
  {
    var d := Accumulate(env, pre, disq);
    SuccessfulCriteriaCommute(env, c1, c2, d);
    AccumulateSnoc(env, pre, c1, disq);
    AccumulateSnoc(env, pre + [c1], c2, disq);
    AccumulateSnoc(env, pre, c2, disq);
    AccumulateSnoc(env, pre + [c2], c1, disq);
    assert pre + [c1] + [c2] == pre + [c1, c2];
    assert pre + [c2] + [c1] == pre + [c2, c1];
    AccumulateSameFrom(env, pre + [c1, c2], pre + [c2, c1], post, disq);
  }
}
