# Cohort eligibility rule engine

A Dafny model of the eligibility rule engine in `CohortGenerator`
(`cohort_processor.py`). The engine shrinks a population to a qualifying
cohort. It applies a ruleset of criteria to tables of records keyed by a
shared identifier column. Each criterion adds identifiers to one set of
disqualified identifiers, and that set only ever grows. The records of the
identifiers left over are the responsive data.

The model keeps the source's imperative shape. The generator is the class
`Cohort.CohortGenerator`. Its fields are the raw tables, the responsive
tables, the shared identifier, the offense category table, the ruleset, the
disqualified set and the ruleset summary. Its methods update these fields in
place, as the Python methods update `self`. The per-identifier predicates are
pure functions. These are the offense any/all test, the range test, the
criterion dispatch and the summary lines. Each method is proved against one
of these functions.

Modules, one per file:

- `Wrappers`: `Option` and `Result`.
- `Strings`:
  - Python's substring test `in` (`Contains`) and its positional form;
  - removal of a prefix read as literal text, `str.replace(p, "")` (`RemoveAll`);
  - `", ".join` (`Join`).
- `Tables`:
  - cell values (`Str` or `Num`), rows as column-to-value maps, and tables with a header;
  - the two-column projection that the evaluators work on;
  - the responsive-data filter `Qualifying`.
- `Evaluators`:
  - the offense evaluator (`OffenseHits`, `OffenseRule`);
  - the numeric-range evaluator (`RangeHits`, `RangeRule`);
  - the failures each can raise.
- `Rulesets`:
  - criteria and their settings;
  - the classification of a criterion key;
  - the reads that `apply_ruleset` makes inside each `try` block (`ParseOffense`, `ParseRange`);
  - one criterion's effect (`Step`, `Outcome`);
  - the whole ruleset's effect (`Accumulate`, a fold over the criteria in their stored order).
- `Summaries`: `generate_ruleset_summary` as a function of the criteria.
- `Cohort`: the loop of `get_raw_data` that checks the identifier is shared, the summary-building loop, and the `CohortGenerator` class.
- `CohortExamples`: worked cases on small tables.

Python exceptions are modelled as `Err` results of type `Tables.Failure`. The
failure kinds are:

- a `KeyError` on a missing entry;
- an `IndexError` on a criterion without variables;
- an `AttributeError` on a missing table or missing category table;
- a failing implication expander;
- a column missing from a table;
- values of the wrong type.

Every failure that the model gives a criterion happens before the union
assigned to `disqual_ids` (cohort_processor.py:183 and :206). So
`apply_ruleset` catching such a failure amounts to leaving the set as it was.
The progress message after the union (:184 and :207) calls
`get_population_ids`, which the model does not contain. If that call raised,
`apply_ruleset` would catch the exception with the union already kept. The
model reads that case as a success, which also keeps the union.

The model does not see some of the code the engine calls. These parts are
function-typed fields of `Rulesets.Collaborators`, with no behaviour assumed:

- `utils.clean` on the identifier and on column names;
- `utils.clean_blk` on offense values;
- the implication expander `impl.gen_impl_off`, where `None` stands for the call raising;
- Python's `str()` of a bound in the summary text.

## Model

| member | source | states |
|---|---|---|
| Strings.ContainsIff | cohort_processor.py:225 | Python's `sub in s` holds iff `sub` occurs at some position of `s` |
| Strings.RemoveAll | cohort_processor.py:153 | removing every occurrence of the prefix never lengthens a value |
| Strings.RemoveAllAbsent | cohort_processor.py:153 | a value that does not contain the prefix is left unchanged |
| Strings.StripPrefix | cohort_processor.py:153 | a value made of the prefix followed by text free of the prefix becomes exactly that text |
| Strings.Join | cohort_processor.py:352 | joining no types gives the empty text, and joining one type gives that type |
| Strings.JoinSnoc | cohort_processor.py:352 | joining one more type appends the separator and that type |
| Tables.ProjectIds | cohort_processor.py:164 | the two-column view has one record per row and exactly the table's identifiers |
| Tables.KeepRows | cohort_processor.py:329 | every kept row is a row of the table whose identifier is not disqualified, and every such row is kept |
| Tables.KeepRowsAppend | cohort_processor.py:329 | filtering two blocks of rows gives the two filtered blocks in the same order, so row order and duplicates are kept |
| Tables.KeepRowsSingle | cohort_processor.py:329 | one row is kept iff its identifier is not disqualified |
| Tables.Qualifying | cohort_processor.py:329 | the responsive table is well formed with the raw table's header, holds only raw rows of identifiers not disqualified, and holds every such row |
| Tables.QualifyingIds | cohort_processor.py:329 | the identifiers of the responsive table are those of the raw table minus the disqualified set |
| Tables.QualifyingNothingDisqualified | cohort_processor.py:329 | with nothing disqualified, the responsive table equals the raw table |
| Evaluators.Restrict | cohort_processor.py:149-150 | the restricted rows are exactly the rows of identifiers not yet disqualified |
| Evaluators.Group | cohort_processor.py:167 | the grouping has a key iff some row has that identifier, and that key's group holds a code iff some row of that identifier has it |
| Evaluators.OffenseHits | cohort_processor.py:178-183 | a mode other than `Exclude` or `Include` disqualifies nobody |
| Evaluators.ExcludeHits | cohort_processor.py:162-168 | in `Exclude` mode an identifier is newly disqualified iff it is not yet disqualified and one of its rows has a selected code |
| Evaluators.IncludeHits | cohort_processor.py:170-176 | in `Include` mode an identifier is newly disqualified iff it is not yet disqualified and one of its rows has a code outside the selection |
| Evaluators.IncludeAllSelectedKept | cohort_processor.py:170-176 | `Include` mode never disqualifies an identifier all of whose codes are selected |
| Evaluators.OffenseHitsFromRows | cohort_processor.py:147-150 | every identifier the offense evaluator adds occurs in the queried rows and was not disqualified before |
| Evaluators.MaxOf | cohort_processor.py:197 | the observed maximum exists iff there are rows, bounds every value from above and is attained |
| Evaluators.MinOf | cohort_processor.py:199 | the observed minimum exists iff there are rows, bounds every value from below and is attained |
| Evaluators.RangeHitsIff | cohort_processor.py:196-202 | an identifier is newly disqualified iff it is not yet disqualified and one of its values is above a truthy `max` or below a truthy `min` |
| Evaluators.RangeHitIsViolation | cohort_processor.py:196-202 | each identifier the range rule adds has a row strictly outside a truthy bound |
| Evaluators.ViolationIsRangeHit | cohort_processor.py:196-202 | each still-qualifying row strictly outside a truthy bound gets its identifier added |
| Evaluators.RangeUnsetBoundsNoHits | cohort_processor.py:196-199 | with both bounds falsy (unset or 0), the range rule disqualifies nobody |
| Evaluators.RangeZeroIsUnset | cohort_processor.py:196-199 | a bound of 0 gives the same result as an unset bound, on either side |
| Evaluators.RangeInclusive | cohort_processor.py:202 | an identifier whose values all lie in `[min, max]`, the bounds included, is never disqualified |
| Evaluators.RangeHitsFromRows | cohort_processor.py:192-193 | every identifier the range rule adds occurs in the queried rows and was not disqualified before |
| Evaluators.OffenseRule | cohort_processor.py:143-186 | succeeds iff the table, the identifier column and the offense column exist and every still-qualifying value is text; otherwise the failure names the first check that fails, in that order; a success adds only identifiers of that table not already disqualified |
| Evaluators.RangeRule | cohort_processor.py:188-209 | succeeds iff the table, the identifier column and the value column exist and every still-qualifying value is a number; otherwise the failure names the first check that fails, in that order; a success adds only identifiers of that table not already disqualified |
| Evaluators.OffenseRuleHits | cohort_processor.py:147-181 | a successful offense rule adds `v` iff `v` is not yet disqualified, the mode is `Exclude` or `Include`, and some row of `v` in the table has a selected code (Exclude) or an unselected code (Include) |
| Evaluators.RangeRuleHits | cohort_processor.py:190-202 | a successful range rule adds `v` iff `v` is not yet disqualified and some row of `v` in the table lies outside a truthy bound |
| Evaluators.RestrictShrinks | cohort_processor.py:149-150 | with more identifiers disqualified, every row still considered was considered before |
| Evaluators.OffenseRuleAbsorbs | cohort_processor.py:143-183 | an offense rule that succeeds from a set succeeds from any larger set, and adds the same identifiers to it |
| Evaluators.RangeRuleAbsorbs | cohort_processor.py:188-206 | a range rule that succeeds from a set succeeds from any larger set, and adds the same identifiers to it |
| Rulesets.ClassifyIff | cohort_processor.py:225-319 | a key goes to the offense evaluator iff "commit" or "offense" occurs in it, and to the range evaluator iff neither does and "sentence" does |
| Rulesets.ClassifySentenceKey | cohort_processor.py:288 | a key with "sentence" and without the letters m and f, and so without either offense substring, goes to the range evaluator |
| Rulesets.ClassifyOffenseKeys | cohort_processor.py:225 | the keys `prior_commitments`, `current_commitments` and `controlling_offense` go to the offense evaluator |
| Rulesets.ClassifySentenceKeys | cohort_processor.py:288 | the keys `sentence_length` and `sentence_served` go to the range evaluator |
| Rulesets.SelectedOffenses | cohort_processor.py:235 | an offense is listed iff some category row with a selected type names it |
| Rulesets.ParseOffense | cohort_processor.py:226-270 | the reads succeed iff the criterion has a variable with `data_label`, `types`, `mode`, `implications` and `codes`, the category table is loaded and the expander succeeds; the query they produce carries the label, the mode, the expanded selection and the (optionally cleaned) column name |
| Rulesets.ParseRange | cohort_processor.py:289-302 | the reads succeed iff the criterion has a variable with `data_label`, `max` and `min`; the query carries these and the (optionally cleaned) column name |
| Rulesets.Step | cohort_processor.py:222-319 | one criterion adds only identifiers of the session's tables that are not yet disqualified; an unrecognised key adds nothing; a failed read is the criterion's failure |
| Rulesets.StepOffense | cohort_processor.py:226-277 | an offense criterion whose reads succeed runs the offense evaluator on the label, selection, mode and column it read |
| Rulesets.StepOffenseHits | cohort_processor.py:226-277 | such a criterion, when it succeeds, adds `v` iff `v` is not yet disqualified and some row of `v` in the named table has a code in the expanded selection (Exclude) or outside it (Include) |
| Rulesets.StepRange | cohort_processor.py:288-307 | a range criterion whose reads succeed runs the range evaluator on the label, column and bounds it read |
| Rulesets.StepRangeHits | cohort_processor.py:288-307 | such a criterion, when it succeeds, adds `v` iff `v` is not yet disqualified and some row of `v` in the named table breaks a truthy bound |
| Rulesets.StepAbsorbs | cohort_processor.py:147-150 | a criterion that succeeds from a set succeeds from any larger set and adds the same identifiers to it |
| Rulesets.SuccessfulCriteriaCommute | cohort_processor.py:183 | two criteria that both succeed from a set give the same union in either order |
| Rulesets.Outcome | cohort_processor.py:278-286 | after a successful criterion the set is the old set united with what it found; after a failure or an unrecognised key it is unchanged; either way it stays within the old set plus the session's identifiers |
| Rulesets.AccumulateBounds | cohort_processor.py:213-322 | after a whole ruleset the set contains the starting set and only adds identifiers of the session's tables |
| Rulesets.AccumulateGrows | cohort_processor.py:183 | running further criteria never removes an identifier |
| Rulesets.AccumulateSnoc | cohort_processor.py:222 | one more criterion at the end applies its outcome to the set accumulated so far |
| Rulesets.NoOpCriterionSkipped | cohort_processor.py:278-286 | a criterion that changes nothing at its turn can be dropped, and the later criteria end on the same set |
| Rulesets.FailingCriterionSkipped | cohort_processor.py:310-317 | a failing criterion is skipped, and the rest of the ruleset runs as if it were absent |
| Rulesets.UnrecognizedCriterionSkipped | cohort_processor.py:318-319 | a criterion whose key matches no category is skipped |
| Rulesets.AccumulateSameFrom | cohort_processor.py:222 | two runs that reach the same set end on the same set after the same further criteria |
| Rulesets.SwapSuccessfulCriteria | cohort_processor.py:222-319 | swapping two adjacent criteria that both succeed at their turn leaves the final set unchanged |
| Summaries.FindCriterion | cohort_processor.py:350 | a criterion is found iff one has that key, and the one found has it |
| Summaries.FindVariable | cohort_processor.py:350 | a setting is found iff a variable has that name, and it is that variable's setting |
| Summaries.ModePhrase | cohort_processor.py:351 | the phrase is "not in" exactly for `Exclude` and "in" otherwise |
| Summaries.OffenseLine | cohort_processor.py:350-353 | succeeds iff `types` is present and, when non-empty, `mode` too; emits one line exactly when `types` is non-empty, with the scope, the mode phrase and the joined types |
| Summaries.RangeLine | cohort_processor.py:367-371 | reads `min` then `max`; comparing `None` fails; emits a line iff `min` exceeds the floor or `max` is below 10000000 |
| Summaries.OffenseLineOf | cohort_processor.py:350-353 | on success, one line iff the criterion selects some types |
| Summaries.RangeLineOf | cohort_processor.py:367-371 | on success, one line iff the criterion's `min` exceeds the floor or its `max` is below 10000000 |
| Summaries.OffenseSummary | cohort_processor.py:349-365 | on success, one line for each of the prior, current and controlling criteria that selects some types, so at most three |
| Summaries.RangeSummary | cohort_processor.py:367-377 | on success, one line for each of the sentence-length and time-served criteria whose bounds are narrower than its default, so at most two |
| Summaries.Summary | cohort_processor.py:345-380 | on success, as many lines as the five summarised criteria away from their default, so at most five |
| Summaries.DefaultRulesetSummary | cohort_processor.py:345-380 | a ruleset whose five summarised criteria are at their defaults is summarised by no line |
| Cohort.SharesId | cohort_processor.py:47-58 | the count of tables with the identifier column reaches the number of tables iff every table has that column |
| Cohort.AppendOffenseLines | cohort_processor.py:346-365 | the summary appends fail iff the offense summary fails, and otherwise extend the parts by its lines |
| Cohort.AppendRangeLines | cohort_processor.py:367-377 | the summary appends fail iff the range summary fails, and otherwise extend the parts by its lines |
| Cohort.CohortGenerator.constructor | cohort_processor.py:13-17 | a new generator keeps its name and description and holds no tables, no ruleset and no disqualified identifiers |
| Cohort.CohortGenerator.GetRawData | cohort_processor.py:44-58 | the loaded tables are added; the cleaned identifier is kept iff every listed table has it as a column, and is `None` otherwise |
| Cohort.CohortGenerator.GetOffenseCategorizations | cohort_processor.py:61-68 | a path mentioning "xlsx" is read as Excel, else one mentioning "csv" as CSV, else the table is unchanged |
| Cohort.CohortGenerator.GetRuleset | cohort_processor.py:70-72 | the ruleset is stored as given |
| Cohort.CohortGenerator.ApplyOffenseRules | cohort_processor.py:143-186 | on success the disqualified set becomes its union with the offense rule's hits; on failure it is unchanged |
| Cohort.CohortGenerator.ApplySentenceLengthRules | cohort_processor.py:188-209 | on success the disqualified set becomes its union with the range rule's hits; on failure it is unchanged |
| Cohort.CohortGenerator.ApplyRuleset | cohort_processor.py:211-322 | the disqualified set is reset and ends as the fold of the criteria over the empty set, in stored order |
| Cohort.CohortGenerator.GetResponsiveData | cohort_processor.py:324-332 | each category handled gets the responsive table of its raw table; it stops at the first category lacking a table or the identifier column; other entries are unchanged |
| Cohort.CohortGenerator.GenerateRulesetSummary | cohort_processor.py:345-380 | the stored summary becomes the summary lines, or is unchanged when a lookup fails |
| CohortExamples.StrippedCode | cohort_processor.py:153 | `PC459` with prefix `PC` has code `459` |
| CohortExamples.ExcludeExample | cohort_processor.py:162-168 | excluding 459 where person 1 has 459 and 211 and person 2 has 211 disqualifies person 1 only |
| CohortExamples.IncludeExample | cohort_processor.py:170-176 | including only 211 on the same rows disqualifies person 1 only |
| CohortExamples.ExcludeSkipsDisqualified | cohort_processor.py:149-150 | an already disqualified person is not found again |
| CohortExamples.RangeExample | cohort_processor.py:196-202 | values 100, 240 and 300 against `[240, 10000000]` disqualify only the person with 100 |
| CohortExamples.ZeroMinimumExample | test.py:8-10 | a `min` of 0 with `max` 10000000 disqualifies nobody, a negative value included |

## Left out

- `process_time_vars` (cohort_processor.py:77-141), and its call at the head of `apply_ruleset`, are not modelled. The model therefore does not capture:
  - its renaming of the population table's columns;
  - its re-cleaning of the identifier;
  - the time columns it adds.
  The function depends on the wall clock, on floating-point year conversions and on date helpers in `utils` that are not shown.
- Loading and caching of the raw files (cohort_processor.py:19-42) is I/O. `GetRawData` receives the tables as loaded, after the optional column-name cleaning. The cleaning itself at :35-41 is not modelled, because `utils.clean_blk` is not shown and may merge columns.
- The file readers in `get_offense_categorizations` are parameters. The diagnostic message that the `if`/`else` pairing prints even after a CSV read is output only, and is not modelled.
- `write_responsive_data` (cohort_processor.py:334-343) is spreadsheet output and is not modelled.
- `get_population_ids` (cohort_processor.py:74-75) only feeds progress messages.
- All `print` output, the traceback printing in the `except` blocks, and `tqdm` are left out. They carry no state.
- `utils.clean`, `utils.clean_blk`, `impl.gen_impl_off` and the number formatting in the summary f-strings are uninterpreted. No property of them is claimed, for example that the expanded selection contains the listed offenses. `clean_blk` is taken to clean each value on its own.
- Python attribute storage (`setattr(self, cat + "_raw", ...)`) is modelled as two maps keyed by category: `rawTables` and `responsive`. The class field `label` is called `name`, because `label` is a Dafny keyword.
- The constructor also initialises `id`, `ruleset`, the disqualified set and the summary. Python's `__init__` leaves these unset until later methods assign them. Reading them earlier raises `AttributeError`, and that case is not modelled.
- A ruleset without a `criteria` entry (`KeyError` outside any `try`) is not modelled. The ruleset is already the sequence of criteria.
- pandas NaN handling is not modelled. An offense column holding a non-text value among the rows still considered is a failure (`NotText`). pandas would instead turn such a value into NaN, which matches no code. A range column holding non-numbers is a failure (`NotNumeric`), where pandas raises `TypeError` on the comparison.
- Evaluators.RangeRule: with both bounds falsy over a text column, pandas compares each string with its own column's min and max and raises nothing. The model fails instead. The disqualified set ends the same either way.
- Bounds are `Option<real>`. A Python bound of another type, for example a string in the ruleset, is not modelled.
- Independence of the result from the order of criteria is claimed only for criteria that succeed (`Rulesets.SwapSuccessfulCriteria`). A resolved observed bound never disqualifies anyone, so it does not make the order matter. The order matters through failures: `NotText` and `NotNumeric` are checked over the rows still qualifying, so a criterion can fail before another criterion and succeed after it.
- Strings.RemoveAll: removes the prefix as literal text. Before pandas 2.0, `Series.str.replace` reads a pattern longer than one character as a regular expression. A prefix holding regular-expression metacharacters would then remove other text, and that is not modelled.
