/** The two rule evaluators of the disqualification accumulator:
    the offense evaluator (`apply_offense_rules`) and the numeric-range
    evaluator (`apply_sentence_length_rules`), as functions that compute the
    identifiers one rule newly disqualifies. */
module Evaluators {
  import opened Wrappers
  import opened Strings
  import opened Tables

  /** The rows whose identifier is not yet disqualified, in order. */
  function Restrict(rs: seq<Record>, disq: set<Value>): (r: seq<Record>)
    ensures |r| <= |rs|
    ensures forall i :: 0 <= i < |r| ==> r[i] in rs && r[i].id !in disq
    ensures forall i :: 0 <= i < |rs| && rs[i].id !in disq ==> rs[i] in r
  {
    if rs == [] then []
    else
      var rest := Restrict(rs[1..], disq);
      assert forall i :: 1 <= i < |rs| ==> rs[i] == rs[1..][i - 1];
      if rs[0].id in disq then rest else [rs[0]] + rest
  }

  predicate AllText(rs: seq<Record>) {
    forall i :: 0 <= i < |rs| ==> rs[i].value.Str?
  }

  predicate AllNumeric(rs: seq<Record>) {
    forall i :: 0 <= i < |rs| ==> rs[i].value.Num?
  }

  // ---------------------------------------------------------------------------
  // Offense evaluator

  /** The offense code a cell stands for once the prefix is removed and the
      external cleaner has been applied to it. */
  function Code(v: Value, prefix: string, clean: string -> string): string {
    if v.Str? then clean(RemoveAll(v.s, prefix)) else []
  }

  datatype Coded = Coded(id: Value, code: string)

  /** Each row's identifier with its code, in row order. */
  function Codes(rs: seq<Record>, prefix: string, clean: string -> string): seq<Coded> {
    seq(|rs|, i requires 0 <= i < |rs| => Coded(rs[i].id, Code(rs[i].value, prefix, clean)))
  }

  /** `groupby(id)`: each identifier with the codes of its rows. */
  function Group(cs: seq<Coded>): (g: map<Value, seq<string>>)
    ensures forall id :: id in g <==> exists i :: 0 <= i < |cs| && cs[i].id == id
    ensures forall id, c :: id in g && c in g[id] <==> exists i :: 0 <= i < |cs| && cs[i].id == id && cs[i].code == c
  {
    if cs == [] then map[]
    else
      var g := Group(cs[1..]);
      assert forall i :: 1 <= i < |cs| ==> cs[i] == cs[1..][i - 1];
      var id := cs[0].id;
      var earlier := if id in g then g[id] else [];
      var here := [cs[0].code] + earlier;
      assert forall c :: c in here <==> c == cs[0].code || c in earlier;
      g[id := here]
  }

  predicate AnyIn(cs: seq<string>, sel: set<string>) {
    exists j :: 0 <= j < |cs| && cs[j] in sel
  }

  predicate AllIn(cs: seq<string>, sel: set<string>) {
    forall j :: 0 <= j < |cs| ==> cs[j] in sel
  }

  /** The identifiers that one offense rule newly disqualifies: among the rows
      of identifiers not yet disqualified, `Exclude` flags an identifier with
      any code in `sel`, `Include` one with any code outside `sel`, and any
      other mode flags nobody. */
  function OffenseHits(rs: seq<Record>, disq: set<Value>, sel: set<string>, how: string,
                       prefix: string, clean: string -> string): (r: set<Value>)
    ensures how != "Exclude" && how != "Include" ==> r == {}
  {
    var g := Group(Codes(Restrict(rs, disq), prefix, clean));
    if how == "Exclude" then set id | id in g && AnyIn(g[id], sel)
    else if how == "Include" then set id | id in g && !AllIn(g[id], sel)
    else {}
  }

  /** A row of `id` that is still under consideration, with its code. */
  predicate HasCode(rs: seq<Record>, disq: set<Value>, id: Value, prefix: string,
                    clean: string -> string, sel: set<string>, inSel: bool) {
    id !in disq &&
    exists i :: 0 <= i < |rs| && rs[i].id == id && (Code(rs[i].value, prefix, clean) in sel <==> inSel)
  }

  /** Exclude mode: an identifier is newly disqualified iff it is not yet
      disqualified and one of its rows has a code in `sel`. */
  lemma ExcludeHits(rs: seq<Record>, disq: set<Value>, sel: set<string>, prefix: string,
                    clean: string -> string, id: Value)
    ensures id in OffenseHits(rs, disq, sel, "Exclude", prefix, clean) <==> HasCode(rs, disq, id, prefix, clean, sel, true)
  {
    var r := Restrict(rs, disq);
    var cs := Codes(r, prefix, clean);
    var g := Group(cs);
    if id in OffenseHits(rs, disq, sel, "Exclude", prefix, clean) {
      var j :| 0 <= j < |g[id]| && g[id][j] in sel;
      assert g[id][j] in g[id];
      var i :| 0 <= i < |cs| && cs[i].id == id && cs[i].code == g[id][j];
      var k :| 0 <= k < |rs| && rs[k] == r[i];
      assert rs[k].id == id && Code(rs[k].value, prefix, clean) in sel;
    }
    if HasCode(rs, disq, id, prefix, clean, sel, true) {
      var k :| 0 <= k < |rs| && rs[k].id == id && Code(rs[k].value, prefix, clean) in sel;
      assert rs[k] in r;
      var i :| 0 <= i < |r| && r[i] == rs[k];
      assert cs[i].id == id;
      var c := cs[i].code;
      assert id in g && c in g[id];
      var j :| 0 <= j < |g[id]| && g[id][j] == c;
    }
  }

  /** Include mode: an identifier is newly disqualified iff it is not yet
      disqualified and one of its rows has a code outside `sel`. */
  lemma IncludeHits(rs: seq<Record>, disq: set<Value>, sel: set<string>, prefix: string,
                    clean: string -> string, id: Value)
    ensures id in OffenseHits(rs, disq, sel, "Include", prefix, clean) <==> HasCode(rs, disq, id, prefix, clean, sel, false)
  {
    var r := Restrict(rs, disq);
    var cs := Codes(r, prefix, clean);
    var g := Group(cs);
    if id in OffenseHits(rs, disq, sel, "Include", prefix, clean) {
      var j :| 0 <= j < |g[id]| && g[id][j] !in sel;
      assert g[id][j] in g[id];
      var i :| 0 <= i < |cs| && cs[i].id == id && cs[i].code == g[id][j];
      var k :| 0 <= k < |rs| && rs[k] == r[i];
      assert rs[k].id == id && Code(rs[k].value, prefix, clean) !in sel;
    }
    if HasCode(rs, disq, id, prefix, clean, sel, false) {
      var k :| 0 <= k < |rs| && rs[k].id == id && Code(rs[k].value, prefix, clean) !in sel;
      assert rs[k] in r;
      var i :| 0 <= i < |r| && r[i] == rs[k];
      assert cs[i].id == id;
      var c := cs[i].code;
      assert id in g && c in g[id];
      var j :| 0 <= j < |g[id]| && g[id][j] == c;
    }
  }

  /** Include mode never adds an identifier all of whose codes are selected. */
  lemma IncludeAllSelectedKept(rs: seq<Record>, disq: set<Value>, sel: set<string>, prefix: string,
                               clean: string -> string, id: Value)
    requires forall i :: 0 <= i < |rs| && rs[i].id == id ==> Code(rs[i].value, prefix, clean) in sel
    ensures id !in OffenseHits(rs, disq, sel, "Include", prefix, clean)
  {
    IncludeHits(rs, disq, sel, prefix, clean, id);
  }

  /** Every identifier an offense rule adds occurs in the queried rows and was
      not disqualified before. */
  lemma OffenseHitsFromRows(rs: seq<Record>, disq: set<Value>, sel: set<string>, how: string,
                            prefix: string, clean: string -> string, id: Value)
    requires id in OffenseHits(rs, disq, sel, how, prefix, clean)
    ensures id !in disq && exists i :: 0 <= i < |rs| && rs[i].id == id
  {
    if how == "Exclude" {
      ExcludeHits(rs, disq, sel, prefix, clean, id);
    } else {
      IncludeHits(rs, disq, sel, prefix, clean, id);
    }
  }

  // ---------------------------------------------------------------------------
  // Numeric-range evaluator

  /** Python truthiness of a bound: `None` and `0` are falsy. */
  predicate Falsy(b: Option<real>) {
    b.None? || b.value == 0.0
  }

  /** `Series.max()`; `None` for no rows (pandas gives NaN, which compares false). */
  function MaxOf(rs: seq<Record>): (m: Option<real>)
    requires AllNumeric(rs)
    ensures m.Some? <==> |rs| > 0
    ensures m.Some? ==> forall i :: 0 <= i < |rs| ==> rs[i].value.x <= m.value
    ensures m.Some? ==> exists i :: 0 <= i < |rs| && rs[i].value.x == m.value
  {
    if rs == [] then None
    else
      var m := MaxOf(rs[1..]);
      assert forall i :: 1 <= i < |rs| ==> rs[i] == rs[1..][i - 1];
      var x := rs[0].value.x;
      Some(if m.None? || x >= m.value then x else m.value)
  }

  /** `Series.min()`, symmetric to `MaxOf`. */
  function MinOf(rs: seq<Record>): (m: Option<real>)
    requires AllNumeric(rs)
    ensures m.Some? <==> |rs| > 0
    ensures m.Some? ==> forall i :: 0 <= i < |rs| ==> m.value <= rs[i].value.x
    ensures m.Some? ==> exists i :: 0 <= i < |rs| && rs[i].value.x == m.value
  {
    if rs == [] then None
    else
      var m := MinOf(rs[1..]);
      assert forall i :: 1 <= i < |rs| ==> rs[i] == rs[1..][i - 1];
      var x := rs[0].value.x;
      Some(if m.None? || x <= m.value then x else m.value)
  }

  /** `if not bound: bound = observed`. */
  function Resolve(b: Option<real>, observed: Option<real>): Option<real> {
    if Falsy(b) then observed else b
  }

  /** `(value > max) | (value < min)`; an absent bound (NaN) compares false. */
  predicate Outside(x: real, lo: Option<real>, hi: Option<real>) {
    (hi.Some? && x > hi.value) || (lo.Some? && x < lo.value)
  }

  /** The identifiers that one range rule newly disqualifies. */
  function RangeHits(rs: seq<Record>, disq: set<Value>, min: Option<real>, max: Option<real>): set<Value>
    requires AllNumeric(Restrict(rs, disq))
  {
    var r := Restrict(rs, disq);
    var hi := Resolve(max, MaxOf(r));
    var lo := Resolve(min, MinOf(r));
    set i | 0 <= i < |r| && Outside(r[i].value.x, lo, hi) :: r[i].id
  }

  /** A value breaks a bound only when that bound is set (truthy); the range
      `[min, max]` itself is inclusive. */
  predicate Violates(v: Value, min: Option<real>, max: Option<real>) {
    v.Num? && ((!Falsy(max) && v.x > max.value) || (!Falsy(min) && v.x < min.value))
  }

  /** An identifier is newly disqualified by a range rule iff it is not yet
      disqualified and one of its rows lies strictly outside a set bound; an
      unset or zero bound is replaced by the observed extreme and so never
      disqualifies on its side. */
  lemma RangeHitsIff(rs: seq<Record>, disq: set<Value>, min: Option<real>, max: Option<real>, id: Value)
    requires AllNumeric(Restrict(rs, disq))
    ensures id in RangeHits(rs, disq, min, max) <==>
            id !in disq && exists i :: 0 <= i < |rs| && rs[i].id == id && Violates(rs[i].value, min, max)
  {
    if id in RangeHits(rs, disq, min, max) {
      RangeHitIsViolation(rs, disq, min, max, id);
    }
    if id !in disq && exists i :: 0 <= i < |rs| && rs[i].id == id && Violates(rs[i].value, min, max) {
      var k :| 0 <= k < |rs| && rs[k].id == id && Violates(rs[k].value, min, max);
      ViolationIsRangeHit(rs, disq, min, max, k);
    }
  }

  lemma RangeHitIsViolation(rs: seq<Record>, disq: set<Value>, min: Option<real>, max: Option<real>, id: Value)
    requires AllNumeric(Restrict(rs, disq))
    requires id in RangeHits(rs, disq, min, max)
    ensures id !in disq && exists k :: 0 <= k < |rs| && rs[k].id == id && Violates(rs[k].value, min, max)
  {
    var r := Restrict(rs, disq);
    var hi := Resolve(max, MaxOf(r));
    var lo := Resolve(min, MinOf(r));
    var i :| 0 <= i < |r| && Outside(r[i].value.x, lo, hi) && r[i].id == id;
    var k :| 0 <= k < |rs| && rs[k] == r[i];
    assert Violates(rs[k].value, min, max);
  }

  lemma ViolationIsRangeHit(rs: seq<Record>, disq: set<Value>, min: Option<real>, max: Option<real>, k: nat)
    requires AllNumeric(Restrict(rs, disq))
    requires k < |rs| && rs[k].id !in disq && Violates(rs[k].value, min, max)
    ensures rs[k].id in RangeHits(rs, disq, min, max)
  {
    var r := Restrict(rs, disq);
    var hi := Resolve(max, MaxOf(r));
    var lo := Resolve(min, MinOf(r));
    assert rs[k] in r;
    var i :| 0 <= i < |r| && r[i] == rs[k];
    assert Outside(r[i].value.x, lo, hi);
  }

  /** With both bounds unset (or zero) a range rule disqualifies nobody. */
  lemma RangeUnsetBoundsNoHits(rs: seq<Record>, disq: set<Value>, min: Option<real>, max: Option<real>)
    requires AllNumeric(Restrict(rs, disq))
    requires Falsy(min) && Falsy(max)
    ensures RangeHits(rs, disq, min, max) == {}
  {
    forall id | id in RangeHits(rs, disq, min, max) ensures false {
      RangeHitsIff(rs, disq, min, max, id);
    }
  }

  /** A bound of 0 behaves exactly like an unset bound. */
  lemma RangeZeroIsUnset(rs: seq<Record>, disq: set<Value>, min: Option<real>, max: Option<real>)
    requires AllNumeric(Restrict(rs, disq))
    ensures RangeHits(rs, disq, Some(0.0), max) == RangeHits(rs, disq, None, max)
    ensures RangeHits(rs, disq, min, Some(0.0)) == RangeHits(rs, disq, min, None)
  {
  }

  /** Inclusivity: an identifier all of whose rows lie within `[lo, hi]` is
      never disqualified, in particular one whose values equal a bound. */
  lemma RangeInclusive(rs: seq<Record>, disq: set<Value>, lo: real, hi: real, id: Value)
    requires AllNumeric(Restrict(rs, disq))
    requires forall i :: 0 <= i < |rs| && rs[i].id == id ==> rs[i].value.Num? && lo <= rs[i].value.x <= hi
    ensures id !in RangeHits(rs, disq, Some(lo), Some(hi))
  {
    RangeHitsIff(rs, disq, Some(lo), Some(hi), id);
  }

  /** Every identifier a range rule adds occurs in the queried rows and was not
      disqualified before. */
  lemma RangeHitsFromRows(rs: seq<Record>, disq: set<Value>, min: Option<real>, max: Option<real>, id: Value)
    requires AllNumeric(Restrict(rs, disq))
    requires id in RangeHits(rs, disq, min, max)
    ensures id !in disq && exists i :: 0 <= i < |rs| && rs[i].id == id
  {
    RangeHitsIff(rs, disq, min, max, id);
  }

  // ---------------------------------------------------------------------------
  // The evaluators over the session's tables, with their failures

  predicate AllWellFormed(tables: map<string, Table>) {
    forall l :: l in tables ==> WellFormed(tables[l])
  }

  /** `apply_offense_rules(data, sel_off, how, prefix, offense_var)`: the
      identifiers it newly disqualifies, or the failure it raises (a missing
      table, identifier column or offense column, or offense values that are
      not text). */
  function OffenseRule(tables: map<string, Table>, id: Option<string>, data: string, sel: set<string>,
                       how: string, prefix: string, column: string, clean: string -> string,
                       disq: set<Value>): (r: Result<set<Value>, Failure>)
    requires AllWellFormed(tables)
    ensures r.Ok? ==> data in tables && id.Some? && id.value in tables[data].header
    ensures r.Ok? ==> r.value <= IdsOf(tables[data], id.value) - disq
    ensures data !in tables ==> r == Err(MissingTable(data))
    ensures data in tables && (id.None? || id.value !in tables[data].header) ==> r == Err(NoIdColumn)
    ensures data in tables && id.Some? && id.value in tables[data].header && column !in tables[data].header ==>
              r == Err(MissingColumn(column))
    ensures r.Ok? <==>
              data in tables && id.Some? && id.value in tables[data].header && column in tables[data].header &&
              AllText(Restrict(Project(tables[data], id.value, column), disq))
    ensures r.Err? && data in tables && id.Some? && id.value in tables[data].header &&
            column in tables[data].header
            ==> r == Err(NotText(column))
  {
    if data !in tables then Err(MissingTable(data))
    else if id.None? || id.value !in tables[data].header then Err(NoIdColumn)
    else if column !in tables[data].header then Err(MissingColumn(column))
    else
      var rs := Project(tables[data], id.value, column);
      if !AllText(Restrict(rs, disq)) then Err(NotText(column))
      else
        var hits := OffenseHits(rs, disq, sel, how, prefix, clean);
        assert hits <= IdsOf(tables[data], id.value) - disq by {
          forall v | v in hits ensures v in IdsOf(tables[data], id.value) - disq {
            OffenseHitsFromRows(rs, disq, sel, how, prefix, clean, v);
          }
        }
        Ok(hits)
  }

  /** `apply_sentence_length_rules(data, sentence_var, max_length, min_length)`:
      the identifiers it newly disqualifies, or the failure it raises (a missing
      table, identifier column or value column, or still-qualifying values that
      are not numbers). */
  function RangeRule(tables: map<string, Table>, id: Option<string>, data: string, column: string,
                     min: Option<real>, max: Option<real>, disq: set<Value>): (r: Result<set<Value>, Failure>)
    requires AllWellFormed(tables)
    ensures r.Ok? ==> data in tables && id.Some? && id.value in tables[data].header
    ensures r.Ok? ==> r.value <= IdsOf(tables[data], id.value) - disq
    ensures data !in tables ==> r == Err(MissingTable(data))
    ensures data in tables && (id.None? || id.value !in tables[data].header) ==> r == Err(NoIdColumn)
    ensures data in tables && id.Some? && id.value in tables[data].header && column !in tables[data].header ==>
              r == Err(MissingColumn(column))
    ensures r.Ok? <==>
              data in tables && id.Some? && id.value in tables[data].header && column in tables[data].header &&
              AllNumeric(Restrict(Project(tables[data], id.value, column), disq))
    ensures r.Err? && data in tables && id.Some? && id.value in tables[data].header &&
            column in tables[data].header
            ==> r == Err(NotNumeric(column))
  {
    if data !in tables then Err(MissingTable(data))
    else if id.None? || id.value !in tables[data].header then Err(NoIdColumn)
    else if column !in tables[data].header then Err(MissingColumn(column))
    else
      var rs := Project(tables[data], id.value, column);
      if !AllNumeric(Restrict(rs, disq)) then Err(NotNumeric(column))
      else
        var hits := RangeHits(rs, disq, min, max);
        assert hits <= IdsOf(tables[data], id.value) - disq by {
          forall v | v in hits ensures v in IdsOf(tables[data], id.value) - disq {
            RangeHitsFromRows(rs, disq, min, max, v);
          }
        }
        Ok(hits)
  }

  /** Seen row by row, an offense rule that succeeds newly disqualifies `v` iff
      `v` is not yet disqualified, the mode is `Exclude` or `Include`, and some
      row of the table with identifier `v` has a code in `sel` (Exclude) or a
      code outside `sel` (Include). */
  lemma OffenseRuleHits(tables: map<string, Table>, id: Option<string>, data: string, sel: set<string>,
                        how: string, prefix: string, column: string, clean: string -> string,
                        disq: set<Value>, v: Value)
    requires AllWellFormed(tables)
    requires OffenseRule(tables, id, data, sel, how, prefix, column, clean, disq).Ok?
    ensures v in OffenseRule(tables, id, data, sel, how, prefix, column, clean, disq).value <==>
            v !in disq && (how == "Exclude" || how == "Include") &&
            exists i :: 0 <= i < |tables[data].rows| && tables[data].rows[i][id.value] == v &&
                        (Code(tables[data].rows[i][column], prefix, clean) in sel <==> how == "Exclude")
  {
    var rows := tables[data].rows;
    var rs := Project(tables[data], id.value, column);
    var inSel := how == "Exclude";
    if how == "Exclude" || how == "Include" {
      if how == "Exclude" {
        ExcludeHits(rs, disq, sel, prefix, clean, v);
      } else {
        IncludeHits(rs, disq, sel, prefix, clean, v);
      }
      if HasCode(rs, disq, v, prefix, clean, sel, inSel) {
        var i :| 0 <= i < |rs| && rs[i].id == v && (Code(rs[i].value, prefix, clean) in sel <==> inSel);
        assert rows[i][id.value] == v && (Code(rows[i][column], prefix, clean) in sel <==> inSel);
      }
      if v !in disq && exists i :: 0 <= i < |rows| && rows[i][id.value] == v &&
                                   (Code(rows[i][column], prefix, clean) in sel <==> inSel) {
        var i :| 0 <= i < |rows| && rows[i][id.value] == v && (Code(rows[i][column], prefix, clean) in sel <==> inSel);
        assert rs[i].id == v && (Code(rs[i].value, prefix, clean) in sel <==> inSel);
      }
    }
  }

  /** Seen row by row, a range rule that succeeds newly disqualifies `v` iff
      `v` is not yet disqualified and some row of the table with identifier
      `v` has a value outside a set bound. */
  lemma RangeRuleHits(tables: map<string, Table>, id: Option<string>, data: string, column: string,
                      min: Option<real>, max: Option<real>, disq: set<Value>, v: Value)
    requires AllWellFormed(tables)
    requires RangeRule(tables, id, data, column, min, max, disq).Ok?
    ensures v in RangeRule(tables, id, data, column, min, max, disq).value <==>
            v !in disq &&
            exists i :: 0 <= i < |tables[data].rows| && tables[data].rows[i][id.value] == v &&
                        Violates(tables[data].rows[i][column], min, max)
  {
    var rows := tables[data].rows;
    var rs := Project(tables[data], id.value, column);
    RangeHitsIff(rs, disq, min, max, v);
    if v in RangeRule(tables, id, data, column, min, max, disq).value {
      var i :| 0 <= i < |rs| && rs[i].id == v && Violates(rs[i].value, min, max);
      assert rows[i][id.value] == v && Violates(rows[i][column], min, max);
    }
    if v !in disq && exists i :: 0 <= i < |rows| && rows[i][id.value] == v && Violates(rows[i][column], min, max) {
      var i :| 0 <= i < |rows| && rows[i][id.value] == v && Violates(rows[i][column], min, max);
      assert rs[i].id == v && Violates(rs[i].value, min, max);
    }
  }

  /** Disqualifying more identifiers first leaves fewer rows to look at. */
  lemma RestrictShrinks(rs: seq<Record>, x: set<Value>, y: set<Value>)
    requires x <= y
    ensures forall i :: 0 <= i < |Restrict(rs, y)| ==> Restrict(rs, y)[i] in Restrict(rs, x)
  {
  }

  /** An offense rule that succeeds from `x` also succeeds from any larger `y`,
      and what it adds to `y` is the same: the rows it skips from `y` belong to
      identifiers already in `y`. */
  lemma OffenseRuleAbsorbs(tables: map<string, Table>, id: Option<string>, data: string, sel: set<string>,
                           how: string, prefix: string, column: string, clean: string -> string,
                           x: set<Value>, y: set<Value>)
    requires AllWellFormed(tables)
    requires x <= y
    requires OffenseRule(tables, id, data, sel, how, prefix, column, clean, x).Ok?
    ensures OffenseRule(tables, id, data, sel, how, prefix, column, clean, y).Ok?
    ensures y + OffenseRule(tables, id, data, sel, how, prefix, column, clean, x).value ==
            y + OffenseRule(tables, id, data, sel, how, prefix, column, clean, y).value
  {
    var rs := Project(tables[data], id.value, column);
    RestrictShrinks(rs, x, y);
    assert AllText(Restrict(rs, y)) by {
      forall i | 0 <= i < |Restrict(rs, y)| ensures Restrict(rs, y)[i].value.Str? {
        var j :| 0 <= j < |Restrict(rs, x)| && Restrict(rs, x)[j] == Restrict(rs, y)[i];
      }
    }
    forall v ensures v in OffenseRule(tables, id, data, sel, how, prefix, column, clean, x).value ==>
                     v in OffenseRule(tables, id, data, sel, how, prefix, column, clean, y).value || v in y {
      OffenseRuleHits(tables, id, data, sel, how, prefix, column, clean, x, v);
      OffenseRuleHits(tables, id, data, sel, how, prefix, column, clean, y, v);
    }
    forall v ensures v in OffenseRule(tables, id, data, sel, how, prefix, column, clean, y).value ==>
                     v in OffenseRule(tables, id, data, sel, how, prefix, column, clean, x).value {
      OffenseRuleHits(tables, id, data, sel, how, prefix, column, clean, x, v);
      OffenseRuleHits(tables, id, data, sel, how, prefix, column, clean, y, v);
    }
  }

  /** A range rule that succeeds from `x` also succeeds from any larger `y`,
      and what it adds to `y` is the same. */
  lemma RangeRuleAbsorbs(tables: map<string, Table>, id: Option<string>, data: string, column: string,
                         min: Option<real>, max: Option<real>, x: set<Value>, y: set<Value>)
    requires AllWellFormed(tables)
    requires x <= y
    requires RangeRule(tables, id, data, column, min, max, x).Ok?
    ensures RangeRule(tables, id, data, column, min, max, y).Ok?
    ensures y + RangeRule(tables, id, data, column, min, max, x).value ==
            y + RangeRule(tables, id, data, column, min, max, y).value
  {
    var rs := Project(tables[data], id.value, column);
    RestrictShrinks(rs, x, y);
    assert AllNumeric(Restrict(rs, y)) by {
      forall i | 0 <= i < |Restrict(rs, y)| ensures Restrict(rs, y)[i].value.Num? {
        var j :| 0 <= j < |Restrict(rs, x)| && Restrict(rs, x)[j] == Restrict(rs, y)[i];
      }
    }
    forall v ensures v in RangeRule(tables, id, data, column, min, max, x).value ==>
                     v in RangeRule(tables, id, data, column, min, max, y).value || v in y {
      RangeRuleHits(tables, id, data, column, min, max, x, v);
      RangeRuleHits(tables, id, data, column, min, max, y, v);
    }
    forall v ensures v in RangeRule(tables, id, data, column, min, max, y).value ==>
                     v in RangeRule(tables, id, data, column, min, max, x).value {
      RangeRuleHits(tables, id, data, column, min, max, x, v);
      RangeRuleHits(tables, id, data, column, min, max, y, v);
    }
  }
}
