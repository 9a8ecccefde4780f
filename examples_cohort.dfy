/** Worked cases of the evaluators on small tables. */
module CohortExamples {
  import opened Wrappers
  import opened Strings
  import opened Tables
  import opened Evaluators

  /** Offense rows with the "PC" prefix: person 1 has 459 and 211, person 2 has 211. */
  function OffenseRows(): seq<Record> {
    [Record(Str("1"), Str("PC459")), Record(Str("1"), Str("PC211")), Record(Str("2"), Str("PC211"))]
  }

  /** A code without the letter 'P' loses exactly its "PC" prefix. */
  lemma StrippedCode(c: string, clean: string -> string)
    requires 'P' !in c
    ensures Code(Str("PC" + c), "PC", clean) == clean(c)
  {
    AbsentLetter(c, "PC", 'P');
    StripPrefix("PC", c);
  }

  /** The prefix is stripped before matching. */
  lemma StrippedCodes(clean: string -> string)
    requires clean("459") == "459" && clean("211") == "211"
    ensures Code(Str("PC459"), "PC", clean) == "459"
    ensures Code(Str("PC211"), "PC", clean) == "211"
  {
    StrippedCode("459", clean);
    assert "PC" + "459" == "PC459";
    StrippedCode("211", clean);
    assert "PC" + "211" == "PC211";
  }

  /** Pins down an Exclude rule's result from the rows with a selected code. */
  lemma ExcludeHitsAre(rs: seq<Record>, sel: set<string>, prefix: string, clean: string -> string, expected: set<Value>)
    requires forall v :: HasCode(rs, {}, v, prefix, clean, sel, true) <==> v in expected
    ensures OffenseHits(rs, {}, sel, "Exclude", prefix, clean) == expected
  {
    forall v | v in OffenseHits(rs, {}, sel, "Exclude", prefix, clean) ensures v in expected {
      ExcludeHits(rs, {}, sel, prefix, clean, v);
    }
    forall v | v in expected ensures v in OffenseHits(rs, {}, sel, "Exclude", prefix, clean) {
      ExcludeHits(rs, {}, sel, prefix, clean, v);
    }
  }

  /** Pins down an Include rule's result from the rows with an unselected code. */
  lemma IncludeHitsAre(rs: seq<Record>, sel: set<string>, prefix: string, clean: string -> string, expected: set<Value>)
    requires forall v :: HasCode(rs, {}, v, prefix, clean, sel, false) <==> v in expected
    ensures OffenseHits(rs, {}, sel, "Include", prefix, clean) == expected
  {
    forall v | v in OffenseHits(rs, {}, sel, "Include", prefix, clean) ensures v in expected {
      IncludeHits(rs, {}, sel, prefix, clean, v);
    }
    forall v | v in expected ensures v in OffenseHits(rs, {}, sel, "Include", prefix, clean) {
      IncludeHits(rs, {}, sel, prefix, clean, v);
    }
  }

  /** The codes of the offense rows, after prefix stripping. */
  lemma OffenseRowsCodes(clean: string -> string)
    requires clean("459") == "459" && clean("211") == "211"
    ensures |OffenseRows()| == 3
    ensures OffenseRows()[0].id == OffenseRows()[1].id == Str("1") && OffenseRows()[2].id == Str("2")
    ensures Code(OffenseRows()[0].value, "PC", clean) == "459"
    ensures Code(OffenseRows()[1].value, "PC", clean) == "211"
    ensures Code(OffenseRows()[2].value, "PC", clean) == "211"
  {
    StrippedCodes(clean);
  }

  /** Excluding 459 disqualifies person 1 only. */
  lemma ExcludeExample(clean: string -> string)
    requires clean("459") == "459" && clean("211") == "211"
    ensures OffenseHits(OffenseRows(), {}, {"459"}, "Exclude", "PC", clean) == {Str("1")}
  {
    var rs := OffenseRows();
    OffenseRowsCodes(clean);
    forall v ensures HasCode(rs, {}, v, "PC", clean, {"459"}, true) <==> v in {Str("1")} {
      if v == Str("1") {
        assert rs[0].id == v;
      }
    }
    ExcludeHitsAre(rs, {"459"}, "PC", clean, {Str("1")});
  }

  /** Including only 211 disqualifies person 1, who also has 459; person 2 qualifies. */
  lemma IncludeExample(clean: string -> string)
    requires clean("459") == "459" && clean("211") == "211"
    ensures OffenseHits(OffenseRows(), {}, {"211"}, "Include", "PC", clean) == {Str("1")}
  {
    var rs := OffenseRows();
    OffenseRowsCodes(clean);
    forall v ensures HasCode(rs, {}, v, "PC", clean, {"211"}, false) <==> v in {Str("1")} {
      if v == Str("1") {
        assert rs[0].id == v;
      }
    }
    IncludeHitsAre(rs, {"211"}, "PC", clean, {Str("1")});
  }

  /** An identifier already disqualified is not looked at again. */
  lemma ExcludeSkipsDisqualified(clean: string -> string)
    requires clean("459") == "459" && clean("211") == "211"
    ensures OffenseHits(OffenseRows(), {Str("1")}, {"459"}, "Exclude", "PC", clean) == {}
  {
    var rs := OffenseRows();
    OffenseRowsCodes(clean);
    forall v | v in OffenseHits(rs, {Str("1")}, {"459"}, "Exclude", "PC", clean) ensures false {
      ExcludeHits(rs, {Str("1")}, {"459"}, "PC", clean, v);
    }
  }

  /** Sentence lengths 100, 240 and 300 months for persons 1, 2 and 3. */
  function SentenceRows(): seq<Record> {
    [Record(Str("1"), Num(100.0)), Record(Str("2"), Num(240.0)), Record(Str("3"), Num(300.0))]
  }

  lemma SentenceRowsNumeric(disq: set<Value>)
    ensures AllNumeric(Restrict(SentenceRows(), disq))
  {
    var rs := SentenceRows();
    assert AllNumeric(rs);
  }

  /** Some row of `v` lies outside a set bound. */
  predicate ViolatedBy(rs: seq<Record>, v: Value, min: Option<real>, max: Option<real>) {
    exists i :: 0 <= i < |rs| && rs[i].id == v && Violates(rs[i].value, min, max)
  }

  lemma SentenceRowsViolations(v: Value)
    ensures ViolatedBy(SentenceRows(), v, Some(240.0), Some(10000000.0)) <==> v == Str("1")
  {
    var rs := SentenceRows();
    var lo, hi := Some(240.0), Some(10000000.0);
    if v == Str("1") {
      assert rs[0].id == v && Violates(rs[0].value, lo, hi);
    }
  }

  /** Pins down a range rule's result from the rows that violate a bound. */
  lemma RangeHitsAre(rs: seq<Record>, min: Option<real>, max: Option<real>, expected: set<Value>)
    requires AllNumeric(Restrict(rs, {}))
    requires forall v :: ViolatedBy(rs, v, min, max) <==> v in expected
    ensures RangeHits(rs, {}, min, max) == expected
  {
    forall v | v in RangeHits(rs, {}, min, max) ensures v in expected {
      RangeHitsIff(rs, {}, min, max, v);
    }
    forall v | v in expected ensures v in RangeHits(rs, {}, min, max) {
      RangeHitsIff(rs, {}, min, max, v);
    }
  }

  /** Against `[240, 10000000]` only the value below the minimum
      disqualifies; 240 itself qualifies. */
  lemma RangeExample()
    ensures RangeHits(SentenceRows(), {}, Some(240.0), Some(10000000.0)) == {Str("1")}
  {
    SentenceRowsNumeric({});
    forall v ensures ViolatedBy(SentenceRows(), v, Some(240.0), Some(10000000.0)) <==> v in {Str("1")} {
      SentenceRowsViolations(v);
    }
    RangeHitsAre(SentenceRows(), Some(240.0), Some(10000000.0), {Str("1")});
  }

  /** A `min` of 0 with the "no maximum" bound disqualifies nobody whose
      values stay below that bound, however small they are. */
  lemma ZeroMinimumExample()
    ensures RangeHits([Record(Str("1"), Num(-5.0)), Record(Str("2"), Num(7.0))], {}, Some(0.0), Some(10000000.0)) == {}
  {
    var rs := [Record(Str("1"), Num(-5.0)), Record(Str("2"), Num(7.0))];
    assert AllNumeric(Restrict(rs, {}));
    forall v ensures ViolatedBy(rs, v, Some(0.0), Some(10000000.0)) <==> v in {} {
      assert !Violates(rs[0].value, Some(0.0), Some(10000000.0));
      assert !Violates(rs[1].value, Some(0.0), Some(10000000.0));
    }
    RangeHitsAre(rs, Some(0.0), Some(10000000.0), {});
  }
}
