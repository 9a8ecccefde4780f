/** Record tables: the in-memory data frames the engine reads. A table has a
    set of column names and an ordered sequence of rows; every row has a value
    for exactly the table's columns. */
module Tables {

  /** A cell: text (identifiers, offense codes) or a number (sentence lengths,
      time served). */
  datatype Value = Str(s: string) | Num(x: real)

  type Row = map<string, Value>

  datatype Table = Table(header: set<string>, rows: seq<Row>)

  /** The shape every data frame has: each row carries exactly the header's columns. */
  predicate WellFormed(t: Table) {
    forall i :: 0 <= i < |t.rows| ==> t.rows[i].Keys == t.header
  }

  /** The reasons a criterion can fail; each stands for the Python exception
      the source raises at that point. */
  datatype Failure =
    | MissingKey(key: string)      // KeyError on the ruleset
    | NoVariable                   // IndexError on `list(...keys())[0]`
    | NoCategories                 // offense categories never loaded
    | ExpansionFailed              // the implication expander raised
    | MissingTable(name: string)  // no raw table under that label
    | NoIdColumn                   // the shared identifier is unset or absent
    | MissingColumn(column: string)
    | NotText(column: string)      // `.str` on values that are not text
    | NotNumeric(column: string)   // comparison of text with a number

  /** One row seen through two columns: its identifier and one other value. */
  datatype Record = Record(id: Value, value: Value)

  /** `df[[id, col]]`: row `i` seen through the identifier column and `col`. */
  function Project(t: Table, idCol: string, col: string): seq<Record>
    requires WellFormed(t) && idCol in t.header && col in t.header
  {
    seq(|t.rows|, i requires 0 <= i < |t.rows| => Record(t.rows[i][idCol], t.rows[i][col]))
  }

  /** The identifiers occurring in a table (`df[id].unique()` as a set). */
  function IdsOf(t: Table, idCol: string): set<Value>
    requires WellFormed(t) && idCol in t.header
  {
    set i | 0 <= i < |t.rows| :: t.rows[i][idCol]
  }

  /** The two-column view has the table's identifiers, neither more nor fewer. */
  lemma ProjectIds(t: Table, idCol: string, col: string)
    requires WellFormed(t) && idCol in t.header && col in t.header
    ensures var rs := Project(t, idCol, col);
      |rs| == |t.rows| && (set i | 0 <= i < |rs| :: rs[i].id) == IdsOf(t, idCol)
  {
    var rs := Project(t, idCol, col);
    forall v | v in IdsOf(t, idCol) ensures v in (set i | 0 <= i < |rs| :: rs[i].id) {
      var i :| 0 <= i < |t.rows| && t.rows[i][idCol] == v;
      assert rs[i].id == v;
    }
  }

  /** The rows whose identifier is not in `disq`, in their original order:
      `df[~df[id].isin(disq)]`. */
  function KeepRows(rows: seq<Row>, idCol: string, disq: set<Value>): (r: seq<Row>)
    requires forall i :: 0 <= i < |rows| ==> idCol in rows[i]
    ensures |r| <= |rows|
    ensures forall i :: 0 <= i < |r| ==> r[i] in rows && idCol in r[i] && r[i][idCol] !in disq
    ensures forall i :: 0 <= i < |rows| && rows[i][idCol] !in disq ==> rows[i] in r
  {
    if rows == [] then []
    else
      var rest := KeepRows(rows[1..], idCol, disq);
      assert forall i :: 1 <= i < |rows| ==> rows[i] == rows[1..][i - 1];
      if rows[0][idCol] in disq then rest else [rows[0]] + rest
  }

  /** The filter works row by row: filtering two blocks of rows one after the
      other gives the filtered blocks one after the other. With the one-row
      case of the definition this fixes the result, so raw order and
      duplicate rows are kept. */
  lemma {:induction false} KeepRowsAppend(a: seq<Row>, b: seq<Row>, idCol: string, disq: set<Value>)
    requires forall i :: 0 <= i < |a| ==> idCol in a[i]
    requires forall i :: 0 <= i < |b| ==> idCol in b[i]
    ensures forall i :: 0 <= i < |a + b| ==> idCol in (a + b)[i]
    ensures KeepRows(a + b, idCol, disq) == KeepRows(a, idCol, disq) + KeepRows(b, idCol, disq)
    decreases |a|
  {
    assert forall i :: 0 <= i < |a + b| ==> (a + b)[i] == if i < |a| then a[i] else b[i - |a|];
    if a == [] {
      assert a + b == b;
    } else {
      assert (a + b)[1..] == a[1..] + b;
      assert forall i :: 0 <= i < |a[1..]| ==> a[1..][i] == a[i + 1];
      KeepRowsAppend(a[1..], b, idCol, disq);
      if a[0][idCol] !in disq {
        assert [a[0]] + (KeepRows(a[1..], idCol, disq) + KeepRows(b, idCol, disq))
            == ([a[0]] + KeepRows(a[1..], idCol, disq)) + KeepRows(b, idCol, disq);
      }
    }
  }

  /** One row is kept exactly when its identifier is not disqualified. */
  lemma KeepRowsSingle(x: Row, idCol: string, disq: set<Value>)
    requires idCol in x
    ensures KeepRows([x], idCol, disq) == if x[idCol] in disq then [] else [x]
  {
    assert [x][1..] == [];
  }

  /** The qualifying part of a table, as `get_responsive_data` computes it. */
  function Qualifying(t: Table, idCol: string, disq: set<Value>): (r: Table)
    requires WellFormed(t) && idCol in t.header
    ensures WellFormed(r) && r.header == t.header
    ensures forall i :: 0 <= i < |r.rows| ==> r.rows[i] in t.rows && r.rows[i][idCol] !in disq
    ensures forall i :: 0 <= i < |t.rows| && t.rows[i][idCol] !in disq ==> t.rows[i] in r.rows
  {
    Table(t.header, KeepRows(t.rows, idCol, disq))
  }

  /** The identifiers left in the qualifying table are exactly the table's
      identifiers minus the disqualified ones. */
  lemma QualifyingIds(t: Table, idCol: string, disq: set<Value>)
    requires WellFormed(t) && idCol in t.header
    ensures IdsOf(Qualifying(t, idCol, disq), idCol) == IdsOf(t, idCol) - disq
  {
    var q := Qualifying(t, idCol, disq);
    forall v | v in IdsOf(t, idCol) - disq ensures v in IdsOf(q, idCol) {
      var i :| 0 <= i < |t.rows| && t.rows[i][idCol] == v;
      var j :| 0 <= j < |q.rows| && q.rows[j] == t.rows[i];
    }
    forall v | v in IdsOf(q, idCol) ensures v in IdsOf(t, idCol) - disq {
      var j :| 0 <= j < |q.rows| && q.rows[j][idCol] == v;
      var i :| 0 <= i < |t.rows| && t.rows[i] == q.rows[j];
    }
  }

  /** With nothing disqualified, every row qualifies and the table is unchanged. */
  lemma {:induction false} KeepRowsNothingDisqualified(rows: seq<Row>, idCol: string)
    requires forall i :: 0 <= i < |rows| ==> idCol in rows[i]
    ensures KeepRows(rows, idCol, {}) == rows
  {
    if rows != [] {
      KeepRowsNothingDisqualified(rows[1..], idCol);
    }
  }

  lemma QualifyingNothingDisqualified(t: Table, idCol: string)
    requires WellFormed(t) && idCol in t.header
    ensures Qualifying(t, idCol, {}) == t
  {
    KeepRowsNothingDisqualified(t.rows, idCol);
  }
}
