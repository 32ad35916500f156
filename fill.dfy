/** `df.fillna({column: value, ...})`: every Missing cell in a column named by
    the map is replaced by that column's value; nothing else changes. A map key
    that names no column of the table is ignored. */
module Fill {
  import opened Tables

  function FillRow(row: Row, fill: map<string, Value>): Row {
    map c | c in row :: if c in fill && row[c] == Missing then fill[c] else row[c]
  }

  function FillNa(t: Table, fill: map<string, Value>): (r: Table)
    ensures r.columns == t.columns && |r.rows| == |t.rows|
    ensures forall i | 0 <= i < |t.rows| :: r.rows[i].Keys == t.rows[i].Keys
  {
    Table(t.columns, seq(|t.rows|, i requires 0 <= i < |t.rows| => FillRow(t.rows[i], fill)))
  }

  /** What fillna does to each cell: the labels and the row count stay, a cell
      changes only when it is Missing and its column is in the map, and then it
      becomes the map's value. */
  lemma FillNaCells(t: Table, fill: map<string, Value>)
    ensures FillNa(t, fill).columns == t.columns && |FillNa(t, fill).rows| == |t.rows|
    ensures forall i | 0 <= i < |t.rows| :: FillNa(t, fill).rows[i].Keys == t.rows[i].Keys
    ensures forall i, c | 0 <= i < |t.rows| && c !in fill ::
      Cell(FillNa(t, fill).rows[i], c) == Cell(t.rows[i], c)
    ensures forall i, c | 0 <= i < |t.rows| && Cell(t.rows[i], c) != Missing ::
      Cell(FillNa(t, fill).rows[i], c) == Cell(t.rows[i], c)
    ensures forall i, c | 0 <= i < |t.rows| && c in fill && c in t.rows[i] && t.rows[i][c] == Missing ::
      Cell(FillNa(t, fill).rows[i], c) == fill[c]
  {
  }

  /** After the fill, a column whose fill value is not Missing has no Missing cell. */
  lemma FillNaLeavesNoMissing(t: Table, fill: map<string, Value>, c: string)
    requires c in fill && fill[c] != Missing
    ensures forall r | r in FillNa(t, fill).rows && c in r :: r[c] != Missing
  {
    forall r | r in FillNa(t, fill).rows && c in r ensures r[c] != Missing {
      var i :| 0 <= i < |t.rows| && FillNa(t, fill).rows[i] == r;
    }
  }

  /** In a well-formed table every row has the column, so after filling it with
      a non-Missing value no cell of that column is Missing. */
  lemma FillNaFillsColumn(t: Table, fill: map<string, Value>, c: string)
    requires WellFormed(t) && c in t.columns && c in fill && fill[c] != Missing
    ensures forall r | r in FillNa(t, fill).rows :: Cell(r, c) != Missing
  {
    forall r | r in FillNa(t, fill).rows ensures Cell(r, c) != Missing {
      var i :| 0 <= i < |t.rows| && FillNa(t, fill).rows[i] == r;
      assert t.rows[i] in t.rows;
    }
  }

  lemma FillRowTwice(row: Row, fill: map<string, Value>)
    ensures FillRow(FillRow(row, fill), fill) == FillRow(row, fill)
  {
    var once := FillRow(row, fill);
    var twice := FillRow(once, fill);
    assert twice.Keys == once.Keys;
    forall c | c in once ensures twice[c] == once[c] {
    }
  }

  /** Filling twice is filling once. */
  lemma FillNaIdempotent(t: Table, fill: map<string, Value>)
    ensures FillNa(FillNa(t, fill), fill) == FillNa(t, fill)
  {
    var once := FillNa(t, fill);
    forall i | 0 <= i < |t.rows| ensures FillNa(once, fill).rows[i] == once.rows[i] {
      FillRowTwice(t.rows[i], fill);
    }
  }

  /** Only the map entries that name a column of the table matter. */
  lemma FillNaIgnoresAbsentColumns(t: Table, fill: map<string, Value>)
    requires WellFormed(t)
    ensures FillNa(t, fill) == FillNa(t, map c | c in fill && c in t.columns :: fill[c])
  {
    var used := map c | c in fill && c in t.columns :: fill[c];
    forall i | 0 <= i < |t.rows| ensures FillRow(t.rows[i], fill) == FillRow(t.rows[i], used) {
      assert t.rows[i] in t.rows;
      assert forall c | c in t.rows[i] :: c in t.columns;
    }
  }

  /** A fill map none of whose keys is a column leaves the table unchanged. */
  lemma FillNaAbsentIsNoOp(t: Table, fill: map<string, Value>)
    requires WellFormed(t) && forall c | c in fill :: c !in t.columns
    ensures FillNa(t, fill) == t
  {
    forall i | 0 <= i < |t.rows| ensures FillRow(t.rows[i], fill) == t.rows[i] {
      assert t.rows[i] in t.rows;
      assert forall c | c in t.rows[i] :: c in t.columns;
    }
  }

  /** Key tuples over columns the map does not name are untouched. */
  lemma FillNaKeepsKeys(t: Table, fill: map<string, Value>, subset: seq<string>)
    requires forall c | c in subset :: c !in fill
    ensures forall i | 0 <= i < |t.rows| :: KeyOf(FillNa(t, fill).rows[i], subset) == KeyOf(t.rows[i], subset)
    ensures DistinctKeys(t.rows, subset) ==> DistinctKeys(FillNa(t, fill).rows, subset)
  {
    forall i | 0 <= i < |t.rows| ensures KeyOf(FillNa(t, fill).rows[i], subset) == KeyOf(t.rows[i], subset) {
      assert forall j | 0 <= j < |subset| :: Cell(FillNa(t, fill).rows[i], subset[j]) == Cell(t.rows[i], subset[j]);
    }
  }
}
