/** `df.rename(columns=mapping)`: each label that is a key of the mapping is
    replaced by its image, every other label stays, and the cells are carried
    over unchanged. A key naming no column is ignored. */
module Rename {
  import opened Tables

  function NewName(c: string, mapping: map<string, string>): string {
    if c in mapping then mapping[c] else c
  }

  function RenamedColumns(columns: seq<string>, mapping: map<string, string>): seq<string> {
    seq(|columns|, i requires 0 <= i < |columns| => NewName(columns[i], mapping))
  }

  /** The row with each column's cell filed under the column's new label. */
  function RenameRow(row: Row, columns: seq<string>, mapping: map<string, string>): Row
    decreases |columns|
  {
    if columns == [] then map[]
    else RenameRow(row, columns[1..], mapping)[NewName(columns[0], mapping) := Cell(row, columns[0])]
  }

  /** Renaming onto a label another column keeps is refused with SchemaConflict:
      a row as a map cannot hold two columns with one label. */
  function RenameColumns(t: Table, mapping: map<string, string>): (r: Result<Table>)
    ensures r.Err? <==> !Distinct(RenamedColumns(t.columns, mapping))
    ensures r.Err? ==> r.error == SchemaConflict
    ensures r.Ok? ==> && |r.value.columns| == |t.columns| && |r.value.rows| == |t.rows|
                      && (forall j | 0 <= j < |t.columns| :: r.value.columns[j] == NewName(t.columns[j], mapping))
                      && Distinct(r.value.columns)
  {
    var columns := RenamedColumns(t.columns, mapping);
    if !Distinct(columns) then Err(SchemaConflict)
    else Ok(Table(columns, seq(|t.rows|, i requires 0 <= i < |t.rows| => RenameRow(t.rows[i], t.columns, mapping))))
  }

  lemma {:induction false} RenameRowKeys(row: Row, columns: seq<string>, mapping: map<string, string>)
    ensures RenameRow(row, columns, mapping).Keys == set c | c in RenamedColumns(columns, mapping)
    decreases |columns|
  {
    if columns != [] {
      var names := RenamedColumns(columns, mapping);
      assert RenamedColumns(columns[1..], mapping) == names[1..];
      RenameRowKeys(row, columns[1..], mapping);
      assert names == [names[0]] + names[1..];
      assert (set c | c in names) == {names[0]} + (set c | c in names[1..]);
    }
  }

  lemma {:induction false} RenameRowCell(row: Row, columns: seq<string>, mapping: map<string, string>, i: nat)
    requires Distinct(RenamedColumns(columns, mapping)) && i < |columns|
    ensures Cell(RenameRow(row, columns, mapping), NewName(columns[i], mapping)) == Cell(row, columns[i])
    decreases |columns|
  {
    if i > 0 {
      var names := RenamedColumns(columns, mapping);
      assert RenamedColumns(columns[1..], mapping) == names[1..];
      DistinctTail(names);
      assert names[0] != names[i];
      assert columns[1..][i - 1] == columns[i];
      RenameRowCell(row, columns[1..], mapping, i - 1);
    }
  }

  lemma RenameRowCells(row: Row, columns: seq<string>, mapping: map<string, string>)
    requires Distinct(RenamedColumns(columns, mapping))
    ensures RenameRow(row, columns, mapping).Keys == set c | c in RenamedColumns(columns, mapping)
    ensures forall i | 0 <= i < |columns| ::
      Cell(RenameRow(row, columns, mapping), NewName(columns[i], mapping)) == Cell(row, columns[i])
  {
    RenameRowKeys(row, columns, mapping);
    forall i | 0 <= i < |columns|
      ensures Cell(RenameRow(row, columns, mapping), NewName(columns[i], mapping)) == Cell(row, columns[i])
    {
      RenameRowCell(row, columns, mapping, i);
    }
  }

  /** What a successful rename does: labels are mapped position by position,
      labels not in the mapping stay, the rows keep their count and order, and
      every cell is found under its column's new label. */
  lemma RenameColumnsCells(t: Table, mapping: map<string, string>)
    requires RenameColumns(t, mapping).Ok?
    ensures var out := RenameColumns(t, mapping).value;
      && |out.columns| == |t.columns|
      && (forall j | 0 <= j < |t.columns| :: out.columns[j] == NewName(t.columns[j], mapping))
      && (forall j | 0 <= j < |t.columns| && t.columns[j] !in mapping :: out.columns[j] == t.columns[j])
      && |out.rows| == |t.rows|
      && (forall i, j | 0 <= i < |t.rows| && 0 <= j < |t.columns| ::
            Cell(out.rows[i], out.columns[j]) == Cell(t.rows[i], t.columns[j]))
      && (WellFormed(t) ==> WellFormed(out))
  {
    var out := RenameColumns(t, mapping).value;
    forall i | 0 <= i < |t.rows| ensures
      && out.rows[i].Keys == (set c | c in out.columns)
      && forall j | 0 <= j < |t.columns| :: Cell(out.rows[i], out.columns[j]) == Cell(t.rows[i], t.columns[j])
    {
      RenameRowCells(t.rows[i], t.columns, mapping);
    }
    forall r | r in out.rows ensures r.Keys == set c | c in out.columns {
      var i :| 0 <= i < |out.rows| && out.rows[i] == r;
    }
  }

  /** Column by column: the cells of column `c` are found under `c`'s new label. */
  lemma RenameCellsByLabel(t: Table, mapping: map<string, string>, c: string)
    requires RenameColumns(t, mapping).Ok? && c in t.columns
    ensures NewName(c, mapping) in RenameColumns(t, mapping).value.columns
    ensures |RenameColumns(t, mapping).value.rows| == |t.rows|
    ensures forall i | 0 <= i < |t.rows| ::
      Cell(RenameColumns(t, mapping).value.rows[i], NewName(c, mapping)) == Cell(t.rows[i], c)
  {
    var j :| 0 <= j < |t.columns| && t.columns[j] == c;
    RenameColumnsCells(t, mapping);
    assert RenameColumns(t, mapping).value.columns[j] == NewName(c, mapping);
  }

  /** A mapping none of whose keys is a column leaves the table as it is. */
  lemma RenameAbsentIsNoOp(t: Table, mapping: map<string, string>)
    requires WellFormed(t) && forall c | c in t.columns :: c !in mapping
    ensures RenameColumns(t, mapping) == Ok(t)
  {
    assert RenamedColumns(t.columns, mapping) == t.columns;
    var rows := seq(|t.rows|, i requires 0 <= i < |t.rows| => RenameRow(t.rows[i], t.columns, mapping));
    forall i | 0 <= i < |t.rows| ensures rows[i] == t.rows[i] {
      RenameRowCells(t.rows[i], t.columns, mapping);
      assert t.rows[i] in t.rows;
      var r := RenameRow(t.rows[i], t.columns, mapping);
      forall c | c in t.rows[i] ensures r[c] == t.rows[i][c] {
        var j :| 0 <= j < |t.columns| && t.columns[j] == c;
        assert Cell(r, NewName(t.columns[j], mapping)) == Cell(t.rows[i], t.columns[j]);
      }
    }
    assert rows == t.rows;
  }

  /** When no new label is itself renamed, renaming a second time changes nothing. */
  lemma RenameIdempotent(t: Table, mapping: map<string, string>)
    requires WellFormed(t) && RenameColumns(t, mapping).Ok?
    requires forall k | k in mapping :: mapping[k] !in mapping
    ensures RenameColumns(RenameColumns(t, mapping).value, mapping) == RenameColumns(t, mapping)
  {
    RenameColumnsCells(t, mapping);
    RenameAbsentIsNoOp(RenameColumns(t, mapping).value, mapping);
  }
}
