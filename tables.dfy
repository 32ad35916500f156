/** The value-level model of a pandas DataFrame: cells, rows, tables, the
    errors pandas raises, boolean-mask selection and the subsequence relation
    that every filtering step keeps. */
module Tables {

  /** One cell. `Missing` stands for pandas' NaN / None. */
  datatype Value = Int(i: int) | Real(r: real) | Str(s: string) | Missing

  /** A row maps each column name of its table to the cell in that column. */
  type Row = map<string, Value>

  /** A table: the ordered column labels and the ordered rows. */
  datatype Table = Table(columns: seq<string>, rows: seq<Row>)

  /** The exceptions the modelled code can raise. */
  datatype Error =
    | KeyError(column: string)   // a column that is named is not in the table
    | TypeError(column: string)  // a text cell is compared with, or summed as, a number
    | SchemaConflict             // a rename would give two columns the same label
    | NoGroupKeys                // a groupby over an empty list of columns

  datatype Option<+T> = None | Some(value: T)

  datatype Result<+T> = Ok(value: T) | Err(error: Error) {
    predicate IsFailure() { Err? }
    function PropagateFailure<U>(): Result<U> requires Err? { Err(error) }
    function Extract(): T requires Ok? { value }
  }

  predicate Distinct<T(==)>(s: seq<T>) {
    forall i, j | 0 <= i < j < |s| :: s[i] != s[j]
  }

  lemma DistinctTail<T>(s: seq<T>)
    requires s != [] && Distinct(s)
    ensures Distinct(s[1..]) && s[0] !in s[1..]
  {
    forall i, j | 0 <= i < j < |s[1..]| ensures s[1..][i] != s[1..][j] {
      assert s[1..][i] == s[i + 1] && s[1..][j] == s[j + 1];
    }
  }

  /** The DataFrame invariant: distinct labels, every row has exactly those keys. */
  predicate WellFormed(t: Table) {
    Distinct(t.columns) && forall r | r in t.rows :: r.Keys == set c | c in t.columns
  }

  /** `row[column]`, read as Missing when the row has no such key. */
  function Cell(row: Row, column: string): Value {
    if column in row then row[column] else Missing
  }

  /** The tuple of a row's values in the given columns. */
  function KeyOf(row: Row, subset: seq<string>): seq<Value> {
    seq(|subset|, j requires 0 <= j < |subset| => Cell(row, subset[j]))
  }

  /** The first column of `subset` that is not a column of the table. */
  function FirstAbsent(subset: seq<string>, columns: seq<string>): (r: Option<string>)
    ensures r.None? <==> forall c | c in subset :: c in columns
    ensures r.Some? ==> r.value in subset && r.value !in columns
  {
    if subset == [] then None
    else if subset[0] !in columns then Some(subset[0])
    else FirstAbsent(subset[1..], columns)
  }

  /** True when some row holds text in `column`. */
  predicate HasText(rows: seq<Row>, column: string) {
    exists i | 0 <= i < |rows| :: Cell(rows[i], column).Str?
  }

  /** The element-wise tests the code applies to a column (against zero). */
  datatype Cond =
    | GreaterThanZero      // col > 0
    | AtLeastZero          // col >= 0
    | BelowZero            // col < 0
    | MissingOrAtMostZero  // col.isna() | (col <= 0)
    | IsMissing            // col.isna()

  function Signed(c: Cond, x: real): bool {
    match c
    case GreaterThanZero => x > 0.0
    case AtLeastZero => x >= 0.0
    case BelowZero => x < 0.0
    case MissingOrAtMostZero => x <= 0.0
    case IsMissing => false
  }

  /** NaN semantics: every comparison with Missing is false, only `isna` holds. */
  function Holds(c: Cond, v: Value): bool {
    match v
    case Missing => c == MissingOrAtMostZero || c == IsMissing
    case Str(_) => false
    case Int(i) => Signed(c, i as real)
    case Real(x) => Signed(c, x)
  }

  /** A row-wise boolean mask. */
  datatype Test =
    | Compare(column: string, cond: Cond)
    | HasKey(subset: seq<string>, key: seq<Value>)
    | KeyPresent(subset: seq<string>)

  predicate Passes(t: Test, row: Row) {
    match t
    case Compare(col, c) => Holds(c, Cell(row, col))
    case HasKey(subset, k) => KeyOf(row, subset) == k
    case KeyPresent(subset) => forall j | 0 <= j < |subset| :: Cell(row, subset[j]) != Missing
  }

  /** `df[mask]`: the rows that pass, in their original order. */
  function Where(rows: seq<Row>, t: Test): seq<Row> {
    if rows == [] then []
    else (if Passes(t, rows[0]) then [rows[0]] else []) + Where(rows[1..], t)
  }

  /** `|df[mask]|`, what the code logs through `.shape[0]`. */
  function CountWhere(rows: seq<Row>, t: Test): nat {
    |Where(rows, t)|
  }

  /** `a` is obtained from `b` by deleting elements. */
  predicate IsSubsequence<T(==)>(a: seq<T>, b: seq<T>)
    decreases |b|
  {
    |a| <= |b| &&
    (a == [] || (a[0] == b[0] && IsSubsequence(a[1..], b[1..])) || IsSubsequence(a, b[1..]))
  }

  /** No two rows share a key tuple. */
  predicate DistinctKeys(rows: seq<Row>, subset: seq<string>) {
    forall i, j | 0 <= i < j < |rows| :: KeyOf(rows[i], subset) != KeyOf(rows[j], subset)
  }

  lemma {:induction false} SubsequenceMembers<T>(a: seq<T>, b: seq<T>)
    requires IsSubsequence(a, b)
    ensures forall x | x in a :: x in b
    decreases |b|
  {
    if a == [] {
    } else if a[0] == b[0] && IsSubsequence(a[1..], b[1..]) {
      SubsequenceMembers(a[1..], b[1..]);
      forall x | x in a ensures x in b {
        if x != a[0] { assert x in a[1..]; }
      }
    } else {
      SubsequenceMembers(a, b[1..]);
    }
  }

  lemma {:induction false} SubsequenceKeepsDistinctKeys(a: seq<Row>, b: seq<Row>, subset: seq<string>)
    requires IsSubsequence(a, b) && DistinctKeys(b, subset)
    ensures DistinctKeys(a, subset)
    decreases |b|
  {
    if a == [] {
    } else if a[0] == b[0] && IsSubsequence(a[1..], b[1..]) {
      assert DistinctKeys(b[1..], subset) by {
        forall i, j | 0 <= i < j < |b[1..]|
          ensures KeyOf(b[1..][i], subset) != KeyOf(b[1..][j], subset)
        {
          assert b[1..][i] == b[i + 1] && b[1..][j] == b[j + 1];
        }
      }
      SubsequenceKeepsDistinctKeys(a[1..], b[1..], subset);
      SubsequenceMembers(a[1..], b[1..]);
      forall i, j | 0 <= i < j < |a| ensures KeyOf(a[i], subset) != KeyOf(a[j], subset) {
        if i == 0 {
          assert a[j] in a[1..] by { assert a[j] == a[1..][j - 1]; }
          var m :| 0 <= m < |b[1..]| && b[1..][m] == a[j];
          assert b[m + 1] == a[j];
        } else {
          assert a[i] == a[1..][i - 1] && a[j] == a[1..][j - 1];
        }
      }
    } else {
      assert DistinctKeys(b[1..], subset) by {
        forall i, j | 0 <= i < j < |b[1..]|
          ensures KeyOf(b[1..][i], subset) != KeyOf(b[1..][j], subset)
        {
          assert b[1..][i] == b[i + 1] && b[1..][j] == b[j + 1];
        }
      }
      SubsequenceKeepsDistinctKeys(a, b[1..], subset);
    }
  }

  lemma {:induction false} SubsequenceTransitive<T>(a: seq<T>, b: seq<T>, c: seq<T>)
    requires IsSubsequence(a, b) && IsSubsequence(b, c)
    ensures IsSubsequence(a, c)
    decreases |c|
  {
    if a == [] {
    } else if b[0] == c[0] && IsSubsequence(b[1..], c[1..]) {
      if a[0] == b[0] && IsSubsequence(a[1..], b[1..]) {
        SubsequenceTransitive(a[1..], b[1..], c[1..]);
      } else {
        SubsequenceTransitive(a, b[1..], c[1..]);
      }
    } else {
      SubsequenceTransitive(a, b, c[1..]);
    }
  }

  lemma {:induction false} WhereMembers(rows: seq<Row>, t: Test)
    ensures forall x :: x in Where(rows, t) <==> x in rows && Passes(t, x)
    decreases |rows|
  {
    if rows != [] {
      WhereMembers(rows[1..], t);
      assert rows == [rows[0]] + rows[1..];
    }
  }

  lemma {:induction false} WhereIsSubsequence(rows: seq<Row>, t: Test)
    ensures IsSubsequence(Where(rows, t), rows)
    decreases |rows|
  {
    if rows != [] {
      WhereIsSubsequence(rows[1..], t);
      WhereShorter(rows[1..], t);
      var w := Where(rows, t);
      if Passes(t, rows[0]) {
        assert w[0] == rows[0] && w[1..] == Where(rows[1..], t);
      } else {
        assert w == Where(rows[1..], t);
      }
    }
  }

  lemma {:induction false} WhereShorter(rows: seq<Row>, t: Test)
    ensures |Where(rows, t)| <= |rows|
    decreases |rows|
  {
    if rows != [] { WhereShorter(rows[1..], t); }
  }

  /** A mask every row passes keeps the table as it is. */
  lemma {:induction false} WhereAll(rows: seq<Row>, t: Test)
    requires forall x | x in rows :: Passes(t, x)
    ensures Where(rows, t) == rows
    decreases |rows|
  {
    if rows != [] {
      WhereAll(rows[1..], t);
      assert rows == [rows[0]] + rows[1..];
    }
  }

  /** Applying the same mask twice selects nothing more. */
  lemma WhereIdempotent(rows: seq<Row>, t: Test)
    ensures Where(Where(rows, t), t) == Where(rows, t)
  {
    WhereMembers(rows, t);
    WhereAll(Where(rows, t), t);
  }

  /** Rows that keep their key tuple, and a mask, keep distinct keys. */
  lemma WhereKeepsDistinctKeys(rows: seq<Row>, t: Test, subset: seq<string>)
    requires DistinctKeys(rows, subset)
    ensures DistinctKeys(Where(rows, t), subset)
  {
    WhereIsSubsequence(rows, t);
    SubsequenceKeepsDistinctKeys(Where(rows, t), rows, subset);
  }
  /** `df[df[column] <cond> 0]` on a whole table: an absent column raises
      KeyError, a text cell makes the comparison raise TypeError. */
  function Filter(t: Table, column: string, cond: Cond): (r: Result<Table>)
    ensures r.Err? <==> column !in t.columns || HasText(t.rows, column)
    ensures r.Err? ==> r.error == (if column !in t.columns then KeyError(column) else TypeError(column))
    ensures r.Ok? ==> && r.value.columns == t.columns
                      && IsSubsequence(r.value.rows, t.rows)
                      && (forall x | x in r.value.rows :: x in t.rows && Passes(Compare(column, cond), x))
  {
    if column !in t.columns then Err(KeyError(column))
    else if HasText(t.rows, column) then Err(TypeError(column))
    else
      WhereIsSubsequence(t.rows, Compare(column, cond));
      WhereMembers(t.rows, Compare(column, cond));
      Ok(Table(t.columns, Where(t.rows, Compare(column, cond))))
  }

  lemma NoTextInTail(rows: seq<Row>, column: string)
    requires rows != [] && !HasText(rows, column)
    ensures !HasText(rows[1..], column) && !Cell(rows[0], column).Str?
  {
  }

  /** On a column without text, `isna() | <= 0` holds exactly where `> 0` fails,
      so the invalid count equals the number of rows the `> 0` mask removes. */
  lemma {:induction false} InvalidIsComplement(rows: seq<Row>, column: string)
    requires !HasText(rows, column)
    ensures CountWhere(rows, Compare(column, MissingOrAtMostZero))
         == |rows| - CountWhere(rows, Compare(column, GreaterThanZero))
    decreases |rows|
  {
    if rows != [] {
      NoTextInTail(rows, column);
      InvalidIsComplement(rows[1..], column);
      var v := Cell(rows[0], column);
      var le, gt := Compare(column, MissingOrAtMostZero), Compare(column, GreaterThanZero);
      assert CountWhere(rows, le) == (if Holds(MissingOrAtMostZero, v) then 1 else 0) + CountWhere(rows[1..], le);
      assert CountWhere(rows, gt) == (if Holds(GreaterThanZero, v) then 1 else 0) + CountWhere(rows[1..], gt);
      assert Holds(MissingOrAtMostZero, v) != Holds(GreaterThanZero, v);
    }
  }

  /** On a column without text, the `>= 0` mask removes the `< 0` rows and the
      Missing rows, and only those. */
  lemma {:induction false} DroppedAreNegativeOrMissing(rows: seq<Row>, column: string)
    requires !HasText(rows, column)
    ensures |rows| - CountWhere(rows, Compare(column, AtLeastZero))
         == CountWhere(rows, Compare(column, BelowZero)) + CountWhere(rows, Compare(column, IsMissing))
    decreases |rows|
  {
    if rows != [] {
      NoTextInTail(rows, column);
      DroppedAreNegativeOrMissing(rows[1..], column);
      var v := Cell(rows[0], column);
      var ge, lt, na := Compare(column, AtLeastZero), Compare(column, BelowZero), Compare(column, IsMissing);
      assert CountWhere(rows, ge) == (if Holds(AtLeastZero, v) then 1 else 0) + CountWhere(rows[1..], ge);
      assert CountWhere(rows, lt) == (if Holds(BelowZero, v) then 1 else 0) + CountWhere(rows[1..], lt);
      assert CountWhere(rows, na) == (if Holds(IsMissing, v) then 1 else 0) + CountWhere(rows[1..], na);
      assert (if Holds(AtLeastZero, v) then 0 else 1) == (if Holds(BelowZero, v) then 1 else 0) + (if Holds(IsMissing, v) then 1 else 0);
    }
  }

  const CampaignNegative: Row := map["campaign_id" := Int(-1)]
  const CampaignZero: Row := map["campaign_id" := Int(0)]
  const CampaignMissing: Row := map["campaign_id" := Missing]
  const CampaignFive: Row := map["campaign_id" := Int(5)]
  const CampaignRows: seq<Row> := [CampaignNegative, CampaignZero, CampaignMissing, CampaignFive]

  lemma CampaignRowsSuffixes()
    ensures CampaignRows[1..] == [CampaignZero, CampaignMissing, CampaignFive]
    ensures [CampaignZero, CampaignMissing, CampaignFive][1..] == [CampaignMissing, CampaignFive]
    ensures [CampaignMissing, CampaignFive][1..] == [CampaignFive]
    ensures [CampaignFive][1..] == []
  {
  }

  lemma CampaignRowsKept()
    ensures Where(CampaignRows, Compare("campaign_id", GreaterThanZero)) == [CampaignFive]
  {
    var t := Compare("campaign_id", GreaterThanZero);
    CampaignRowsSuffixes();
    assert Where([CampaignFive], t) == [CampaignFive];
    assert Where([CampaignMissing, CampaignFive], t) == [CampaignFive];
    assert Where([CampaignZero, CampaignMissing, CampaignFive], t) == [CampaignFive];
  }

  lemma CampaignRowsInvalid()
    ensures Where(CampaignRows, Compare("campaign_id", MissingOrAtMostZero))
      == [CampaignNegative, CampaignZero, CampaignMissing]
  {
    var u := Compare("campaign_id", MissingOrAtMostZero);
    CampaignRowsSuffixes();
    assert Where([CampaignFive], u) == [];
    assert Where([CampaignMissing, CampaignFive], u) == [CampaignMissing];
    assert Where([CampaignZero, CampaignMissing, CampaignFive], u) == [CampaignZero, CampaignMissing];
  }

  /** The example of the `campaign_id` values -1, 0, missing and 5: the `> 0`
      mask keeps only the row with 5, and the invalid count is 3. */
  lemma CampaignFilterExample()
    ensures Filter(Table(["campaign_id"], CampaignRows), "campaign_id", GreaterThanZero)
      == Ok(Table(["campaign_id"], [CampaignFive]))
    ensures CountWhere(CampaignRows, Compare("campaign_id", MissingOrAtMostZero)) == 3
  {
    CampaignRowsSuffixes();
    assert !HasText(CampaignRows, "campaign_id");
    CampaignRowsKept();
    CampaignRowsInvalid();
  }
}
