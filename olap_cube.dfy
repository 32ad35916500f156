/** `create_olap_cube` with the metrics `main` passes
    (`sale_amount: ["sum"]`, `sale_id: "count"`), and the left merge of the
    cube with the customers' names.

    A row with a Missing value in any dimension belongs to no group (pandas'
    `dropna=True`); unlike pandas, which sorts the groups by key, the model
    lists them in the order their dimension tuple first appears. */
module OlapCube {
  import opened Tables
  import opened Dedup
  import opened ColumnNaming

  const SaleAmount := "sale_amount"
  const SaleId := "sale_id"
  const CustomerId := "customer_id"
  const CustomerName := "name"

  /** The metrics dict of `main`, in its insertion order. */
  const SalesMetrics: Metrics := [("sale_amount", Listed(["sum"])), ("sale_id", Bare("count"))]

  /** The dimensions of `main`'s cube. */
  const CustomerDims: seq<string> := ["customer_id"]

  /** One cube row: the group's dimension tuple, `sale_amount_sum`,
      `sale_id_count`, `sale_ids` and `avg_transaction_size` (None where the
      division has a zero count). */
  datatype CubeRow = CubeRow(
    key: seq<Value>,
    saleAmountSum: real,
    saleIdCount: nat,
    saleIds: seq<Value>,
    avgTransactionSize: Option<real>)

  datatype Cube = Cube(columns: seq<string>, rows: seq<CubeRow>)

  /** A sale amount as `sum` adds it: Missing is skipped (counts as 0). */
  function Amount(v: Value): real {
    match v
    case Int(i) => i as real
    case Real(x) => x
    case _ => 0.0
  }

  function AmountSum(rows: seq<Row>): real
    decreases |rows|
  {
    if rows == [] then 0.0 else Amount(Cell(rows[0], SaleAmount)) + AmountSum(rows[1..])
  }

  /** `count`: the number of non-Missing sale ids. */
  function IdCount(rows: seq<Row>): nat
    decreases |rows|
  {
    if rows == [] then 0
    else (if Cell(rows[0], SaleId) != Missing then 1 else 0) + IdCount(rows[1..])
  }

  /** `apply(list)` on the sale_id column: every sale id of the group, in row order. */
  function Ids(rows: seq<Row>): seq<Value> {
    seq(|rows|, i requires 0 <= i < |rows| => Cell(rows[i], SaleId))
  }

  /** The rows that `groupby` places in some group. */
  function Grouped(rows: seq<Row>, dims: seq<string>): seq<Row> {
    Where(rows, KeyPresent(dims))
  }

  /** The distinct dimension tuples, in order of first appearance. */
  function GroupKeys(rows: seq<Row>, dims: seq<string>): seq<seq<Value>> {
    var firsts := DropDuplicateRows(Grouped(rows, dims), dims);
    seq(|firsts|, i requires 0 <= i < |firsts| => KeyOf(firsts[i], dims))
  }

  function GroupOf(rows: seq<Row>, dims: seq<string>, key: seq<Value>): seq<Row> {
    Where(Grouped(rows, dims), HasKey(dims, key))
  }

  /** `sale_amount_sum / sale_id_count`. */
  function Average(sum: real, count: nat): (r: Option<real>)
    ensures r.None? <==> count == 0
    ensures r.Some? ==> r.value * count as real == sum
  {
    if count == 0 then None else Some(sum / count as real)
  }

  function Aggregate(key: seq<Value>, group: seq<Row>): CubeRow {
    CubeRow(key, AmountSum(group), IdCount(group), Ids(group), Average(AmountSum(group), IdCount(group)))
  }

  function CubeRows(rows: seq<Row>, dims: seq<string>, keys: seq<seq<Value>>): seq<CubeRow> {
    seq(|keys|, i requires 0 <= i < |keys| => Aggregate(keys[i], GroupOf(rows, dims, keys[i])))
  }

  /** The labels after `cube.columns = explicit_columns` and the average column. */
  function CubeColumns(dims: seq<string>): seq<string> {
    ColumnNames(dims, SalesMetrics) + ["sale_ids", "avg_transaction_size"]
  }

  /** `create_olap_cube(sales_df, dims, metrics)` with `main`'s metrics.
      An empty dimension list, an absent dimension or metric column, and text
      among the grouped sale amounts are the ways it raises. */
  function OlapCube(sales: Table, dims: seq<string>): (r: Result<Cube>)
    ensures r.Err? <==> (|| dims == [] || (exists c | c in dims :: c !in sales.columns)
                         || SaleAmount !in sales.columns || SaleId !in sales.columns
                         || HasText(Grouped(sales.rows, dims), SaleAmount))
    ensures r.Ok? ==> (&& r.value.columns == CubeColumns(dims)
                       && |r.value.rows| == |Keys(Grouped(sales.rows, dims), dims)|)
  {
    GroupKeysDistinctAndCovering(sales.rows, dims);
    if dims == [] then Err(NoGroupKeys)
    else match FirstAbsent(dims, sales.columns)
    case Some(c) => Err(KeyError(c))
    case None =>
      if SaleAmount !in sales.columns then Err(KeyError(SaleAmount))
      else if SaleId !in sales.columns then Err(KeyError(SaleId))
      else if HasText(Grouped(sales.rows, dims), SaleAmount) then Err(TypeError(SaleAmount))
      else Ok(Cube(CubeColumns(dims), CubeRows(sales.rows, dims, GroupKeys(sales.rows, dims))))
  }

  /** The function body step by step: group and aggregate, name the columns
      with `generate_column_names` plus `sale_ids`, then add the average. */
  method CreateOlapCube(salesDf: Table, dimensions: seq<string>) returns (cube: Result<Cube>)
    ensures cube == OlapCube(salesDf, dimensions)
  {
    if dimensions == [] {
      return Err(NoGroupKeys);
    }
    var absent := FirstAbsent(dimensions, salesDf.columns);
    if absent.Some? {
      return Err(KeyError(absent.value));
    }
    if SaleAmount !in salesDf.columns {
      return Err(KeyError(SaleAmount));
    }
    if SaleId !in salesDf.columns {
      return Err(KeyError(SaleId));
    }
    var grouped := Grouped(salesDf.rows, dimensions);
    if HasText(grouped, SaleAmount) {
      return Err(TypeError(SaleAmount));
    }
    var rows := CubeRows(salesDf.rows, dimensions, GroupKeys(salesDf.rows, dimensions));
    var explicitColumns := GenerateColumnNames(dimensions, SalesMetrics);
    explicitColumns := explicitColumns + ["sale_ids"];
    assert explicitColumns + ["avg_transaction_size"] == CubeColumns(dimensions);
    cube := Ok(Cube(explicitColumns + ["avg_transaction_size"], rows));
  }

  // ---------------------------------------------------------------------
  // The groups

  lemma KeysOfDropDuplicates(rows: seq<Row>, dims: seq<string>)
    ensures forall k :: k in GroupKeys(rows, dims) <==> k in Keys(Grouped(rows, dims), dims)
  {
    var firsts := DropDuplicateRows(Grouped(rows, dims), dims);
    DropDuplicatesCount(Grouped(rows, dims), dims);
    forall k ensures k in GroupKeys(rows, dims) <==> k in Keys(firsts, dims) {
      if k in Keys(firsts, dims) {
        var r :| r in firsts && KeyOf(r, dims) == k;
        var i :| 0 <= i < |firsts| && firsts[i] == r;
        assert GroupKeys(rows, dims)[i] == k;
      }
    }
  }

  /** One cube row per distinct dimension tuple: the keys are pairwise
      different, and they are exactly the tuples of the grouped rows. */
  lemma GroupKeysDistinctAndCovering(rows: seq<Row>, dims: seq<string>)
    ensures Distinct(GroupKeys(rows, dims))
    ensures |GroupKeys(rows, dims)| == |Keys(Grouped(rows, dims), dims)|
    ensures forall r | r in Grouped(rows, dims) :: KeyOf(r, dims) in GroupKeys(rows, dims)
    ensures forall k | k in GroupKeys(rows, dims) :: exists r | r in Grouped(rows, dims) :: KeyOf(r, dims) == k
  {
    DropDuplicatesDistinct(Grouped(rows, dims), dims);
    DropDuplicatesCount(Grouped(rows, dims), dims);
    KeysOfDropDuplicates(rows, dims);
  }

  /** Every grouped row lies in the group of exactly one cube row. */
  lemma EveryRowInExactlyOneGroup(rows: seq<Row>, dims: seq<string>, r: Row)
    requires r in Grouped(rows, dims)
    ensures exists i | 0 <= i < |GroupKeys(rows, dims)| :: r in GroupOf(rows, dims, GroupKeys(rows, dims)[i])
    ensures forall i, j | 0 <= i < |GroupKeys(rows, dims)| && 0 <= j < |GroupKeys(rows, dims)|
      && r in GroupOf(rows, dims, GroupKeys(rows, dims)[i]) && r in GroupOf(rows, dims, GroupKeys(rows, dims)[j]) :: i == j
  {
    var keys := GroupKeys(rows, dims);
    GroupKeysDistinctAndCovering(rows, dims);
    forall k ensures r in GroupOf(rows, dims, k) <==> KeyOf(r, dims) == k {
      WhereMembers(Grouped(rows, dims), HasKey(dims, k));
    }
    var i :| 0 <= i < |keys| && keys[i] == KeyOf(r, dims);
  }

  /** Without a Missing dimension value no row is left out of the groups. */
  lemma GroupedIsAll(rows: seq<Row>, dims: seq<string>)
    requires forall r, j | r in rows && 0 <= j < |dims| :: Cell(r, dims[j]) != Missing
    ensures Grouped(rows, dims) == rows
  {
    WhereAll(rows, KeyPresent(dims));
  }

  // ---------------------------------------------------------------------
  // Sums and ids over the partition

  /** The sum of the per-group sums for the given keys. */
  function GroupSums(rows: seq<Row>, dims: seq<string>, keys: seq<seq<Value>>): real
    decreases |keys|
  {
    if keys == [] then 0.0
    else AmountSum(Where(rows, HasKey(dims, keys[0]))) + GroupSums(rows, dims, keys[1..])
  }

  /** All the per-group id lists for the given keys, concatenated. */
  function GroupIds(rows: seq<Row>, dims: seq<string>, keys: seq<seq<Value>>): seq<Value>
    decreases |keys|
  {
    if keys == [] then []
    else Ids(Where(rows, HasKey(dims, keys[0]))) + GroupIds(rows, dims, keys[1..])
  }

  lemma WhereCons(x: Row, rest: seq<Row>, t: Test)
    ensures Where([x] + rest, t) == (if Passes(t, x) then [x] else []) + Where(rest, t)
  {
    assert ([x] + rest)[1..] == rest;
  }

  lemma {:induction false} GroupSumsStep(x: Row, rest: seq<Row>, dims: seq<string>, keys: seq<seq<Value>>)
    requires Distinct(keys)
    ensures GroupSums([x] + rest, dims, keys)
      == (if KeyOf(x, dims) in keys then Amount(Cell(x, SaleAmount)) else 0.0) + GroupSums(rest, dims, keys)
    decreases |keys|
  {
    if keys != [] {
      var rows := [x] + rest;
      var a := Amount(Cell(x, SaleAmount));
      DistinctTail(keys);
      GroupSumsStep(x, rest, dims, keys[1..]);
      assert KeyOf(x, dims) in keys <==> KeyOf(x, dims) == keys[0] || KeyOf(x, dims) in keys[1..] by {
        assert keys == [keys[0]] + keys[1..];
      }
      var t := HasKey(dims, keys[0]);
      WhereCons(x, rest, t);
      var w := Where(rest, t);
      assert GroupSums(rows, dims, keys) == AmountSum(Where(rows, t)) + GroupSums(rows, dims, keys[1..]);
      assert GroupSums(rest, dims, keys) == AmountSum(w) + GroupSums(rest, dims, keys[1..]);
      if Passes(t, x) {
        assert ([x] + w)[1..] == w;
        assert AmountSum(Where(rows, t)) == a + AmountSum(w);
        assert GroupSums(rows, dims, keys[1..]) == GroupSums(rest, dims, keys[1..]);
      } else {
        assert Where(rows, t) == w;
      }
    }
  }

  lemma IdsAppend(a: seq<Row>, b: seq<Row>)
    ensures Ids(a + b) == Ids(a) + Ids(b)
  {
  }

  lemma IdsWhereCons(x: Row, rest: seq<Row>, t: Test)
    ensures multiset(Ids(Where([x] + rest, t)))
      == (if Passes(t, x) then multiset{Cell(x, SaleId)} else multiset{}) + multiset(Ids(Where(rest, t)))
  {
    WhereCons(x, rest, t);
    if Passes(t, x) {
      IdsAppend([x], Where(rest, t));
      assert Ids([x]) == [Cell(x, SaleId)];
      assert Ids(Where([x] + rest, t)) == [Cell(x, SaleId)] + Ids(Where(rest, t));
      assert multiset([Cell(x, SaleId)]) == multiset{Cell(x, SaleId)};
    } else {
      assert Where([x] + rest, t) == [] + Where(rest, t) == Where(rest, t);
    }
  }

  /** The ids of the groups for the given keys, as a bag. */
  function GroupIdBag(rows: seq<Row>, dims: seq<string>, keys: seq<seq<Value>>): multiset<Value>
    decreases |keys|
  {
    if keys == [] then multiset{}
    else multiset(Ids(Where(rows, HasKey(dims, keys[0])))) + GroupIdBag(rows, dims, keys[1..])
  }

  lemma {:induction false} GroupIdBagOfIds(rows: seq<Row>, dims: seq<string>, keys: seq<seq<Value>>)
    ensures multiset(GroupIds(rows, dims, keys)) == GroupIdBag(rows, dims, keys)
    decreases |keys|
  {
    if keys != [] { GroupIdBagOfIds(rows, dims, keys[1..]); }
  }

  /** An id counted by at most one of two neighbouring bags. */
  lemma AtMostOnce(inHead: bool, inTail: bool, id: multiset<Value>, here: multiset<Value>, later: multiset<Value>)
    requires !(inHead && inTail)
    ensures ((if inHead then id else multiset{}) + here) + ((if inTail then id else multiset{}) + later)
      == (if inHead || inTail then id else multiset{}) + (here + later)
  {
  }

  lemma {:induction false} GroupIdsStep(x: Row, rest: seq<Row>, dims: seq<string>, keys: seq<seq<Value>>)
    requires Distinct(keys)
    ensures GroupIdBag([x] + rest, dims, keys)
      == (if KeyOf(x, dims) in keys then multiset{Cell(x, SaleId)} else multiset{}) + GroupIdBag(rest, dims, keys)
    decreases |keys|
  {
    if keys != [] {
      DistinctTail(keys);
      GroupIdsStep(x, rest, dims, keys[1..]);
      var inHead := KeyOf(x, dims) == keys[0];
      var inTail := KeyOf(x, dims) in keys[1..];
      assert KeyOf(x, dims) in keys <==> inHead || inTail by {
        assert keys == [keys[0]] + keys[1..];
      }
      var t := HasKey(dims, keys[0]);
      IdsWhereCons(x, rest, t);
      assert Passes(t, x) == inHead;
      AtMostOnce(inHead, inTail, multiset{Cell(x, SaleId)}, multiset(Ids(Where(rest, t))),
        GroupIdBag(rest, dims, keys[1..]));
    }
  }

  /** With distinct keys that cover every row, the group sums add up to the
      sum over all rows. */
  lemma {:induction false} GroupSumsPartition(rows: seq<Row>, dims: seq<string>, keys: seq<seq<Value>>)
    requires Distinct(keys) && forall r | r in rows :: KeyOf(r, dims) in keys
    ensures GroupSums(rows, dims, keys) == AmountSum(rows)
    decreases |rows|
  {
    if rows == [] {
      GroupSumsEmpty(dims, keys);
    } else {
      assert rows == [rows[0]] + rows[1..];
      assert rows[0] in rows;
      GroupSumsStep(rows[0], rows[1..], dims, keys);
      GroupSumsPartition(rows[1..], dims, keys);
    }
  }

  lemma {:induction false} GroupSumsEmpty(dims: seq<string>, keys: seq<seq<Value>>)
    ensures GroupSums([], dims, keys) == 0.0
    decreases |keys|
  {
    if keys != [] { GroupSumsEmpty(dims, keys[1..]); }
  }

  lemma {:induction false} GroupIdsEmpty(dims: seq<string>, keys: seq<seq<Value>>)
    ensures GroupIdBag([], dims, keys) == multiset{}
    decreases |keys|
  {
    if keys != [] { GroupIdsEmpty(dims, keys[1..]); }
  }

  /** With distinct keys that cover every row, the concatenated id lists are a
      permutation of all the rows' ids. */
  lemma {:induction false} GroupIdsPartition(rows: seq<Row>, dims: seq<string>, keys: seq<seq<Value>>)
    requires Distinct(keys) && forall r | r in rows :: KeyOf(r, dims) in keys
    ensures GroupIdBag(rows, dims, keys) == multiset(Ids(rows))
    decreases |rows|
  {
    if rows == [] {
      GroupIdsEmpty(dims, keys);
    } else {
      assert rows == [rows[0]] + rows[1..];
      assert rows[0] in rows;
      GroupIdsStep(rows[0], rows[1..], dims, keys);
      GroupIdsPartition(rows[1..], dims, keys);
      assert Ids(rows) == [Cell(rows[0], SaleId)] + Ids(rows[1..]);
    }
  }

  /** The sum of a cube's `sale_amount_sum` column. */
  function TotalSum(rows: seq<CubeRow>): real
    decreases |rows|
  {
    if rows == [] then 0.0 else rows[0].saleAmountSum + TotalSum(rows[1..])
  }

  /** A cube's `sale_ids` lists, concatenated. */
  function AllIds(rows: seq<CubeRow>): seq<Value>
    decreases |rows|
  {
    if rows == [] then [] else rows[0].saleIds + AllIds(rows[1..])
  }

  lemma {:induction false} CubeRowsTotals(rows: seq<Row>, dims: seq<string>, keys: seq<seq<Value>>)
    ensures TotalSum(CubeRows(rows, dims, keys)) == GroupSums(Grouped(rows, dims), dims, keys)
    ensures AllIds(CubeRows(rows, dims, keys)) == GroupIds(Grouped(rows, dims), dims, keys)
    decreases |keys|
  {
    if keys != [] {
      CubeRowsTotals(rows, dims, keys[1..]);
      assert CubeRows(rows, dims, keys)[1..] == CubeRows(rows, dims, keys[1..]);
    }
  }

  /** Summing `sale_amount_sum` over the cube gives the total grouped sale
      amount, and the concatenated `sale_ids` lists are a permutation of the
      grouped rows' sale ids. */
  lemma CubeTotals(sales: Table, dims: seq<string>)
    requires OlapCube(sales, dims).Ok?
    ensures TotalSum(OlapCube(sales, dims).value.rows) == AmountSum(Grouped(sales.rows, dims))
    ensures multiset(AllIds(OlapCube(sales, dims).value.rows)) == multiset(Ids(Grouped(sales.rows, dims)))
    ensures (forall r, j | r in sales.rows && 0 <= j < |dims| :: Cell(r, dims[j]) != Missing) ==>
      TotalSum(OlapCube(sales, dims).value.rows) == AmountSum(sales.rows)
      && multiset(AllIds(OlapCube(sales, dims).value.rows)) == multiset(Ids(sales.rows))
  {
    var keys := GroupKeys(sales.rows, dims);
    var grouped := Grouped(sales.rows, dims);
    var rows := CubeRows(sales.rows, dims, keys);
    assert OlapCube(sales, dims).value.rows == rows;
    assert TotalSum(rows) == AmountSum(grouped) && multiset(AllIds(rows)) == multiset(Ids(grouped)) by {
      GroupKeysDistinctAndCovering(sales.rows, dims);
      CubeRowsTotals(sales.rows, dims, keys);
      GroupSumsPartition(grouped, dims, keys);
      GroupIdsPartition(grouped, dims, keys);
      GroupIdBagOfIds(grouped, dims, keys);
    }
    if forall r, j | r in sales.rows && 0 <= j < |dims| :: Cell(r, dims[j]) != Missing {
      GroupedIsAll(sales.rows, dims);
    }
  }

  // ---------------------------------------------------------------------
  // One cube row

  lemma {:induction false} IdCountAll(rows: seq<Row>)
    requires forall r | r in rows :: Cell(r, SaleId) != Missing
    ensures IdCount(rows) == |rows|
    decreases |rows|
  {
    if rows != [] {
      assert rows[0] in rows;
      assert forall r | r in rows[1..] :: r in rows;
      IdCountAll(rows[1..]);
    }
  }

  /** The group of a cube key: exactly the input rows with that dimension
      tuple, in their input order, and at least one of them. */
  lemma GroupMembers(rows: seq<Row>, dims: seq<string>, k: seq<Value>)
    requires k in GroupKeys(rows, dims)
    ensures |GroupOf(rows, dims, k)| >= 1
    ensures forall r :: r in GroupOf(rows, dims, k) <==> r in rows && KeyOf(r, dims) == k
    ensures IsSubsequence(GroupOf(rows, dims, k), rows)
  {
    var grouped := Grouped(rows, dims);
    var group := GroupOf(rows, dims, k);
    GroupKeysDistinctAndCovering(rows, dims);
    var w :| w in grouped && KeyOf(w, dims) == k;
    WhereMembers(grouped, HasKey(dims, k));
    WhereMembers(rows, KeyPresent(dims));
    assert w in group;
    forall r | r in rows && KeyOf(r, dims) == k ensures r in group {
      forall j | 0 <= j < |dims| ensures Cell(r, dims[j]) != Missing {
        assert Cell(r, dims[j]) == KeyOf(r, dims)[j] == KeyOf(w, dims)[j] == Cell(w, dims[j]);
      }
    }
    WhereIsSubsequence(grouped, HasKey(dims, k));
    WhereIsSubsequence(rows, KeyPresent(dims));
    SubsequenceTransitive(group, grouped, rows);
  }

  /** What one aggregated row holds: the group's sale amount sum, its sale ids
      in row order (one per row), a count of at most the group's size and the
      average sum / count where the count is positive. When no sale id of the
      group is Missing, the count is the group's size. */
  lemma AggregateFacts(key: seq<Value>, group: seq<Row>)
    ensures var row := Aggregate(key, group);
      && row.key == key
      && row.saleAmountSum == AmountSum(group)
      && row.saleIds == Ids(group) && |row.saleIds| == |group|
      && row.saleIdCount <= |group|
      && (row.saleIdCount > 0 ==> row.avgTransactionSize == Some(row.saleAmountSum / row.saleIdCount as real))
      && (row.saleIdCount == 0 ==> row.avgTransactionSize == None)
      && ((forall r | r in group :: Cell(r, SaleId) != Missing) ==> row.saleIdCount == |group|)
  {
    IdCountBound(group);
    if forall r | r in group :: Cell(r, SaleId) != Missing {
      IdCountAll(group);
    }
  }

  /** Cube row `i` aggregates the group of the `i`-th key: a non-empty group,
      so with no Missing sale id its count is at least 1 and its average is
      defined. */
  lemma CubeRowFacts(sales: Table, dims: seq<string>, i: nat)
    requires OlapCube(sales, dims).Ok? && i < |OlapCube(sales, dims).value.rows|
    ensures var row := OlapCube(sales, dims).value.rows[i];
      var group := GroupOf(sales.rows, dims, row.key);
      && row.key == GroupKeys(sales.rows, dims)[i]
      && row == Aggregate(row.key, group)
      && |group| >= 1
      && (forall r :: r in group <==> r in sales.rows && KeyOf(r, dims) == row.key)
      && ((forall r | r in group :: Cell(r, SaleId) != Missing) ==>
            row.saleIdCount == |group| >= 1 && row.avgTransactionSize == Some(row.saleAmountSum / row.saleIdCount as real))
  {
    var k := GroupKeys(sales.rows, dims)[i];
    GroupMembers(sales.rows, dims, k);
    AggregateFacts(k, GroupOf(sales.rows, dims, k));
  }

  /** The cube up to the order of its rows: one row per distinct dimension
      tuple of the grouped rows, no tuple twice, and each row the aggregate
      of its tuple's group. These facts hold for pandas' sorted order too. */
  lemma CubeRowsOrderFree(sales: Table, dims: seq<string>)
    requires OlapCube(sales, dims).Ok?
    ensures var rows := OlapCube(sales, dims).value.rows;
      var grouped := Grouped(sales.rows, dims);
      && |rows| == |Keys(grouped, dims)|
      && (forall i, j | 0 <= i < j < |rows| :: rows[i].key != rows[j].key)
      && (forall r | r in grouped :: exists row | row in rows :: row.key == KeyOf(r, dims))
      && (forall row | row in rows ::
            (exists r | r in grouped :: KeyOf(r, dims) == row.key)
            && row == Aggregate(row.key, GroupOf(sales.rows, dims, row.key)))
  {
    var keys := GroupKeys(sales.rows, dims);
    OlapCubeRows(sales, dims);
    GroupKeysDistinctAndCovering(sales.rows, dims);
    CubeRowsOfKeys(sales.rows, dims, keys);
  }

  lemma OlapCubeRows(sales: Table, dims: seq<string>)
    requires OlapCube(sales, dims).Ok?
    ensures OlapCube(sales, dims).value.rows == CubeRows(sales.rows, dims, GroupKeys(sales.rows, dims))
  {
  }

  /** One row per key, in the keys' order, each keyed by its key. */
  lemma CubeRowsOfKeys(rows: seq<Row>, dims: seq<string>, keys: seq<seq<Value>>)
    ensures var cube := CubeRows(rows, dims, keys);
      && |cube| == |keys|
      && (forall i | 0 <= i < |cube| :: cube[i].key == keys[i])
      && (forall k | k in keys :: exists row | row in cube :: row.key == k)
      && (forall row | row in cube :: row.key in keys && row == Aggregate(row.key, GroupOf(rows, dims, row.key)))
  {
    var cube := CubeRows(rows, dims, keys);
    forall k | k in keys ensures exists row | row in cube :: row.key == k {
      var i :| 0 <= i < |keys| && keys[i] == k;
      assert cube[i] in cube;
    }
  }

  lemma {:induction false} IdCountBound(rows: seq<Row>)
    ensures IdCount(rows) <= |rows|
    decreases |rows|
  {
    if rows != [] { IdCountBound(rows[1..]); }
  }

  // ---------------------------------------------------------------------
  // `olap_cube.merge(customers_df, on="customer_id", how="left")`

  /** A cube row with the `name` column the merge adds. */
  datatype MergedRow = MergedRow(cube: CubeRow, name: Value)

  datatype MergedCube = MergedCube(columns: seq<string>, rows: seq<MergedRow>)

  /** The customers' rows whose `[customer_id]` tuple equals the cube row's
      key. That is the merge on customer_id only when the cube's dimensions
      are `CustomerDims`, as in `main`; a cube over other dimensions would
      need the customer_id read from its position among them. */
  function Matches(row: CubeRow, customers: seq<Row>): seq<Row> {
    Where(customers, HasKey(CustomerDims, row.key))
  }

  /** A left merge keeps the cube row once per matching customer, in the
      customers' order, or once with a Missing name when nothing matches. */
  function MergeRow(row: CubeRow, customers: seq<Row>): seq<MergedRow> {
    var m := Matches(row, customers);
    if m == [] then [MergedRow(row, Missing)]
    else seq(|m|, j requires 0 <= j < |m| => MergedRow(row, Cell(m[j], CustomerName)))
  }

  function MergeRows(rows: seq<CubeRow>, customers: seq<Row>): seq<MergedRow>
    decreases |rows|
  {
    if rows == [] then [] else MergeRow(rows[0], customers) + MergeRows(rows[1..], customers)
  }

  /** The merge on `customer_id`; a side without that column raises KeyError. */
  function MergeCustomers(cube: Cube, customers: Table): (r: Result<MergedCube>)
    ensures r.Ok? <==> CustomerId in cube.columns && CustomerId in customers.columns
    ensures r.Err? ==> r.error == KeyError(CustomerId)
    ensures r.Ok? ==> r.value.columns == cube.columns + [CustomerName]
  {
    if CustomerId !in cube.columns then Err(KeyError(CustomerId))
    else if CustomerId !in customers.columns then Err(KeyError(CustomerId))
    else Ok(MergedCube(cube.columns + [CustomerName], MergeRows(cube.rows, customers.rows)))
  }

  /** `main` from the loaded tables to the saved cube. */
  function BuildCustomerCube(sales: Table, customers: Table): (r: Result<MergedCube>)
    ensures OlapCube(sales, CustomerDims).Err? ==> r == Err(OlapCube(sales, CustomerDims).error)
    ensures OlapCube(sales, CustomerDims).Ok? ==> r == MergeCustomers(OlapCube(sales, CustomerDims).value, customers)
    ensures r.Ok? <==> OlapCube(sales, CustomerDims).Ok? && CustomerId in customers.columns
    ensures r.Ok? ==>
      r.value.columns == ["customer_id", "sale_amount_sum", "sale_id_count", "sale_ids", "avg_transaction_size", "name"]
  {
    SalesColumnNames();
    var cube :- OlapCube(sales, CustomerDims);
    MergeCustomers(cube, customers)
  }

  /** The cube rows of the merge, in order. */
  function CubeParts(rows: seq<MergedRow>): seq<CubeRow> {
    seq(|rows|, i requires 0 <= i < |rows| => rows[i].cube)
  }

  lemma {:induction false} MergeRowsKeepsEveryRow(rows: seq<CubeRow>, customers: seq<Row>)
    ensures |MergeRows(rows, customers)| >= |rows|
    ensures forall x | x in rows :: exists m | m in MergeRows(rows, customers) :: m.cube == x
    ensures forall m | m in MergeRows(rows, customers) :: m.cube in rows
    decreases |rows|
  {
    if rows != [] {
      MergeRowsKeepsEveryRow(rows[1..], customers);
      var head := MergeRow(rows[0], customers);
      assert head[0] in MergeRows(rows, customers);
      forall x | x in rows ensures exists m | m in MergeRows(rows, customers) :: m.cube == x {
        if x != rows[0] {
          assert x in rows[1..];
          var m :| m in MergeRows(rows[1..], customers) && m.cube == x;
          assert m in MergeRows(rows, customers);
        }
      }
      forall m | m in MergeRows(rows, customers) ensures m.cube in rows {
        if m !in head {
          assert m in MergeRows(rows[1..], customers);
        }
      }
    }
  }

  /** A left merge loses no cube row and invents none. */
  lemma MergeKeepsEveryCubeRow(cube: Cube, customers: Table)
    requires MergeCustomers(cube, customers).Ok?
    ensures var merged := MergeCustomers(cube, customers).value;
      && merged.columns == cube.columns + [CustomerName]
      && |merged.rows| >= |cube.rows|
      && (forall x | x in cube.rows :: exists m | m in merged.rows :: m.cube == x)
      && (forall m | m in merged.rows :: m.cube in cube.rows)
  {
    MergeRowsKeepsEveryRow(cube.rows, customers.rows);
  }

  lemma MatchesAtMostOne(row: CubeRow, customers: seq<Row>)
    requires DistinctKeys(customers, CustomerDims)
    ensures |Matches(row, customers)| <= 1
  {
    var m := Matches(row, customers);
    WhereKeepsDistinctKeys(customers, HasKey(CustomerDims, row.key), CustomerDims);
    WhereMembers(customers, HasKey(CustomerDims, row.key));
    DropDuplicatesCount(m, CustomerDims);
    DropDuplicatesOfDistinct(m, CustomerDims);
    if m != [] {
      assert m[0] in m;
      assert Keys(m, CustomerDims) == {row.key} by {
        forall k | k in Keys(m, CustomerDims) ensures k == row.key {
          var r :| r in m && KeyOf(r, CustomerDims) == k;
        }
      }
    }
  }

  lemma {:induction false} MergeRowsUnique(rows: seq<CubeRow>, customers: seq<Row>)
    requires DistinctKeys(customers, CustomerDims)
    ensures |MergeRows(rows, customers)| == |rows|
    ensures forall i | 0 <= i < |rows| :: MergeRows(rows, customers)[i] == MergeRow(rows[i], customers)[0]
    decreases |rows|
  {
    if rows != [] {
      MergeRowsUnique(rows[1..], customers);
      MatchesAtMostOne(rows[0], customers);
      var head := MergeRow(rows[0], customers);
      assert |head| == 1;
      forall i | 0 <= i < |rows| ensures MergeRows(rows, customers)[i] == MergeRow(rows[i], customers)[0] {
        if i > 0 {
          assert MergeRows(rows, customers)[i] == MergeRows(rows[1..], customers)[i - 1];
          assert rows[1..][i - 1] == rows[i];
        }
      }
    }
  }

  /** With customer_id a key of the customers, the merge keeps the cube's rows
      one for one and in order; `name` is the matching customer's name, and
      Missing exactly where no customer matches. */
  lemma MergeUniqueCustomers(cube: Cube, customers: Table)
    requires MergeCustomers(cube, customers).Ok? && DistinctKeys(customers.rows, CustomerDims)
    ensures var merged := MergeCustomers(cube, customers).value;
      && |merged.rows| == |cube.rows|
      && CubeParts(merged.rows) == cube.rows
      && (forall i, c | 0 <= i < |cube.rows| && c in customers.rows && KeyOf(c, CustomerDims) == cube.rows[i].key ::
            merged.rows[i].name == Cell(c, CustomerName))
      && (forall i | 0 <= i < |cube.rows| && (forall c | c in customers.rows :: KeyOf(c, CustomerDims) != cube.rows[i].key) ::
            merged.rows[i].name == Missing)
  {
    var merged := MergeCustomers(cube, customers).value;
    MergeRowsUnique(cube.rows, customers.rows);
    forall i | 0 <= i < |cube.rows|
      ensures merged.rows[i].cube == cube.rows[i]
      ensures forall c | c in customers.rows && KeyOf(c, CustomerDims) == cube.rows[i].key ::
        merged.rows[i].name == Cell(c, CustomerName)
      ensures (forall c | c in customers.rows :: KeyOf(c, CustomerDims) != cube.rows[i].key) ==>
        merged.rows[i].name == Missing
    {
      var m := Matches(cube.rows[i], customers.rows);
      WhereMembers(customers.rows, HasKey(CustomerDims, cube.rows[i].key));
      MatchesAtMostOne(cube.rows[i], customers.rows);
      if |m| == 1 {
        assert m[0] in m;
        forall c | c in customers.rows && KeyOf(c, CustomerDims) == cube.rows[i].key
          ensures merged.rows[i].name == Cell(c, CustomerName)
        {
          assert c in m;
        }
      }
    }
  }

  /** `main`'s cube with names: the columns are the cube's plus `name`, and with
      customer_id a key of the customers there is one row per customer_id of
      the sales, each the cube's row for it. */
  lemma BuildCustomerCubeFacts(sales: Table, customers: Table)
    requires BuildCustomerCube(sales, customers).Ok? && DistinctKeys(customers.rows, CustomerDims)
    ensures OlapCube(sales, CustomerDims).Ok?
    ensures var cube := OlapCube(sales, CustomerDims).value;
      var merged := BuildCustomerCube(sales, customers).value;
      && merged.columns == CubeColumns(CustomerDims) + [CustomerName]
      && CubeParts(merged.rows) == cube.rows
  {
    var cube := OlapCube(sales, CustomerDims).value;
    MergeUniqueCustomers(cube, customers);
  }

  // ---------------------------------------------------------------------
  // The example of three sales by two customers

  /** `main`'s dimensions and metrics name the columns
      customer_id, sale_amount_sum, sale_id_count. */
  lemma SalesColumnNames()
    ensures ColumnNames(CustomerDims, SalesMetrics) == ["customer_id", "sale_amount_sum", "sale_id_count"]
    ensures CubeColumns(CustomerDims)
      == ["customer_id", "sale_amount_sum", "sale_id_count", "sale_ids", "avg_transaction_size"]
  {
    var front := SalesMetrics[..1];
    assert front[..0] == [];
    assert SalesMetrics[..|SalesMetrics| - 1] == front;
    assert Label("sale_amount", "sum") == "sale_amount_sum";
    assert Label("sale_id", "count") == "sale_id_count";
    assert MetricNames(front) == Labels("sale_amount", ["sum"]) == ["sale_amount_sum"];
    assert MetricNames(SalesMetrics) == MetricNames(front) + Labels("sale_id", ["count"]);
    assert MetricNames(SalesMetrics) == ["sale_amount_sum", "sale_id_count"];
    var names := CustomerDims + MetricNames(SalesMetrics);
    assert RStrip(names[0]) == names[0];
    assert RStrip(names[1]) == names[1];
    assert RStrip(names[2]) == names[2];
  }

  const SaleA: Row := map["customer_id" := Int(1), "sale_amount" := Int(10), "sale_id" := Str("a")]
  const SaleB: Row := map["customer_id" := Int(1), "sale_amount" := Int(20), "sale_id" := Str("b")]
  const SaleC: Row := map["customer_id" := Int(2), "sale_amount" := Int(5), "sale_id" := Str("c")]
  const ExampleSales := Table(["customer_id", "sale_amount", "sale_id"], [SaleA, SaleB, SaleC])

  lemma ExampleGroupKeys()
    ensures Grouped(ExampleSales.rows, CustomerDims) == ExampleSales.rows
    ensures GroupKeys(ExampleSales.rows, CustomerDims) == [[Int(1)], [Int(2)]]
  {
    var rows := ExampleSales.rows;
    assert KeyOf(SaleA, CustomerDims) == [Int(1)] == KeyOf(SaleB, CustomerDims);
    assert KeyOf(SaleC, CustomerDims) == [Int(2)];
    GroupedIsAll(rows, CustomerDims);
    assert rows[1..] == [SaleB, SaleC] && rows[1..][1..] == [SaleC] && [SaleC][1..] == [];
    var one: set<seq<Value>> := {[Int(1)]};
    assert [Int(2)] !in one;
    assert DedupFrom([SaleC], CustomerDims, one) == [SaleC];
    assert DedupFrom([SaleB, SaleC], CustomerDims, one) == [SaleC];
    assert rows[0] == SaleA;
    var none: set<seq<Value>> := {};
    assert none + {KeyOf(SaleA, CustomerDims)} == one;
    assert DedupFrom(rows, CustomerDims, none) == [SaleA] + DedupFrom([SaleB, SaleC], CustomerDims, one);
  }

  lemma ExampleGroups()
    ensures GroupOf(ExampleSales.rows, CustomerDims, [Int(1)]) == [SaleA, SaleB]
    ensures GroupOf(ExampleSales.rows, CustomerDims, [Int(2)]) == [SaleC]
  {
    ExampleGroupKeys();
    var rows := ExampleSales.rows;
    assert KeyOf(SaleA, CustomerDims) == [Int(1)] == KeyOf(SaleB, CustomerDims);
    assert KeyOf(SaleC, CustomerDims) == [Int(2)];
    assert rows[1..] == [SaleB, SaleC] && rows[1..][1..] == [SaleC] && [SaleC][1..] == [];
    var t1 := HasKey(CustomerDims, [Int(1)]);
    var t2 := HasKey(CustomerDims, [Int(2)]);
    assert Where([SaleC], t1) == [];
    assert Where([SaleB, SaleC], t1) == [SaleB];
    assert Where(rows, t1) == [SaleA] + [SaleB];
    assert Where([SaleC], t2) == [SaleC];
    assert Where([SaleB, SaleC], t2) == [SaleC];
    assert Where(rows, t2) == [SaleC];
  }

  lemma ExampleAggregates()
    ensures Aggregate([Int(1)], [SaleA, SaleB]) == CubeRow([Int(1)], 30.0, 2, [Str("a"), Str("b")], Some(15.0))
    ensures Aggregate([Int(2)], [SaleC]) == CubeRow([Int(2)], 5.0, 1, [Str("c")], Some(5.0))
  {
    assert [SaleA, SaleB][1..] == [SaleB] && [SaleB][1..] == [] && [SaleC][1..] == [];
    assert AmountSum([SaleB]) == 20.0;
    assert AmountSum([SaleA, SaleB]) == 30.0;
    assert AmountSum([SaleC]) == 5.0;
    assert Cell(SaleA, SaleId) == Str("a") && Cell(SaleB, SaleId) == Str("b");
    assert IdCount([SaleB]) == 1;
    assert IdCount([SaleA, SaleB]) == 2;
    assert IdCount([SaleC]) == 1;
    assert Ids([SaleA, SaleB]) == [Str("a"), Str("b")];
    assert Ids([SaleC]) == [Str("c")];
  }

  /** Customer 1 with sales of 10 and 20 and customer 2 with one sale of 5
      give the rows (1, 30, 2, [a, b], 15) and (2, 5, 1, [c], 5). */
  lemma OlapCubeExample()
    ensures OlapCube(ExampleSales, CustomerDims) == Ok(Cube(
      ["customer_id", "sale_amount_sum", "sale_id_count", "sale_ids", "avg_transaction_size"],
      [CubeRow([Int(1)], 30.0, 2, [Str("a"), Str("b")], Some(15.0)),
       CubeRow([Int(2)], 5.0, 1, [Str("c")], Some(5.0))]))
  {
    SalesColumnNames();
    ExampleGroupKeys();
    ExampleGroups();
    assert !HasText(ExampleSales.rows, SaleAmount);
    assert CustomerDims[0] == ExampleSales.columns[0];
    assert FirstAbsent(CustomerDims, ExampleSales.columns) == None;
    assert SaleAmount == ExampleSales.columns[1] && SaleId == ExampleSales.columns[2];
    ExampleAggregates();
    var keys := GroupKeys(ExampleSales.rows, CustomerDims);
    var rows := CubeRows(ExampleSales.rows, CustomerDims, keys);
    assert |rows| == 2;
    assert rows[0] == Aggregate([Int(1)], [SaleA, SaleB]);
    assert rows[1] == Aggregate([Int(2)], [SaleC]);
    assert !HasText(Grouped(ExampleSales.rows, CustomerDims), SaleAmount);
    assert OlapCube(ExampleSales, CustomerDims) == Ok(Cube(CubeColumns(CustomerDims), rows));
    assert rows == [Aggregate([Int(1)], [SaleA, SaleB]), Aggregate([Int(2)], [SaleC])];
  }
}
