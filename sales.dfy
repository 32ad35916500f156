/** scripts/data_preparation/prepare_sales_data.py: deduplicate on
    transaction_id, fill missing BonusPoints with 0, compute a filter on a
    positive campaign_id whose result `main` discards, then rename
    transaction_id to sale_id in the scrubber's deduplicated, filled table
    (`SalesMainAsWritten`; `SalesPipeline` is the evidently intended one). */
module SalesPreparer {
  import opened Tables
  import opened Dedup
  import opened Fill
  import opened Rename
  import opened Frames

  const TransactionKey: seq<string> := ["transaction_id"]
  const SalesFill: map<string, Value> := map["BonusPoints" := Int(0)]
  const CampaignColumn := "campaign_id"
  const SaleIdMapping: map<string, string> := map["transaction_id" := "sale_id"]

  /** `remove_duplicates(df, scrubber)` on transaction_id. */
  method RemoveDuplicates(df: Frame, scrubber: DataScrubber) returns (r: Result<Frame>, removedCount: int)
    modifies scrubber
    ensures r.Err? <==> DropDuplicates(old(scrubber.df.View()), TransactionKey).Err?
    ensures r.Err? ==> r.error == DropDuplicates(old(scrubber.df.View()), TransactionKey).error
    ensures r.Ok? ==> && fresh(r.value) && scrubber.df == r.value
                      && r.value.View() == DropDuplicates(old(scrubber.df.View()), TransactionKey).value
                      && removedCount == |old(df.rows)| - |r.value.rows|
  {
    var initialCount := |df.rows|;
    r := scrubber.RemoveDuplicates(TransactionKey);
    removedCount := if r.Ok? then initialCount - |r.value.rows| else 0;
  }

  /** `handle_missing_values(df)`: `fillna({'BonusPoints': 0})` in place. */
  method HandleMissingValues(df: Frame) returns (r: Frame)
    modifies df
    ensures r == df && df.View() == FillNa(old(df.View()), SalesFill)
    ensures |df.rows| == |old(df.rows)| && df.columns == old(df.columns)
    ensures forall row | row in df.rows && "BonusPoints" in row :: row["BonusPoints"] != Missing
  {
    FillNaCells(df.View(), SalesFill);
    FillNaLeavesNoMissing(df.View(), SalesFill, "BonusPoints");
    df.rows := FillNa(df.View(), SalesFill).rows;
    r := df;
  }

  /** `remove_outliers(df)`: a new table of the rows with campaign_id > 0;
      the logged invalid count (missing or <= 0) equals the removed count. */
  method RemoveOutliers(df: Frame) returns (r: Result<Frame>, invalidCount: nat, removedCount: int)
    ensures r.Err? <==> Filter(df.View(), CampaignColumn, GreaterThanZero).Err?
    ensures r.Err? ==> r.error == Filter(df.View(), CampaignColumn, GreaterThanZero).error
    ensures r.Ok? ==> && fresh(r.value)
                      && r.value.View() == Filter(df.View(), CampaignColumn, GreaterThanZero).value
                      && invalidCount == CountWhere(df.rows, Compare(CampaignColumn, MissingOrAtMostZero))
                      && removedCount == |df.rows| - |r.value.rows|
                      && removedCount == invalidCount
  {
    var initialCount := |df.rows|;
    var res := Filter(df.View(), CampaignColumn, GreaterThanZero);
    if res.Err? {
      return Err(res.error), 0, 0;
    }
    invalidCount := CountWhere(df.rows, Compare(CampaignColumn, MissingOrAtMostZero));
    var kept := new Frame(res.value);
    r := Ok(kept);
    removedCount := initialCount - |kept.rows|;
    InvalidIsComplement(df.rows, CampaignColumn);
  }

  /** What `main` saves, as written: the outlier filter still runs (and can
      raise), but the renamed table is the scrubber's, which never saw it. */
  function SalesMainAsWritten(t: Table): (r: Result<Table>)
    ensures r.Ok? ==> |r.value.columns| == |t.columns| && |r.value.rows| <= |t.rows|
  {
    var deduped :- DropDuplicates(t, TransactionKey);
    var filled := FillNa(deduped, SalesFill);
    var kept :- Filter(filled, CampaignColumn, GreaterThanZero);
    RenameColumns(filled, SaleIdMapping)
  }

  /** What `main` evidently means to save: the outlier-filtered table, renamed. */
  function SalesPipeline(t: Table): (r: Result<Table>)
    ensures r.Ok? ==> |r.value.columns| == |t.columns| && |r.value.rows| <= |t.rows|
  {
    var deduped :- DropDuplicates(t, TransactionKey);
    var filled := FillNa(deduped, SalesFill);
    var kept :- Filter(filled, CampaignColumn, GreaterThanZero);
    RenameColumns(kept, SaleIdMapping)
  }

  /** `main` from the scrubber's creation to the save: `input` is the table
      the scrubber holds after `normalize_column_names` and
      `format_string_columns`; the result is the table that is saved. */
  method PrepareSales(input: Table) returns (out: Result<Table>)
    ensures out == SalesMainAsWritten(input)
  {
    var raw := new Frame(input);
    var scrubber := new DataScrubber(raw);
    var df := scrubber.GetDataframe();
    var deduped, removedDuplicates := RemoveDuplicates(df, scrubber);
    if deduped.Err? {
      return Err(deduped.error);
    }
    df := deduped.value;
    df := HandleMissingValues(df);
    var kept, invalidCount, removedOutliers := RemoveOutliers(df);
    if kept.Err? {
      return Err(kept.error);
    }
    df := kept.value;
    var renamed := scrubber.RenameColumns(SaleIdMapping);
    if renamed.Err? {
      return Err(renamed.error);
    }
    df := renamed.value;
    out := Ok(df.View());
  }

  /** As written, the saved table keeps one row per distinct transaction id:
      the campaign filter removes nothing from it. */
  lemma SalesMainKeepsEveryDeduplicatedRow(t: Table)
    requires SalesMainAsWritten(t).Ok?
    ensures |SalesMainAsWritten(t).value.rows| == |Keys(t.rows, TransactionKey)|
  {
    DropDuplicatesCount(t.rows, TransactionKey);
  }

  /** A one-row sales table whose campaign_id is 0. */
  const ZeroCampaignRow: Row := map["transaction_id" := Int(1), "campaign_id" := Int(0)]
  const ZeroCampaignSales := Table(["transaction_id", "campaign_id"], [ZeroCampaignRow])

  lemma ZeroCampaignPrepared()
    ensures DropDuplicates(ZeroCampaignSales, TransactionKey) == Ok(ZeroCampaignSales)
    ensures FillNa(ZeroCampaignSales, SalesFill) == ZeroCampaignSales
  {
    var t := ZeroCampaignSales;
    assert WellFormed(t);
    assert TransactionKey[0] == t.columns[0];
    assert FirstAbsent(TransactionKey, t.columns) == None;
    assert t.rows[1..] == [];
    assert DedupFrom(t.rows, TransactionKey, {})
      == [ZeroCampaignRow] + DedupFrom([], TransactionKey, {KeyOf(ZeroCampaignRow, TransactionKey)});
    assert DedupFrom(t.rows, TransactionKey, {}) == t.rows;
    assert DropDuplicateRows(t.rows, TransactionKey) == t.rows;
    assert DropDuplicates(t, TransactionKey) == Ok(Table(t.columns, t.rows));
    FillNaAbsentIsNoOp(t, SalesFill);
  }

  lemma ZeroCampaignFiltered()
    ensures Filter(ZeroCampaignSales, CampaignColumn, GreaterThanZero)
      == Ok(Table(ZeroCampaignSales.columns, []))
  {
    assert !HasText(ZeroCampaignSales.rows, CampaignColumn);
    assert ZeroCampaignSales.rows[1..] == [];
    assert Where(ZeroCampaignSales.rows, Compare(CampaignColumn, GreaterThanZero)) == [];
  }

  lemma ZeroCampaignRenamed()
    ensures RenamedColumns(ZeroCampaignSales.columns, SaleIdMapping) == ["sale_id", "campaign_id"]
    ensures RenameColumns(Table(ZeroCampaignSales.columns, []), SaleIdMapping)
      == Ok(Table(["sale_id", "campaign_id"], []))
    ensures RenameColumns(ZeroCampaignSales, SaleIdMapping).Ok?
  {
    var columns := RenamedColumns(ZeroCampaignSales.columns, SaleIdMapping);
    assert columns == ["sale_id", "campaign_id"];
    assert Distinct(columns) by { assert columns[0][0] != columns[1][0]; }
    assert RenamedColumns(Table(ZeroCampaignSales.columns, []).columns, SaleIdMapping) == columns;
    var r := RenameColumns(Table(ZeroCampaignSales.columns, []), SaleIdMapping);
    assert r.Ok? && r.value.columns == columns && |r.value.rows| == 0;
    assert r.value == Table(columns, []);
  }

  /** The one-row table with campaign_id 0: the table `main` saves keeps the
      row, the intended pipeline drops it. */
  lemma SalesMainKeepsInvalidCampaign()
    ensures
      && SalesMainAsWritten(ZeroCampaignSales).Ok?
      && |SalesMainAsWritten(ZeroCampaignSales).value.rows| == 1
      && Cell(SalesMainAsWritten(ZeroCampaignSales).value.rows[0], CampaignColumn) == Int(0)
      && SalesPipeline(ZeroCampaignSales) == Ok(Table(["sale_id", "campaign_id"], []))
  {
    ZeroCampaignPrepared();
    ZeroCampaignFiltered();
    ZeroCampaignRenamed();
    RenameCellsByLabel(ZeroCampaignSales, SaleIdMapping, CampaignColumn);
    assert ZeroCampaignSales.rows[0] == ZeroCampaignRow;
  }

  /** The outlier-filtered table of the intended pipeline. */
  lemma SalesKeptFacts(t: Table)
    requires SalesPipeline(t).Ok?
    ensures var kept := Filter(FillNa(DropDuplicates(t, TransactionKey).value, SalesFill), CampaignColumn, GreaterThanZero);
      && kept.Ok? && kept.value.columns == t.columns
      && DistinctKeys(kept.value.rows, TransactionKey)
      && (forall r | r in kept.value.rows :: Holds(GreaterThanZero, Cell(r, CampaignColumn)))
      && |kept.value.rows| <= |Keys(t.rows, TransactionKey)|
  {
    var deduped := DropDuplicates(t, TransactionKey).value;
    var filled := FillNa(deduped, SalesFill);
    var cp := Compare(CampaignColumn, GreaterThanZero);
    DropDuplicatesDistinct(t.rows, TransactionKey);
    DropDuplicatesCount(t.rows, TransactionKey);
    FillNaKeepsKeys(deduped, SalesFill, TransactionKey);
    WhereKeepsDistinctKeys(filled.rows, cp, TransactionKey);
    WhereMembers(filled.rows, cp);
    WhereShorter(filled.rows, cp);
  }

  /** Renaming transaction_id to sale_id carries distinct ids over to sale_id
      and leaves campaign_id as it was. */
  lemma SaleIdRenameFacts(kept: Table)
    requires RenameColumns(kept, SaleIdMapping).Ok?
    requires "transaction_id" in kept.columns && CampaignColumn in kept.columns
    requires DistinctKeys(kept.rows, TransactionKey)
    requires forall r | r in kept.rows :: Holds(GreaterThanZero, Cell(r, CampaignColumn))
    ensures var out := RenameColumns(kept, SaleIdMapping).value;
      && |out.rows| == |kept.rows|
      && DistinctKeys(out.rows, ["sale_id"])
      && (forall r | r in out.rows :: Holds(GreaterThanZero, Cell(r, CampaignColumn)))
  {
    var out := RenameColumns(kept, SaleIdMapping).value;
    RenameCellsByLabel(kept, SaleIdMapping, "transaction_id");
    RenameCellsByLabel(kept, SaleIdMapping, CampaignColumn);
    forall i | 0 <= i < |out.rows|
      ensures KeyOf(out.rows[i], ["sale_id"]) == KeyOf(kept.rows[i], TransactionKey)
      ensures Holds(GreaterThanZero, Cell(out.rows[i], CampaignColumn))
    {
      assert kept.rows[i] in kept.rows;
    }
  }

  /** The intended pipeline's output: distinct sale ids, every campaign_id
      present and > 0, no missing BonusPoints, only transaction_id relabelled,
      and at most one row per distinct transaction id of the input. */
  lemma SalesPipelineSound(t: Table)
    requires WellFormed(t) && SalesPipeline(t).Ok?
    ensures var out := SalesPipeline(t).value;
      && out.columns == RenamedColumns(t.columns, SaleIdMapping)
      && DistinctKeys(out.rows, ["sale_id"])
      && (forall r | r in out.rows :: Holds(GreaterThanZero, Cell(r, CampaignColumn)))
      && (forall r | r in out.rows && "BonusPoints" in out.columns :: Cell(r, "BonusPoints") != Missing)
      && |out.rows| <= |Keys(t.rows, TransactionKey)|
    ensures SalesSavesKeptRows(t)
  {
    SalesKeptFacts(t);
    var kept := Filter(FillNa(DropDuplicates(t, TransactionKey).value, SalesFill), CampaignColumn, GreaterThanZero).value;
    SaleIdRenameFacts(kept);
    SalesPipelineRows(t);
    if "BonusPoints" in SalesPipeline(t).value.columns {
      SalesBonusPointsFilled(t);
    }
  }

  /** The saved rows are the rows the campaign filter keeps, taken in order
      from the deduplicated, filled table, relabelled with every cell kept. */
  predicate SalesSavesKeptRows(t: Table)
    requires SalesPipeline(t).Ok?
  {
    var filled := FillNa(DropDuplicates(t, TransactionKey).value, SalesFill);
    var kept := Filter(filled, CampaignColumn, GreaterThanZero).value;
    var out := SalesPipeline(t).value;
    && IsSubsequence(kept.rows, filled.rows)
    && |out.rows| == |kept.rows|
    && (forall i, j | 0 <= i < |kept.rows| && 0 <= j < |t.columns| ::
          Cell(out.rows[i], out.columns[j]) == Cell(kept.rows[i], t.columns[j]))
  }

  lemma SalesPipelineRows(t: Table)
    requires SalesPipeline(t).Ok?
    ensures SalesSavesKeptRows(t)
  {
    var filled := FillNa(DropDuplicates(t, TransactionKey).value, SalesFill);
    var kept := Filter(filled, CampaignColumn, GreaterThanZero).value;
    assert SalesPipeline(t) == RenameColumns(kept, SaleIdMapping);
    RenameColumnsCells(kept, SaleIdMapping);
  }

  lemma SalesBonusPointsFilled(t: Table)
    requires WellFormed(t) && SalesPipeline(t).Ok? && "BonusPoints" in SalesPipeline(t).value.columns
    ensures forall r | r in SalesPipeline(t).value.rows :: Cell(r, "BonusPoints") != Missing
  {
    var deduped := DropDuplicates(t, TransactionKey).value;
    var kept := Filter(FillNa(deduped, SalesFill), CampaignColumn, GreaterThanZero).value;
    var out := SalesPipeline(t).value;
    assert out == RenameColumns(kept, SaleIdMapping).value;
    assert "BonusPoints" in kept.columns by {
      RenameColumnsCells(kept, SaleIdMapping);
      var b :| 0 <= b < |out.columns| && out.columns[b] == "BonusPoints";
    }
    KeptBonusPointsFilled(t);
    RenameCellsByLabel(kept, SaleIdMapping, "BonusPoints");
    forall r | r in out.rows ensures Cell(r, "BonusPoints") != Missing {
      var i :| 0 <= i < |out.rows| && out.rows[i] == r;
      assert kept.rows[i] in kept.rows;
    }
  }

  /** Before the rename: every row the campaign filter keeps has BonusPoints. */
  lemma KeptBonusPointsFilled(t: Table)
    requires WellFormed(t) && "BonusPoints" in t.columns && DropDuplicates(t, TransactionKey).Ok?
    requires Filter(FillNa(DropDuplicates(t, TransactionKey).value, SalesFill), CampaignColumn, GreaterThanZero).Ok?
    ensures forall r | r in Filter(FillNa(DropDuplicates(t, TransactionKey).value, SalesFill), CampaignColumn, GreaterThanZero).value.rows
      :: Cell(r, "BonusPoints") != Missing
  {
    var deduped := DropDuplicates(t, TransactionKey).value;
    assert WellFormed(deduped) by {
      SubsequenceMembers(deduped.rows, t.rows);
    }
    FillNaFillsColumn(deduped, SalesFill, "BonusPoints");
  }
}
