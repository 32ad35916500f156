/** scripts/data_preparation/prepare_products_data.py: deduplicate on
    product_id, fill missing product names, drop rows without a positive
    stock_quantity, drop rows without a non-negative unit_price. */
module ProductsPreparer {
  import opened Tables
  import opened Dedup
  import opened Fill
  import opened Frames

  const ProductKey: seq<string> := ["product_id"]
  const ProductFill: map<string, Value> := map["productname" := Str("Unknown Product")]
  const StockColumn := "stock_quantity"
  const PriceColumn := "unit_price"

  /** `remove_duplicates(df, scrubber)`: the scrubber deduplicates the table it
      holds; the removed count is taken against `df`. */
  method RemoveDuplicates(df: Frame, scrubber: DataScrubber) returns (r: Result<Frame>, removedCount: int)
    modifies scrubber
    ensures r.Err? <==> DropDuplicates(old(scrubber.df.View()), ProductKey).Err?
    ensures r.Err? ==> r.error == DropDuplicates(old(scrubber.df.View()), ProductKey).error
    ensures r.Ok? ==> && fresh(r.value) && scrubber.df == r.value
                      && r.value.View() == DropDuplicates(old(scrubber.df.View()), ProductKey).value
                      && removedCount == |old(df.rows)| - |r.value.rows|
  {
    var initialCount := |df.rows|;
    r := scrubber.RemoveDuplicates(ProductKey);
    removedCount := if r.Ok? then initialCount - |r.value.rows| else 0;
  }

  /** `handle_missing_values(df)`: `fillna` in place, on the object passed in. */
  method HandleMissingValues(df: Frame) returns (r: Frame)
    modifies df
    ensures r == df && df.View() == FillNa(old(df.View()), ProductFill)
  {
    df.rows := FillNa(df.View(), ProductFill).rows;
    r := df;
  }

  /** `remove_outliers(df)`: a new table of the rows with stock_quantity > 0;
      the logged invalid count (missing or <= 0) equals the removed count. */
  method RemoveOutliers(df: Frame) returns (r: Result<Frame>, invalidCount: nat, removedCount: int)
    ensures r.Err? <==> Filter(df.View(), StockColumn, GreaterThanZero).Err?
    ensures r.Err? ==> r.error == Filter(df.View(), StockColumn, GreaterThanZero).error
    ensures r.Ok? ==> && fresh(r.value)
                      && r.value.View() == Filter(df.View(), StockColumn, GreaterThanZero).value
                      && invalidCount == CountWhere(df.rows, Compare(StockColumn, MissingOrAtMostZero))
                      && removedCount == |df.rows| - |r.value.rows|
                      && removedCount == invalidCount
  {
    var initialCount := |df.rows|;
    var res := Filter(df.View(), StockColumn, GreaterThanZero);
    if res.Err? {
      return Err(res.error), 0, 0;
    }
    invalidCount := CountWhere(df.rows, Compare(StockColumn, MissingOrAtMostZero));
    var kept := new Frame(res.value);
    r := Ok(kept);
    removedCount := initialCount - |kept.rows|;
    InvalidIsComplement(df.rows, StockColumn);
  }

  /** `validate_data(df)`: a new table of the rows with unit_price >= 0. The
      logged count covers only the negative prices; rows with a missing price
      are dropped as well, so the removed rows are the two counts together. */
  method ValidateData(df: Frame) returns (r: Result<Frame>, invalidPrices: nat)
    ensures r.Err? <==> Filter(df.View(), PriceColumn, AtLeastZero).Err?
    ensures r.Err? ==> r.error == Filter(df.View(), PriceColumn, AtLeastZero).error
    ensures r.Ok? ==> && fresh(r.value)
                      && r.value.View() == Filter(df.View(), PriceColumn, AtLeastZero).value
                      && invalidPrices == CountWhere(df.rows, Compare(PriceColumn, BelowZero))
                      && |df.rows| - |r.value.rows|
                         == invalidPrices + CountWhere(df.rows, Compare(PriceColumn, IsMissing))
  {
    var res := Filter(df.View(), PriceColumn, AtLeastZero);
    if res.Err? {
      return Err(res.error), 0;
    }
    invalidPrices := CountWhere(df.rows, Compare(PriceColumn, BelowZero));
    var kept := new Frame(res.value);
    r := Ok(kept);
    DroppedAreNegativeOrMissing(df.rows, PriceColumn);
  }

  /** `standardize_formats(df)`: returns the same object, unchanged. */
  method StandardizeFormats(df: Frame) returns (r: Frame)
    ensures r == df
  {
    r := df;
  }

  /** The steps of `main` as one function on table values. */
  function ProductsPipeline(t: Table): (r: Result<Table>)
    ensures r.Ok? ==> r.value.columns == t.columns && |r.value.rows| <= |t.rows|
  {
    var deduped :- DropDuplicates(t, ProductKey);
    var filled := FillNa(deduped, ProductFill);
    var stocked :- Filter(filled, StockColumn, GreaterThanZero);
    var priced :- Filter(stocked, PriceColumn, AtLeastZero);
    Ok(priced)
  }

  /** `main` from the scrubber's creation to the save: `input` is the table
      the scrubber holds after `normalize_column_names` and
      `format_string_columns`; the result is the table that is saved. */
  method PrepareProducts(input: Table) returns (out: Result<Table>)
    ensures out == ProductsPipeline(input)
  {
    var raw := new Frame(input);
    var scrubber := new DataScrubber(raw);
    var df := scrubber.GetDataframe();
    var deduped, removedDuplicates := RemoveDuplicates(df, scrubber);
    if deduped.Err? {
      return Err(deduped.error);
    }
    df := deduped.value;
    df := HandleMissingValues(df);
    var stocked, invalidStock, removedOutliers := RemoveOutliers(df);
    if stocked.Err? {
      return Err(stocked.error);
    }
    df := stocked.value;
    var priced, invalidPrices := ValidateData(df);
    if priced.Err? {
      return Err(priced.error);
    }
    df := priced.value;
    df := StandardizeFormats(df);
    out := Ok(df.View());
  }

  /** What the saved product table satisfies: product ids are distinct, every
      stock_quantity is present and > 0, every unit_price present and >= 0,
      no product name is missing, its rows are rows of the deduplicated and
      filled table in their order, and no step added a row. */
  lemma ProductsPipelineSound(t: Table)
    requires ProductsPipeline(t).Ok?
    ensures var out := ProductsPipeline(t).value;
      && out.columns == t.columns
      && DistinctKeys(out.rows, ProductKey)
      && (forall r | r in out.rows :: Holds(GreaterThanZero, Cell(r, StockColumn)))
      && (forall r | r in out.rows :: Holds(AtLeastZero, Cell(r, PriceColumn)))
      && (forall r | r in out.rows && "productname" in r :: r["productname"] != Missing)
      && IsSubsequence(out.rows, FillNa(DropDuplicates(t, ProductKey).value, ProductFill).rows)
      && |out.rows| <= |Keys(t.rows, ProductKey)| <= |t.rows|
  {
    var deduped := DropDuplicates(t, ProductKey).value;
    var filled := FillNa(deduped, ProductFill);
    var stocked := Filter(filled, StockColumn, GreaterThanZero).value;
    var out := ProductsPipeline(t).value;
    var st, pr := Compare(StockColumn, GreaterThanZero), Compare(PriceColumn, AtLeastZero);
    assert out.rows == Where(stocked.rows, pr);
    assert DistinctKeys(out.rows, ProductKey) by {
      DropDuplicatesDistinct(t.rows, ProductKey);
      FillNaKeepsKeys(deduped, ProductFill, ProductKey);
      WhereKeepsDistinctKeys(filled.rows, st, ProductKey);
      WhereKeepsDistinctKeys(stocked.rows, pr, ProductKey);
    }
    assert forall r | r in out.rows :: r in stocked.rows && Passes(pr, r) by {
      WhereMembers(stocked.rows, pr);
    }
    assert forall r | r in stocked.rows :: r in filled.rows && Passes(st, r) by {
      WhereMembers(filled.rows, st);
    }
    FillNaLeavesNoMissing(deduped, ProductFill, "productname");
    assert IsSubsequence(out.rows, filled.rows) by {
      WhereIsSubsequence(filled.rows, st);
      WhereIsSubsequence(stocked.rows, pr);
      SubsequenceTransitive(out.rows, stocked.rows, filled.rows);
    }
    assert |out.rows| <= |Keys(t.rows, ProductKey)| <= |t.rows| by {
      DropDuplicatesCount(t.rows, ProductKey);
      WhereShorter(filled.rows, st);
      WhereShorter(stocked.rows, pr);
    }
  }
}
