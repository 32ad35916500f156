/** The objects the preparation scripts share by reference: a pandas
    DataFrame, and the DataScrubber of utils/data_scrubber.py, which holds one
    DataFrame. utils/data_scrubber.py is not part of this model; of its three
    methods used here, `get_dataframe` is modelled as returning the held
    object, and `remove_duplicates` and `rename_columns` on the assumption
    that each computes a new DataFrame from the held one, makes it the held
    one and returns it. */
module Frames {
  import opened Tables
  import Dedup
  import Rename

  /** A pandas DataFrame object. */
  class Frame {
    var columns: seq<string>
    var rows: seq<Row>

    constructor (t: Table)
      ensures View() == t
    {
      columns := t.columns;
      rows := t.rows;
    }

    /** The table this object currently holds. */
    function View(): Table
      reads this
    {
      Table(columns, rows)
    }
  }

  class DataScrubber {
    var df: Frame

    constructor (df: Frame)
      ensures this.df == df
    {
      this.df := df;
    }

    /** `get_dataframe()`: taken to return the held object itself. */
    method GetDataframe() returns (r: Frame)
      ensures r == df
    {
      r := df;
    }

    /** `remove_duplicates(subset)`: the held table is replaced by a fresh,
        deduplicated one, which is also returned. */
    method RemoveDuplicates(subset: seq<string>) returns (r: Result<Frame>)
      modifies this
      ensures r.Err? <==> Dedup.DropDuplicates(old(df.View()), subset).Err?
      ensures r.Err? ==> r.error == Dedup.DropDuplicates(old(df.View()), subset).error && df == old(df)
      ensures r.Ok? ==> && fresh(r.value) && df == r.value
                        && df.View() == Dedup.DropDuplicates(old(df.View()), subset).value
    {
      var res := Dedup.DropDuplicates(df.View(), subset);
      match res
      case Err(e) =>
        r := Err(e);
      case Ok(t) =>
        var f := new Frame(t);
        df := f;
        r := Ok(f);
    }

    /** `rename_columns(mapping)`: the held table is replaced by a fresh,
        renamed one, which is also returned. */
    method RenameColumns(mapping: map<string, string>) returns (r: Result<Frame>)
      modifies this
      ensures r.Err? <==> Rename.RenameColumns(old(df.View()), mapping).Err?
      ensures r.Err? ==> r.error == Rename.RenameColumns(old(df.View()), mapping).error && df == old(df)
      ensures r.Ok? ==> && fresh(r.value) && df == r.value
                        && df.View() == Rename.RenameColumns(old(df.View()), mapping).value
    {
      var res := Rename.RenameColumns(df.View(), mapping);
      match res
      case Err(e) =>
        r := Err(e);
      case Ok(t) =>
        var f := new Frame(t);
        df := f;
        r := Ok(f);
    }
  }
}
