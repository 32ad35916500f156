# Smart-store data preparation and OLAP cube, modelled in Dafny

This project models the table-cleaning and cube-building core of the
smart-store batch pipeline:

- the product preparer (`scripts/data_preparation/prepare_products_data.py`)
  deduplicates on `product_id`, fills missing `productname`s with
  `"Unknown Product"`, keeps rows with `stock_quantity > 0`, then keeps rows
  with `unit_price >= 0`;
- the sales preparer (`scripts/data_preparation/prepare_sales_data.py`)
  deduplicates on `transaction_id`, fills missing `BonusPoints` with 0,
  computes a `campaign_id > 0` filter whose result `main` discards, then
  renames `transaction_id` to `sale_id` in the scrubber's deduplicated,
  filled table (see "## Findings");
- the cube builder (`scripts/olap_cubing.py`) names the cube's columns with
  `generate_column_names`, groups sales by a list of dimensions, and per
  group computes the `sale_amount` sum, the `sale_id` count, the list of
  `sale_id`s and `avg_transaction_size = sum / count`. `main` then left-merges
  the cube with the customers' names on `customer_id`.

A pandas DataFrame is a `Table`: its column labels, plus rows that map labels
to `Value`s (`Int`, `Real`, `Str` or `Missing` for NaN). Every comparison with
`Missing` is false. Comparing text with a number is pandas' `TypeError`, and
naming an absent column is its `KeyError`. Both are modelled as `Err` results.
The scripts share DataFrames by reference: `remove_duplicates` is taken to return the
DataFrame the scrubber then holds, and `fillna(inplace=True)` changes that
object in place. The model takes `get_dataframe` to return the scrubber's own
object as well. So the DataFrame
and the `DataScrubber` are classes (`Frames.Frame`, `Frames.DataScrubber`),
and each preparation script's `main` is a method proved equal to a function on table
values.

Files:

| file | module | contents |
|---|---|---|
| tables.dfy | Tables | cells, rows, tables, errors, boolean masks, `Filter` |
| dedup.dfy | Dedup | `drop_duplicates(subset=…)`, keeping the first row of each key |
| fill.dfy | Fill | `fillna({column: value})` |
| rename.dfy | Rename | `rename(columns=…)` |
| frames.dfy | Frames | the DataFrame and DataScrubber objects |
| products.dfy | ProductsPreparer | the product preparer |
| sales.dfy | SalesPreparer | the sales preparer, as written and as intended |
| cube_names.dfy | ColumnNaming | `generate_column_names` |
| olap_cube.dfy | OlapCube | `create_olap_cube` and the customer merge |

## Model

| member | source | states |
|---|---|---|
| Tables.Filter | scripts/data_preparation/prepare_products_data.py:163 | the model of `df[df[column] <op> 0]`: KeyError for an absent column, TypeError for text in it, otherwise the same labels and, in order, exactly the rows whose cell passes the comparison (a Missing cell never does); the Where rows below prove the rest |
| Tables.FirstAbsent | scripts/data_preparation/prepare_products_data.py:105 | None exactly when every subset column is a column of the table; otherwise it names an absent subset column (the only one for the one-column subsets the scripts pass) |
| Tables.WhereMembers | scripts/data_preparation/prepare_products_data.py:163 | a row is in `df[mask]` exactly when it is a row of `df` that passes the mask |
| Tables.WhereIsSubsequence | scripts/data_preparation/prepare_products_data.py:163 | boolean selection keeps rows unchanged and in their original order |
| Tables.WhereShorter | scripts/data_preparation/prepare_products_data.py:163 | boolean selection never adds rows |
| Tables.WhereAll | scripts/data_preparation/prepare_products_data.py:220 | a mask that every row passes keeps the whole table |
| Tables.WhereIdempotent | scripts/data_preparation/prepare_sales_data.py:161 | applying the same mask twice selects the same rows as applying it once |
| Tables.WhereKeepsDistinctKeys | scripts/data_preparation/prepare_products_data.py:163 | rows with distinct key tuples still have distinct key tuples after a selection |
| Tables.SubsequenceTransitive | scripts/data_preparation/prepare_products_data.py:262-271 | several selections in a row still give a subsequence of the original rows |
| Tables.InvalidIsComplement | scripts/data_preparation/prepare_products_data.py:159-163 | on a column without text, the logged invalid count (`isna() \| <= 0`) equals the number of rows the `> 0` mask removes |
| Tables.DroppedAreNegativeOrMissing | scripts/data_preparation/prepare_products_data.py:218-220 | the `>= 0` mask removes exactly the negative rows and the Missing rows |
| Tables.CampaignFilterExample | scripts/data_preparation/prepare_sales_data.py:157-161 | campaign_ids -1, 0, missing and 5: only the 5 is kept, and the invalid count is 3 |
| Dedup.DropDuplicates | scripts/data_preparation/prepare_products_data.py:105 | the model of `drop_duplicates(subset)`: KeyError naming an absent subset column exactly when one is absent, otherwise the same labels and a subsequence of the rows with distinct key tuples; the Dedup rows below prove which rows stay and how many |
| Dedup.DropDuplicatesDistinct | scripts/data_preparation/prepare_products_data.py:105 | after deduplication no two rows share a key tuple, and the rows are a subsequence of the input |
| Dedup.DropDuplicatesKeepsFirst | scripts/data_preparation/prepare_products_data.py:105 | the first row of each key tuple is kept (pandas' `keep="first"`) |
| Dedup.DropDuplicatesCount | scripts/data_preparation/prepare_products_data.py:102-107 | no key tuple is lost; the result has one row per distinct key, so the removed count is the input size minus the number of distinct keys |
| Dedup.DropDuplicatesOfDistinct | scripts/data_preparation/prepare_sales_data.py:94 | a table with distinct keys is left unchanged |
| Dedup.DropDuplicatesIdempotent | scripts/data_preparation/prepare_sales_data.py:94 | deduplicating twice gives the same result as deduplicating once |
| Dedup.DropDuplicatesExample | scripts/data_preparation/prepare_sales_data.py:94 | rows (1,a), (1,b), (2,c) keyed on id give (1,a), (2,c) |
| Fill.FillNa | scripts/data_preparation/prepare_products_data.py:131 | the model of `fillna(dict)`: the same labels, the same number of rows and each row's labels unchanged; the Fill rows below say which cells change |
| Fill.FillNaCells | scripts/data_preparation/prepare_products_data.py:131 | labels, row count and row keys stay the same; a cell changes only when it is Missing in a named column, and then it becomes the fill value |
| Fill.FillNaLeavesNoMissing | scripts/data_preparation/prepare_products_data.py:131 | after the fill, no productname cell is Missing |
| Fill.FillNaFillsColumn | scripts/data_preparation/prepare_sales_data.py:120 | in a well-formed table with the column present, no cell of the filled column is Missing |
| Fill.FillNaIdempotent | scripts/data_preparation/prepare_sales_data.py:120 | filling twice gives the same result as filling once |
| Fill.FillNaIgnoresAbsentColumns | scripts/data_preparation/prepare_products_data.py:131 | only map entries that name a column have any effect |
| Fill.FillNaAbsentIsNoOp | scripts/data_preparation/prepare_sales_data.py:120 | a table without BonusPoints is left unchanged |
| Fill.FillNaKeepsKeys | scripts/data_preparation/prepare_products_data.py:131 | key tuples over unfilled columns, and their distinctness, are unchanged |
| Rename.RenameColumns | scripts/data_preparation/prepare_sales_data.py:230-234 | the model of `rename(columns=mapping)`: SchemaConflict exactly when two new labels coincide, and no other error; otherwise each label replaced by its image, the labels distinct and the row count kept; the Rename rows below say where the cells go |
| Rename.RenameColumnsCells | scripts/data_preparation/prepare_sales_data.py:230-234 | each label is replaced by its image; every row has exactly the new labels and holds each old column's cell under that column's new label |
| Rename.RenameCellsByLabel | scripts/data_preparation/prepare_sales_data.py:230-234 | column `c`'s cells are found under `c`'s new label, and the row count stays the same |
| Rename.RenameAbsentIsNoOp | scripts/data_preparation/prepare_sales_data.py:230-234 | a mapping that names no column leaves the table unchanged |
| Rename.RenameIdempotent | scripts/data_preparation/prepare_sales_data.py:230-234 | when no new name is itself renamed, renaming twice gives the same result as renaming once |
| Frames.DataScrubber.GetDataframe | scripts/data_preparation/prepare_products_data.py:253 | returns the scrubber's held DataFrame object (an assumption: see "## Left out") |
| Frames.DataScrubber.RemoveDuplicates | scripts/data_preparation/prepare_products_data.py:105 | the held DataFrame becomes a fresh one holding the deduplicated table, which is returned; KeyError leaves the scrubber as it was |
| Frames.DataScrubber.RenameColumns | scripts/data_preparation/prepare_sales_data.py:230-234 | the held DataFrame becomes a fresh one holding the renamed table, which is returned |
| ProductsPreparer.RemoveDuplicates | scripts/data_preparation/prepare_products_data.py:91-110 | returns the scrubber's deduplicated DataFrame; its removed count is taken against the `df` passed in |
| ProductsPreparer.HandleMissingValues | scripts/data_preparation/prepare_products_data.py:112-141 | fills productname in place on the object passed in, and returns that object |
| ProductsPreparer.RemoveOutliers | scripts/data_preparation/prepare_products_data.py:143-180 | returns a new DataFrame of the rows with stock_quantity > 0; the logged invalid count equals the removed count; error cases as `Filter` |
| ProductsPreparer.ValidateData | scripts/data_preparation/prepare_products_data.py:205-223 | returns a new DataFrame of the rows with unit_price >= 0; the removed rows are the logged negative prices plus the missing prices |
| ProductsPreparer.StandardizeFormats | scripts/data_preparation/prepare_products_data.py:182-203 | returns the same object, unchanged |
| ProductsPreparer.ProductsPipeline | scripts/data_preparation/prepare_products_data.py:261-274 | the model of `main`'s cleaning steps on table values: the input's labels and no more rows than the input; PrepareProducts and ProductsPipelineSound prove the rest |
| ProductsPreparer.PrepareProducts | scripts/data_preparation/prepare_products_data.py:249-274 | `main`'s steps on the shared objects compute `ProductsPipeline` of the scrubber's table |
| ProductsPreparer.ProductsPipelineSound | scripts/data_preparation/prepare_products_data.py:261-274 | the saved table has the input's columns, distinct product_ids, every stock_quantity present and > 0, every unit_price present and >= 0, no missing productname, rows taken in order from the deduplicated, filled table, and at most one row per distinct product_id |
| SalesPreparer.RemoveDuplicates | scripts/data_preparation/prepare_sales_data.py:80-99 | returns the scrubber's DataFrame deduplicated on transaction_id, with the removed count taken against `df` |
| SalesPreparer.HandleMissingValues | scripts/data_preparation/prepare_sales_data.py:101-126 | fills BonusPoints with 0 in place on the object passed in; same rows and labels, and no Missing BonusPoints |
| SalesPreparer.RemoveOutliers | scripts/data_preparation/prepare_sales_data.py:141-178 | returns a new DataFrame of the rows with campaign_id > 0; the logged invalid count equals the removed count |
| SalesPreparer.SalesMainAsWritten | scripts/data_preparation/prepare_sales_data.py:221-234 | the model of what `main` saves as written (the scrubber's deduplicated, filled table, renamed, with the filter's result dropped): as many labels as the input and no more rows; PrepareSales and the two SalesMain rows below prove the rest |
| SalesPreparer.SalesPipeline | scripts/data_preparation/prepare_sales_data.py:221-234 | the evidently intended output (the filtered table, renamed): as many labels as the input and no more rows; SalesPipelineSound proves the rest |
| SalesPreparer.PrepareSales | scripts/data_preparation/prepare_sales_data.py:209-234 | `main`'s steps on the shared objects compute `SalesMainAsWritten`: the saved table is the scrubber's deduplicated table, filled through the alias and renamed |
| SalesPreparer.SalesMainKeepsEveryDeduplicatedRow | scripts/data_preparation/prepare_sales_data.py:228-234 | as written, the saved table has one row per distinct transaction_id, so the campaign filter removes nothing |
| SalesPreparer.SalesMainKeepsInvalidCampaign | scripts/data_preparation/prepare_sales_data.py:228-234 | a one-row table with campaign_id 0: `main` saves the row, while the intended pipeline drops it |
| SalesPreparer.SalesPipelineSound | scripts/data_preparation/prepare_sales_data.py:221-234 | the intended output has only transaction_id relabelled, distinct sale_ids, every campaign_id present and > 0, no missing BonusPoints, and at most one row per distinct transaction_id; the saved rows are the filtered rows, taken in order from the deduplicated, filled table, relabelled with every cell kept |
| SalesPreparer.SalesPipelineRows | scripts/data_preparation/prepare_sales_data.py:228-234 | the intended output's rows are the filtered rows, a subsequence of the deduplicated, filled table, one for one, with every cell under its column's new label |
| SalesPreparer.SalesKeptFacts | scripts/data_preparation/prepare_sales_data.py:221-228 | after deduplication, filling and the campaign filter: the input's columns, distinct transaction_ids, every campaign_id present and > 0, and at most one row per distinct transaction_id |
| SalesPreparer.SaleIdRenameFacts | scripts/data_preparation/prepare_sales_data.py:230-234 | relabelling transaction_id as sale_id keeps the row count, makes the sale_ids distinct, and keeps every campaign_id > 0 |
| SalesPreparer.SalesBonusPointsFilled | scripts/data_preparation/prepare_sales_data.py:120 | a well-formed table with BonusPoints has no Missing BonusPoints after the pipeline |
| ColumnNaming.ColumnNames | scripts/olap_cubing.py:47-57 | the model of `generate_column_names`'s result: one name per dimension plus one per aggregation function; GenerateColumnNames and the ColumnNaming rows below prove the loop computes it and what it holds |
| ColumnNaming.RStrip | scripts/olap_cubing.py:56 | the result is a prefix of the input with no trailing `_`, and every removed character is `_` |
| ColumnNaming.RStripUnique | scripts/olap_cubing.py:56 | any prefix with those three properties is `rstrip("_")`'s result: it removes all trailing underscores and nothing else |
| ColumnNaming.RStripIdempotent | scripts/olap_cubing.py:56 | stripping again changes nothing |
| ColumnNaming.StripAllIdempotent | scripts/olap_cubing.py:56 | stripping the whole list again changes nothing |
| ColumnNaming.AppendLabels | scripts/olap_cubing.py:51-53 | the inner loop appends one `{column}_{func}` label per function of the list, in the list's order |
| ColumnNaming.GenerateColumnNames | scripts/olap_cubing.py:47-57 | the loop and comprehension return `ColumnNames(dims, metrics)`, of length \|dims\| plus one per aggregation function, with no name ending in `_` |
| ColumnNaming.MetricNamesLength | scripts/olap_cubing.py:50-55 | the metrics contribute one name per listed function, or one for a bare function |
| ColumnNaming.ColumnNamesLength | scripts/olap_cubing.py:49-56 | the length is \|dims\| + Σ(list length or 1), and no name ends with `_` |
| ColumnNaming.ColumnNamesDimensionsFirst | scripts/olap_cubing.py:49-56 | the stripped dimensions come first, in order, followed by the stripped metric labels |
| ColumnNaming.MetricNamesAppend | scripts/olap_cubing.py:50-55 | the labels of two runs of metrics are the first run's labels followed by the second's |
| ColumnNaming.MetricNamesCons | scripts/olap_cubing.py:50-55 | in metric order, each metric contributes `{column}_{func}` for its functions in list order |
| ColumnNaming.BareAsList | scripts/olap_cubing.py:51-55 | a bare function and the one-element list holding it give the same names |
| OlapCube.OlapCube | scripts/olap_cubing.py:60-88 | the model of `create_olap_cube` with `main`'s metrics: an error exactly when there are no dimensions, a dimension, sale_amount or sale_id column is absent, or a grouped sale amount is text; otherwise the named columns and one row per distinct grouped dimension tuple; the OlapCube rows below prove the groups and the aggregates |
| OlapCube.CreateOlapCube | scripts/olap_cubing.py:60-88 | the step-by-step body computes `OlapCube`: NoGroupKeys for no dimensions, KeyError for an absent dimension or metric column, TypeError for text among grouped sale amounts; otherwise the named columns and one aggregated row per group |
| OlapCube.GroupKeysDistinctAndCovering | scripts/olap_cubing.py:68-71 | the cube's keys are pairwise distinct, number the distinct dimension tuples, and are exactly the tuples of the grouped rows |
| OlapCube.EveryRowInExactlyOneGroup | scripts/olap_cubing.py:68 | every grouped row belongs to the group of exactly one cube row |
| OlapCube.GroupedIsAll | scripts/olap_cubing.py:68 | without a Missing dimension value, every row is grouped |
| OlapCube.GroupMembers | scripts/olap_cubing.py:68-74 | a key's group is non-empty and holds exactly the input rows with that dimension tuple, in input order |
| OlapCube.Average | scripts/olap_cubing.py:82 | `sale_amount_sum / sale_id_count`: None exactly when the count is 0 (see "## Left out"); otherwise the value times the count is the sum |
| OlapCube.AggregateFacts | scripts/olap_cubing.py:71-82 | sale_amount_sum is the group's sum; sale_ids are the group's ids in row order, one per row; count <= group size, equal to it when no id is Missing; avg = sum / count when count > 0 |
| OlapCube.CubeRowsOrderFree | scripts/olap_cubing.py:68-82 | up to row order: one cube row per distinct dimension tuple among the grouped rows, no tuple twice, and each row the aggregate of its tuple's group |
| OlapCube.CubeRowFacts | scripts/olap_cubing.py:68-82 | cube row `i` has the `i`-th first-seen key (pandas sorts instead: see "## Left out") and aggregates a non-empty group; with no Missing sale_id its count is the group size, at least 1, and avg = sum / count |
| OlapCube.GroupSumsPartition | scripts/olap_cubing.py:71 | over distinct keys covering the rows, the per-group sums add up to the total sale amount |
| OlapCube.GroupIdsPartition | scripts/olap_cubing.py:74 | over distinct keys covering the rows, the per-group id lists together are a permutation of all the ids |
| OlapCube.CubeTotals | scripts/olap_cubing.py:71-74 | summing sale_amount_sum over the cube gives the total grouped sale amount; the concatenated sale_ids lists are a permutation of the grouped sale ids; with no Missing dimension, the same holds for the whole input |
| OlapCube.SalesColumnNames | scripts/olap_cubing.py:109-113 | `main`'s dimensions and metrics give customer_id, sale_amount_sum, sale_id_count, sale_ids, avg_transaction_size |
| OlapCube.OlapCubeExample | scripts/olap_cubing.py:60-88 | three sales, (1, 10, a), (1, 20, b) and (2, 5, c), give the rows (1, 30, 2, [a, b], 15) and (2, 5, 1, [c], 5) |
| OlapCube.MergeCustomers | scripts/olap_cubing.py:122 | the model of `merge(customers_df, on="customer_id", how="left")`: KeyError exactly when either side lacks customer_id, otherwise the cube's columns plus `name`; the merge rows below prove which rows it holds |
| OlapCube.MergeKeepsEveryCubeRow | scripts/olap_cubing.py:122 | the left merge keeps every cube row, adds `name` to the columns, and adds no row that is not a cube row |
| OlapCube.MatchesAtMostOne | scripts/olap_cubing.py:122 | with customer_id a key of the customers, a cube row matches at most one customer |
| OlapCube.MergeUniqueCustomers | scripts/olap_cubing.py:122 | with customer_id a key of the customers, the merge keeps the cube rows one for one and in order; `name` is the matching customer's name, and Missing where no customer matches |
| OlapCube.BuildCustomerCube | scripts/olap_cubing.py:106-122 | the model of `main`: the cube over customer_id, then the left merge; an error exactly when building the cube fails (that error) or the customers lack customer_id, and otherwise the columns customer_id, sale_amount_sum, sale_id_count, sale_ids, avg_transaction_size, name |
| OlapCube.BuildCustomerCubeFacts | scripts/olap_cubing.py:106-122 | `main`'s cube with names has the cube's columns plus `name`, and exactly the cube's rows |

## Left out

- Reading and writing CSV files, SQLite queries, directory creation, `sys.path` setup and logging are I/O. The duplicate, invalid and removed counts the scripts log are returned as out-parameters. The per-column `isna().sum()` counts that `handle_missing_values` logs are not modelled.
- `normalize_column_names` and `format_string_columns` are not modelled. utils/data_scrubber.py is not part of this model. The `main` methods start from the table the scrubber holds after those two calls.
- `DataScrubber.remove_duplicates` and `rename_columns` are modelled as replacing the held DataFrame with a fresh result and returning it. This assumption matches how the scripts use the returned value.
- `DataScrubber.get_dataframe` is modelled as returning the held DataFrame object itself. No proved result depends on this: the `df` it returns (lines 213 and 253 of the two preparation scripts) is only read, for its column labels and its `len`, before it is reassigned.
- scripts/etl_to_dw.py (the warehouse load) and scripts/olap_goal_customer_avg_transaction_size.py (plotting) are not part of this model.
- dtype inference and floating point are not modelled. Amounts are exact `int`/`real`, Missing stands for NaN, and `Int(1)` and `Real(1.0)` are different values wherever keys are compared.
- Rename.RenameColumns: a rename that would give two columns the same label returns `SchemaConflict`, where pandas would allow duplicate labels. A row as a map cannot hold them.
- Dedup.DropDuplicates: an empty subset list is not given pandas' meaning (all columns). The scripts always pass one column.
- OlapCube.OlapCube: pandas sorts the groups by key. The model lists them in order of first appearance. OlapCube.CubeRowsOrderFree states the cube up to the order of its rows, and that statement holds for pandas' sorted order too. These members depend on first-appearance order: OlapCube.CreateOlapCube and OlapCube.OlapCube (the row list), OlapCube.CubeRowFacts (row `i` has the `i`-th first-seen key), OlapCube.OlapCubeExample (the row list it gives) and the "in order" of OlapCube.MergeUniqueCustomers.
- OlapCube.OlapCube: only `main`'s metrics (`sale_amount: ["sum"]`, `sale_id: "count"`) are modelled. Other metrics would change the aggregated columns and could make line 82 raise KeyError. Column naming is modelled for any metrics.
- OlapCube.OlapCube: a dimension list that includes sale_amount or sale_id is not given pandas' behaviour.
- OlapCube.OlapCube: any text among the grouped sale amounts is a TypeError. For a group of text only, pandas concatenates the strings and then raises at the division on line 82; the model reports the error at the sum.
- OlapCube.Average: where sale_id_count is 0, pandas gives inf or NaN. The model gives None.
- OlapCube.MergeCustomers: it matches a cube row's whole key against a customer's `[customer_id]` tuple. That is the merge on customer_id only for a cube over `CustomerDims`, which is the only cube `main` builds. A cube over other dimensions that include customer_id would find no match in the model, where pandas would merge on that column.
- OlapCube.MergeCustomers: only the customers' `name` column is carried over, as the SQL query selects only customer_id and name. pandas' suffixes for clashing labels are not modelled.
- ProductsPreparer.ProductsPipelineSound: "no missing productname" is stated only for rows that hold the column, because this lemma does not assume a well-formed input. SalesPreparer.SalesPipelineSound assumes one, and states its BonusPoints property for every row.

## Findings

| source | as written | input that shows it | evidently intended | confidence | as-written member | corrected member |
|---|---|---|---|---|---|---|
| scripts/data_preparation/prepare_sales_data.py:228-234 | `df = remove_outliers(df)` is overwritten by `df = scrubber.rename_columns(...)`, which renames the scrubber's held table. That table was deduplicated and (through the alias) filled, but never outlier-filtered, so the saved file keeps rows with campaign_id <= 0 or missing | a one-row table with transaction_id 1 and campaign_id 0 | the outlier-filtered table is renamed and saved | medium (depends on utils/data_scrubber.py, whose code is outside this model), not executed | SalesPreparer.SalesMainKeepsInvalidCampaign | SalesPreparer.SalesPipelineSound |
