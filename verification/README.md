# dm tables in Dafny

A model of the core of `dm`, an in-memory columnar table library in Rust.
The model covers these pieces:

- **Columns.** A `Table` is an ordered list of named columns. Each column is a
  text, 64-bit integer, timestamp or float column. Cells come in and go out
  as text: `push_str` parses the text, and `get_as_string` prints the value.
- **Table operations.** `add_column` appends a column and refuses a name
  already taken. `push_row_str` takes one value per column from a map.
  `create_index` and `group_by` bucket row positions by the text of one
  column.
- **Aggregation.** `aggregate` counts or sums each group.
- **Joins.** `join` is a hash join on a tuple of key columns. `inner_join`
  is the single-key variant.
- **Pivot.** `pivot` builds a table with one row per row-group key and one
  float column per column-group key.
- **Sample.** The pivot of the sales table that `main` builds is worked
  out in full (`PivotExample.SamplePivot`).

Every `panic!` and `expect` of the library becomes an `Err` value of
`Wrappers.Error` (`ColumnNotFound`, `DuplicateColumn`, `MissingColumn`,
`ParseError`, `NonNumericValue`, `RowOutOfRange`). The model follows each
operation up to that point.

`Table` is a class whose `columns: seq<Column>` field the methods
reassign. Columns are values: in Rust each column is owned by exactly one
table, and `clone` copies it.

The loops of the source are methods. Each is proved against a
specification function:

- `Tables.AfterPush` for `push_row_str`;
- `Tables.IndexOn` for `create_index` and `group_by`;
- `Join.JoinOutput` for `join`;
- `Pivot.PivotOf` for `pivot`.

Lemmas then state what those functions mean. For the join and pivot, that
is a row per matched pair, with which text lands in which cell.

f64 values are modelled as exact normalised decimals (`Floats.Float`), and
i64 values as the subset type `DecimalText.I64`. Each has a parser and a
printer with the round trips proved. Hash-map and hash-set iteration
orders are left open: the methods choose with `:|`, and every contract
holds for every order.

## Model

| member | source | states |
|---|---|---|
| Wrappers.Collect | src/methods/pivot.rs:53-54 | `.map(..expect(..)).collect()`: when it succeeds, one value per input result |
| Wrappers.CollectOk | src/methods/pivot.rs:53-54 | collecting succeeds exactly when every result does, and keeps each value in order |
| Wrappers.CollectFirstError | src/methods/pivot.rs:53-54 | the error reported is the first failing result's |
| Wrappers.CollectErrorFrom | src/methods/pivot.rs:53-54 | a failed collection reports the error of one of the results |
| DecimalText.ParseI64Accepts | src/columns/int_column.rs:37-40 | `parse::<i64>` accepts exactly an optional sign followed by digits with a value in the i64 range, and yields that value |
| DecimalText.FormatI64Canonical | src/columns/int_column.rs:33-35 | `to_string` prints canonical text (no `+`, no leading zero, no `-0`), with a minus sign exactly for negative values |
| DecimalText.ParseFormatI64 | src/columns/int_column.rs:33-40 | parsing the printed text of any i64 gives it back |
| DecimalText.FormatParseI64 | src/columns/int_column.rs:33-40 | printing the value of a canonical literal gives the literal back |
| DecimalText.ParsePlusZeroZeroSeven | src/columns/int_column.rs:37-40 | "+007" parses to 7, which prints as "7" |
| DecimalText.ParseI64Rejects | src/columns/int_column.rs:37-40 | "", "+", "-", "1.5", "12a" and " 1" are rejected |
| Floats.Normalize | src/columns/float_column.rs:6 | the normal form of a decimal denotes the same number |
| Floats.FromNat | src/methods/aggregation.rs:20-22 | `rows.len() as f64` denotes the count |
| Floats.Add | src/methods/aggregation.rs:28 | `sum += val` denotes the exact sum |
| Floats.ValueInjective | src/columns/float_column.rs:5-6 | two floats denoting the same number are the same float |
| Floats.ParseFormatFloat | src/columns/float_column.rs:31-37 | parsing the printed text of a float gives it back |
| Floats.ParseFloatRejects | src/columns/float_column.rs:34-37 | "", ".", "-", "abc" and "1.2.3" are rejected |
| Floats.ParseFloatOfInt | src/methods/aggregation.rs:26-27 | integer text parses as a float of the same whole number |
| CellValues.CellValue.AsString | src/cell_value.rs:9-16 | text is returned as is; int and timestamp text is canonical and parses back to the value; float text parses back to the value |
| CellValues.DateTimeAsStringIsIntAsString | src/cell_value.rs:11-14 | a timestamp prints exactly as the integer with the same value |
| CellValues.IntAsStringExact | src/cell_value.rs:11 | an integer prints as `s` exactly when `s` is canonical and parses to it |
| Columns.Column.Texts | src/columns/column_trait.rs:4 | one text per row, each being `get_as_string` of that row |
| Columns.Column.Get | src/columns/int_column.rs:19-21 | a value exactly for rows that exist, of the column's own type |
| Columns.Column.GetAsString | src/columns/string_column.rs:32-34 | a text exactly for rows that exist: the printed native value |
| Columns.Column.Push | src/columns/string_column.rs:17-19 | one more value at the end; name, type and earlier values unchanged |
| Columns.Column.Parse | src/columns/float_column.rs:34-37 | a parsed value always has the column's own type |
| Columns.Column.PushStr | src/columns/column_trait.rs:5 | text columns take any text verbatim; int and timestamp columns accept exactly what `parse::<i64>` accepts, and float columns the decimal literals `Floats.ParseFloat` accepts; on success one more row, earlier rows, name and type unchanged; on failure a `ParseError` |
| Columns.Column.CloneBox | src/columns/string_column.rs:38-40 | a copy with the same type, name and values |
| Columns.CloneBoxEqual | src/columns/int_column.rs:42-44 | `clone_box` gives back an equal column |
| Columns.ColumnsEqual | src/columns/column_trait.rs:1-8 | two columns with the same type, name and cells are the same column |
| Columns.NewStringColumn | src/columns/string_column.rs:11-16 | an empty text column with the given name |
| Columns.NewIntColumn | src/columns/int_column.rs:10-15 | an empty integer column with the given name |
| Columns.NewDateTimeColumn | src/columns/datetime_column.rs:10-15 | an empty timestamp column with the given name |
| Columns.NewFloatColumn | src/columns/float_column.rs:10-15 | an empty float column with the given name |
| Columns.PushStrIntText | src/columns/int_column.rs:33-40 | after `push_str`, the row reads back as canonical text with the same value; canonical text reads back verbatim |
| Columns.PushStrIntValue | src/columns/int_column.rs:33-40 | pushing the printed text of an i64 stores that i64 |
| Columns.PushStrPlusZeroZeroSeven | src/columns/int_column.rs:37-40 | an integer column stores "+007" and reads it back as "7" |
| Columns.DateTimeLikeInt | src/columns/datetime_column.rs:31-37 | timestamp columns accept exactly what integer columns accept, and print each value the same way |
| Columns.ParseFloatText | src/columns/float_column.rs:31-37 | a float column parses the printed text of f as f |
| Columns.PushStrFloatValue | src/columns/float_column.rs:31-37 | pushing the printed text of f stores f |
| Ordering.LessIrreflexive | src/methods/pivot.rs:84 | no string sorts before itself |
| Ordering.LessTransitive | src/methods/pivot.rs:84 | the string order is transitive |
| Ordering.LessTotal | src/methods/pivot.rs:84 | any two different strings are ordered one way or the other |
| Ordering.Insert | src/methods/pivot.rs:84 | inserting into a sorted sequence keeps it sorted and adds exactly that string |
| Ordering.SortedUnique | src/methods/pivot.rs:83-84 | a strictly sorted sequence is determined by its elements, so the sort's result does not depend on the hash-set order |
| Ordering.SortedKeys | src/methods/pivot.rs:83-84 | collecting and sorting a set of keys gives each key once, in ascending order |
| Text.IndexOf | src/methods/pivot.rs:113 | the position of the first occurrence of the character, with none before it, or the length when there is none |
| CompositeKeys.Split | src/methods/pivot.rs:113 | splitting on the bar gives at least one piece |
| CompositeKeys.SplitJoinKey | src/methods/pivot.rs:113 | splitting a joined key gives the parts back when no part holds a bar |
| CompositeKeys.SplitJoinKeyLength | src/methods/pivot.rs:113 | a joined key splits into at least as many pieces as it had parts |
| CompositeKeys.JoinKeyCollision | src/methods/pivot.rs:62 | a single value "A", bar, "B" and the two values "A" and "B" give the same key, which splits into two pieces; no values and one empty value collide too |
| KeyIndexes.Positions | src/table.rs:66-69 | the positions of a key: exactly those holding it, ascending, as many as its occurrences |
| KeyIndexes.KeyIndexEntries | src/table.rs:63-71 | the index holds exactly the keys that occur, each with all its positions in ascending order |
| KeyIndexes.KeyIndexLookup | src/methods/join.rs:41 | looking a key up gives its positions; a key that does not occur has none |
| KeyIndexes.KeyIndexBuckets | src/table.rs:66-69 | every position lands in exactly the bucket of its own key; no bucket is empty |
| KeyIndexes.KeyIndexTotal | src/table.rs:66-69 | the buckets hold as many positions in all as there are keys |
| KeyIndexes.BuildIndex | src/table.rs:65-70 | the `entry().or_default().push(i)` loop builds the index |
| KeyIndexes.NestedLookup | src/methods/pivot.rs:66-73 | a row key is in the two-level index exactly when some row has it; under it, a column key exactly when some row has both; the bucket is those rows, ascending |
| KeyIndexes.BuildNested | src/methods/pivot.rs:66-73 | the grouping loop builds the two-level index |
| KeyIndexes.CollectSeconds | src/methods/pivot.rs:76-81 | the loop over the inner maps collects every column key |
| KeyIndexes.SecondsOfNested | src/methods/pivot.rs:76-81 | the column keys collected are exactly those of the rows |
| KeyIndexes.FirstsOfNested | src/methods/pivot.rs:106 | the row keys of the groups are exactly those of the rows |
| KeyIndexes.JoinPairs | src/methods/join.rs:38-55 | every pair produced joins rows with equal keys |
| KeyIndexes.JoinPairsComplete | src/methods/join.rs:38-55 | every pair of rows with equal keys is produced |
| KeyIndexes.JoinPairsOrdered | src/methods/join.rs:38-43 | pairs come by left row, then by right row, so none twice |
| KeyIndexes.JoinPairsCount | src/methods/join.rs:38-55 | one pair per (left row, matching right row) |
| Tables.Names | src/table.rs:33-35 | `column_names`: the names in column order |
| Tables.ColumnIndex | src/table.rs:37-39 | `get_column_index`: the first column with that name; none exactly when no column has it |
| Tables.ColumnIndexExact | src/table.rs:37-39 | with unique names, a name is found exactly at the column carrying it |
| Tables.RowCount | src/table.rs:41-47 | `len`: 0 without columns, otherwise every column's length when they agree |
| Tables.RowCountIgnoresLaterColumns | src/table.rs:41-47 | `add_column` does not compare lengths, so `len` can disagree with the second column |
| Tables.AppendColumn | src/table.rs:16-23 | refused exactly when the name is taken, with `DuplicateColumn`; otherwise the column goes last, and unique names stay unique |
| Tables.AddColumns | src/table.rs:16-23 | a run of `add_column` that succeeds appends all the columns, and names stay unique |
| Tables.AddColumnsOutcome | src/table.rs:16-23 | the run succeeds exactly when all names stay unique; otherwise the first repeated name is reported |
| Tables.FirstRepeatDistinct | src/table.rs:16-23 | the names all differ exactly when none repeats an earlier one |
| Tables.MissingName | src/table.rs:52-57 | the first column without a value in the map; none exactly when every column has one |
| Tables.FirstRejected | src/table.rs:58-60 | the first column whose parser rejects its value |
| Tables.AppendRow | src/table.rs:58-60 | each column grows by its own parsed value |
| Tables.AfterPush | src/table.rs:49-61 | the columns after `push_row_str`: unchanged when a value is missing, every column grown when the row fits |
| Tables.AppendRowNames | src/table.rs:58-60 | pushing a row keeps the column names |
| Tables.AppendRowShape | src/table.rs:58-60 | pushing a row grows every column by one and keeps its type |
| Tables.AppendRowRectangular | src/table.rs:41-61 | pushing a row keeps the columns equally long, and `len` grows by one |
| Tables.AppendRowTexts | src/table.rs:58-60 | a text column reads the new row back as the map's value |
| Tables.AppendRowIgnoresExtraKeys | src/table.rs:52-60 | map entries that name no column make no difference |
| Tables.PushCells | src/table.rs:58-60 | each column grows by its own cell |
| Tables.Tabulate | src/table.rs:58-60 | after pushing rows of cells, each column holds its old cells and then the rows' cells in order; schema unchanged |
| Tables.TabulateSnoc | src/table.rs:58-60 | tabulating one more row is pushing its cells |
| Tables.AppendRowAsCells | src/table.rs:58-60 | pushing texts that parse to the given cells pushes those cells |
| Tables.PushParsedRow | src/table.rs:49-61 | `push_row_str` of such texts onto tabulated columns tabulates one more row |
| Tables.PushTextRow | src/table.rs:49-61 | pushing a text row onto text columns appends exactly those texts |
| Tables.Tuple | src/methods/join.rs:39 | the key tuple of a row: the texts of the key columns at that row |
| Tables.ColumnIndexes | src/methods/join.rs:16 | when every lookup succeeds, one position per name, each that name's column |
| Tables.ColumnIndexesMissing | src/methods/join.rs:16 | the first missing name fails the lookup with `ColumnNotFound` of that name |
| Tables.ColumnIndexesOk | src/methods/pivot.rs:53-54 | the lookup succeeds exactly when every name is a column |
| Tables.ColumnIndexesSingle | src/methods/inner_join.rs:12 | one key column is found, or reported, on its own |
| Tables.IndexOn | src/table.rs:63-71 | fails with `ColumnNotFound` exactly when the column is missing; otherwise fails with `RowOutOfRange` of the column's length exactly when the column is shorter than `len` |
| Tables.IndexOnEntries | src/table.rs:63-71 | over a found column with every row below `len`, the index holds exactly the texts of those rows, each with all its rows ascending; `len` rows in all |
| Tables.IndexOnRectangular | src/table.rs:63-71 | over columns of equal length the index covers the whole column |
| Tables.FirstShortRow | src/table.rs:66-69 | the first row below `len` that one of the read columns lacks, or `len` exactly when all can be read there |
| Tables.ReadableConcat | src/methods/pivot.rs:68-70 | two lists of columns can be read at every row exactly when each can |
| Tables.MultiIndexOn | src/methods/join.rs:17 | fails with the first missing key column's error; otherwise with `RowOutOfRange` of the first row a key column lacks; otherwise the index of the key tuples of rows 0 .. `len`-1 |
| Tables.Table.constructor | src/table.rs:12-14 | a table without columns |
| Tables.Table.AddColumn | src/table.rs:16-23 | a taken name fails with `DuplicateColumn` and changes nothing; otherwise the column is appended; unique names stay unique |
| Tables.Table.AddStringColumn | src/table.rs:25-27 | `add_column` of an empty text column |
| Tables.Table.AddFloatColumn | src/table.rs:29-31 | `add_column` of an empty float column |
| Tables.Table.PushRowStr | src/table.rs:49-61 | a missing value fails with that column's name before anything changes; a fitting row passes and grows every column; otherwise the first rejected value is reported; the new columns are `AfterPush` |
| Tables.Table.CreateIndex | src/table.rs:63-71 | the loop builds `IndexOn` of the column, failing where it fails, on any table |
| Tables.Table.CreateMultiIndex | src/methods/join.rs:17 | the loop builds `MultiIndexOn` of the key columns, failing where it fails, on any table |
| Tables.Table.Clone | src/table.rs:75-84 | a fresh table with the same columns, in the same order |
| GroupBy.GroupBy | src/methods/group_by.rs:4-12 | the index on the column, on any table: fails exactly when the column is missing or shorter than `len` |
| Aggregation.AddRow | src/methods/aggregation.rs:25-28 | one step of the sum: fails on a missing row or unparsable text, otherwise adds the parsed number |
| Aggregation.AggregateOf | src/methods/aggregation.rs:19-31 | Count gives the number of rows; Sum gives the sum |
| Aggregation.SumOfOk | src/methods/aggregation.rs:23-31 | the sum succeeds exactly when every row exists and its text parses |
| Aggregation.SumOfStopsAtError | src/methods/aggregation.rs:23-31 | once a prefix fails, the whole sum fails the same way |
| Aggregation.SumOfFirstError | src/methods/aggregation.rs:23-31 | the error reported is that of the first row that is missing or does not parse |
| Aggregation.SumOfErrorKind | src/methods/aggregation.rs:25-28 | a sum fails only on a missing row or a text that is not a float literal |
| Aggregation.ParseNumericCell | src/methods/aggregation.rs:26-27 | a numeric cell's text parses to the same number |
| Aggregation.ParseNumericText | src/methods/aggregation.rs:26-27 | the printed text of an integer, timestamp or float value parses as a float of the same number |
| Aggregation.SumOfNumericColumn | src/methods/aggregation.rs:23-31 | over a numeric column, summing rows that exist succeeds and gives the exact sum of the stored numbers |
| Aggregation.SumRows | src/methods/aggregation.rs:23-31 | the summing loop computes `SumOf` |
| Aggregation.Aggregate | src/methods/aggregation.rs:11-36 | missing column fails with `ColumnNotFound`; otherwise succeeds exactly when every group's aggregate does, with the same keys and each group's aggregate; a failure is some group's failure |
| Aggregation.CountGroups | src/methods/aggregation.rs:20-22 | over a column with every row below `len`, counting the groups of `group_by` gives each text's number of occurrences, and the counts add up to `len` |
| Join.Keys | src/methods/join.rs:39 | one key tuple per row |
| Join.Matches | src/methods/join.rs:38-55 | every matched pair names rows that exist |
| Join.MatchesExact | src/methods/join.rs:38-55 | a pair is matched exactly when both rows exist and their key tuples are equal; pairs ordered; one per matching combination |
| Join.JoinRow | src/methods/join.rs:44-51 | one text per output column, as that column's name takes it for the pair |
| Join.JoinTextSource | src/methods/join.rs:46-49 | a column of the left table takes the left row's text; any other column takes the right row's text |
| Join.JoinShape | src/methods/join.rs:32-55 | one text column per name in the given order, each with one row per matched pair |
| Join.JoinCell | src/methods/join.rs:44-52 | row t of column c holds the text that column's name takes for the t-th pair |
| Join.CollectNames | src/methods/join.rs:20-29 | each name of either table exactly once |
| Join.RowMap | src/methods/join.rs:44-51 | the row map gives every output column its text |
| Join.AddHeader | src/methods/join.rs:32-35 | one empty text column per name, in order |
| Join.PushMatches | src/methods/join.rs:43-53 | one pushed row per right row of the bucket, in bucket order |
| Join.JoinLoop | src/methods/join.rs:38-55 | the loop over the left rows builds `JoinOutput` |
| Join.PushMatch | src/methods/join.rs:44-52 | pushing one more pair's row map extends the output by that pair's row |
| Join.Join | src/methods/join.rs:14-58 | a missing key column fails, left first; otherwise a fresh table whose distinct names are those of either table, holding `JoinOutput` |
| InnerJoin.InnerJoinError | src/methods/inner_join.rs:11-29 | a missing key column fails first with `ColumnNotFound`; then the right index's own failure; then reading left row 0, which fails when a left column is empty |
| InnerJoin.InnerJoinErrorAt | src/methods/inner_join.rs:11-29 | once both key columns exist and left row 0 has key k, the call fails exactly when k is in the right index and some left column is empty |
| InnerJoin.RowZero | src/methods/inner_join.rs:20-23 | the row map of every left column's text at row 0; fails exactly when a left column is empty |
| InnerJoin.PushEach | src/methods/inner_join.rs:18-26 | pushing into the table without columns leaves it without columns, and fails only on an empty left column |
| InnerJoin.InnerJoin | src/methods/inner_join.rs:11-29 | on any tables, fails exactly on `InnerJoinError`, with its error; otherwise a fresh table without columns |
| InnerJoin.KeysMeetMatch | src/methods/inner_join.rs:11-29 | rows that meet on the key are a match of the join on that column |
| InnerJoin.SingleKey | src/methods/inner_join.rs:15 | with one key column, a row's key tuple is that column's text alone |
| InnerJoin.InnerJoinDropsMatch | src/methods/inner_join.rs:11-29 | rows meeting on the key are matched, yet `inner_join` succeeds, and so returns no columns |
| InnerJoin.InnerJoinIntended | src/methods/inner_join.rs:11-29 | a missing key column fails with `ColumnNotFound`; otherwise the join on the one key column |
| InnerJoin.InnerJoinIntendedKeepsMatch | src/methods/inner_join.rs:11-29 | where rows meet on the key, the intended join has a row |
| Pivot.HeaderNameInjective | src/methods/pivot.rs:100 | different column keys give different value-column names |
| Pivot.HeaderNameNotRowKey | src/methods/pivot.rs:143 | no value column is named "row_key" |
| Pivot.Headers | src/methods/pivot.rs:98-102 | the value-column name of each column key, in order |
| Pivot.MakeKey | src/methods/pivot.rs:57-63 | the texts of the given columns at a row, joined with a bar |
| Pivot.GroupKeys | src/methods/pivot.rs:68-71 | the (row key, column key) of every row |
| Pivot.RowKeys | src/methods/pivot.rs:68-71 | the key loop computes `GroupKeys` |
| Pivot.Requested | src/methods/pivot.rs:92-102 | a text column per row group, then a float column per column key |
| Pivot.RequestedParts | src/methods/pivot.rs:92-102 | the requested columns are the text schema, then the float schema |
| Pivot.AddColumnsConcat | src/methods/pivot.rs:92-102 | the two header loops compose: adding two runs is adding the first, then the second onto its result |
| Pivot.AddColumnsStopsAtError | src/methods/pivot.rs:92-102 | once a prefix of the columns is refused, the whole run is refused the same way |
| Pivot.AddStringColumns | src/methods/pivot.rs:92-95 | the loop adds a text column per row group; it passes exactly when the whole run of `add_column` does, and otherwise stops with the first refusal |
| Pivot.AddFloatColumns | src/methods/pivot.rs:98-102 | the loop adds a float column per value-column name; it passes exactly when the whole run of `add_column` does, and otherwise stops with the first refusal |
| Pivot.AddPivotColumns | src/methods/pivot.rs:89-102 | the header loops pass exactly when `PivotSchema` succeeds, leaving its columns; a refused name is the failure |
| Pivot.InsertAll | src/methods/pivot.rs:124-126 | the insert loop computes `Inserts` |
| Pivot.InsertsAt | src/methods/pivot.rs:124-126 | with distinct keys, each key ends up with its own value |
| Pivot.InsertsOther | src/methods/pivot.rs:124-126 | a key not inserted keeps what it had |
| Pivot.CellResultList | src/methods/pivot.rs:129-141 | each cell's aggregate, in column-key order |
| Pivot.AggregateRows | src/methods/pivot.rs:155-168 | `aggregate_rows` is `aggregate` on one group |
| Pivot.AggregateCells | src/methods/pivot.rs:129-141 | the column-key loop computes `CellResults` |
| Pivot.CellResultsOk | src/methods/pivot.rs:129-141 | a row's aggregates succeed exactly when each cell's does, and are those cells' values |
| Pivot.FloatTexts | src/methods/pivot.rs:140 | the printed aggregates |
| Pivot.BuildRowValues | src/methods/pivot.rs:121-143 | the row-map loops compute `RowValues` |
| Pivot.RowValuesGroup | src/methods/pivot.rs:124-143 | without clashing names, each row group's entry is its piece of the key |
| Pivot.RowValuesHeader | src/methods/pivot.rs:129-141 | each value column's entry is its printed aggregate |
| Pivot.RowValuesFit | src/methods/pivot.rs:121-143 | without clashing names, the row map fits the schema |
| Pivot.PivotCells | src/methods/pivot.rs:121-148 | an output row's cells: the row-group texts, then the aggregates, fitting the requested columns |
| Pivot.CellParses | src/methods/pivot.rs:140-148 | each requested column finds its text in a fitting row map, and parses it to the row's cell |
| Pivot.PivotRowStep | src/methods/pivot.rs:148 | pushing a fitting row map tabulates that row's cells |
| Pivot.PivotRowsStopsAtError | src/methods/pivot.rs:109-149 | once a row fails, the whole push fails the same way |
| Pivot.PivotRowsOk | src/methods/pivot.rs:109-149 | pushing the rows fails exactly when some row's aggregates fail |
| Pivot.PivotRowsClean | src/methods/pivot.rs:109-149 | without clashing names, pushing the rows tabulates each row key's cells |
| Pivot.PushPivotRows | src/methods/pivot.rs:109-149 | the row loop computes `PivotRows` and passes exactly when it does |
| Pivot.PivotOf | src/methods/pivot.rs:43-152 | a missing value, row-group or column-group column fails with `ColumnNotFound`, in that order; then a grouping column shorter than `len` fails with `RowOutOfRange` of its first missing row |
| Pivot.Pivot | src/methods/pivot.rs:43-152 | on any table, succeeds exactly when `PivotOf` does, with a fresh table of its columns; a failure is `PivotOf`'s |
| Pivot.GroupAndPush | src/methods/pivot.rs:66-149 | the grouping, header and row loops build `PivotGrouped`, and fail exactly where it fails |
| Pivot.PivotGroupedSteps | src/methods/pivot.rs:89-107 | after the grouping, a refused header name is the result; otherwise the row fold over the sorted row keys onto the schema |
| Pivot.CountCells | src/methods/pivot.rs:157 | counting never fails; each cell is its group's size, or 0 |
| Pivot.SumNumericCells | src/methods/pivot.rs:158-166 | summing a numeric column never fails on existing rows |
| Pivot.SortedDistinct | src/methods/pivot.rs:83-84 | sorted keys are distinct |
| Pivot.HeadersDistinct | src/methods/pivot.rs:98-102 | distinct column keys give distinct value-column names |
| Pivot.RequestedNames | src/methods/pivot.rs:92-102 | the requested names are the row groups, then the value-column names, distinct when clean |
| Pivot.PivotSchemaClean | src/methods/pivot.rs:89-102 | without clashing names the schema is exactly the requested columns |
| Pivot.PivotSchemaOutcome | src/methods/pivot.rs:89-102 | the schema is the requested columns exactly when their names all differ; otherwise `add_column` fails with `DuplicateColumn` of the first name repeating an earlier one |
| Pivot.CleanDistinct | src/methods/pivot.rs:92-102 | with distinct column keys, the row groups are distinct and no value-column name is a row group exactly when all requested names differ |
| Pivot.ColKeys | src/methods/pivot.rs:76-84 | the column keys, ascending: exactly those some row has |
| Pivot.RowKeyList | src/methods/pivot.rs:106-107 | the row keys, ascending: exactly those some row has |
| Pivot.RowKeySplits | src/methods/pivot.rs:113 | a row key splits into at least as many pieces as there are row groups |
| Pivot.GroupTexts | src/methods/pivot.rs:57-63 | the texts of the row-group columns at a row |
| Pivot.RowKeyPieces | src/methods/pivot.rs:113-126 | a row key is some row's row-group texts joined; without bars in them, the pieces are those texts |
| Pivot.CellMeaning | src/methods/pivot.rs:129-136 | a value cell aggregates exactly the rows with that row key and column key, ascending, or is 0 |
| Pivot.PivotOfFound | src/methods/pivot.rs:66-149 | once the lookups succeed, a refused header name is the result; otherwise `pivot` pushes a row per sorted row key onto the schema |
| Pivot.RowKeysSplit | src/methods/pivot.rs:106-113 | every sorted row key is in the groups and splits into enough pieces |
| Pivot.PivotClean | src/methods/pivot.rs:43-152 | once the lookups succeed and the output names all differ, `pivot` succeeds exactly when every cell's aggregate does; a success has distinct names and holds the row-group text columns and one float column per column key ascending, with one row per row key ascending |
| Pivot.OutputNames | src/methods/pivot.rs:92-102 | the names `pivot` adds: the row groups, then a header per sorted column key |
| Pivot.PivotClash | src/methods/pivot.rs:92-102 | once the lookups succeed, `pivot` fails with `DuplicateColumn` exactly when the output names do not all differ, naming the first one that repeats an earlier one |
| Pivot.PivotNames | src/methods/pivot.rs:89-102 | a successful `pivot` names its columns as requested |
| Pivot.CellResultsErrorKind | src/methods/pivot.rs:129-141 | a row of aggregates fails only on a missing row or a text that is not a float literal |
| Pivot.PivotRowsErrorKind | src/methods/pivot.rs:109-149 | the row loop fails only on a missing row or a text that is not a float literal, never on a name |
| Pivot.SumNumericPivotOk | src/methods/pivot.rs:155-166 | summing a numeric value column that has every row below `len` never fails, in any cell |
| Pivot.NestedRowsBelow | src/methods/pivot.rs:66-73 | every row in a group is a row of the table |
| Pivot.PivotCell | src/methods/pivot.rs:109-149 | in a successful `pivot`, a row-group cell of row t holds that group's piece of the t-th row key; a value cell holds the aggregate over the rows with the t-th row key and that column key, or 0 when none has both |
| Pivot.BodyCell | src/methods/pivot.rs:121-148 | the same, for the cells tabulated from the groups |
| PivotExample.SalesTableShape | src/main.rs:10-43 | the sample table holds the four rows: region North, North, South, South; product A, A, B, B; sales 10, 20, 5, 10 |
| PivotExample.SalesKeys | src/main.rs:46-52 | the sample table's (row key, column key) pairs are (North, A), (North, A), (South, B), (South, B) |
| PivotExample.SalesColKeys | src/methods/pivot.rs:76-84 | the sample's column keys are A then B |
| PivotExample.SalesRowKeys | src/methods/pivot.rs:106-107 | the sample's row keys are North then South |
| PivotExample.SalesNames | src/methods/pivot.rs:92-102 | the sample's output names region, A_Sum and B_Sum all differ |
| PivotExample.SalesPositions | src/methods/pivot.rs:66-73 | North and A hold rows 0 and 1; South and B rows 2 and 3 |
| PivotExample.SalesSums | src/methods/aggregation.rs:23-31 | the sales of rows 0 and 1 sum to 30, those of rows 2 and 3 to 15 |
| PivotExample.SalesPivotCells | src/methods/pivot.rs:43-152 | on a table with the sample's keys and sums, `pivot` by region and product with Sum gives columns region, A_Sum, B_Sum; North (30, 0) then South (0, 15) |
| PivotExample.SamplePivot | src/main.rs:10-52 | the sample `pivot` succeeds with columns region, A_Sum and B_Sum and two rows: North with A_Sum 30 and B_Sum 0, then South with A_Sum 0 and B_Sum 15 |

## Left out

- `impl Debug for Table` (src/table.rs:86-124) is output formatting only.
- `ColumnTrait::get_type` and `ColumnType` are left out. Only the text column defines `get_type`, and no operation reads it.
- src/main.rs: the printing and the second sample (a join with a product table, lines 60-91) are not modelled. The first sample's pivot is modelled in `PivotExample`, where the table is built by tabulating the rows' parsed cells rather than by `push_row`.
- f64 is modelled as exact decimals. Binary rounding, exponent notation, `inf`, `NaN`, `-0.0` and literals such as `1e3` are not modelled. `Floats.Add` is exact, and `Floats.ParseFloat` accepts only `[+-]?(digits(.digits?)? | .digits)`: an optional sign, then digits with at most one point and at least one digit, so ".5", "1." and "-.5" are accepted.
- Floats.Add: does not model f64 rounding, because values are exact decimals.
- Hash-map and hash-set iteration orders are not modelled.
  - The order in which `aggregate` visits its groups is arbitrary.
  - `join`'s output column order is arbitrary.
  - The order of the collected column-key set is arbitrary.
  - Each contract holds for every order.
  - `aggregate` fails with some failing group's error, not a particular one.
- Reads past the end of a column are a panic in the source. For `create_index`, `create_multi_index`, `group_by`, `inner_join` and `pivot` the model makes each such read a `RowOutOfRange` error, on any table. The indexed columns of `create_index`, `create_multi_index` and `group_by`, and the grouping columns of `pivot`, are read at every row below `len` before anything else, so a shorter one fails there. Every other read fails where it happens: `pivot` reads its value column only at grouped rows, during aggregation after the header loops, and never under Count (`Aggregation.AddRow`); `inner_join` reads left columns only at row 0, and non-key ones only on a match (`InnerJoin.InnerJoinError`).
- Join.Join: requires every column of either table to have a row at each position below that table's `len` (`Joinable`); later columns may be longer (`Join.JoinLaterLongerColumn`). Tables with a column shorter than `len` are excluded, even where no read reaches the missing rows, such as a short non-key column that no matched row reads. On those tables the source panics only where a read reaches a missing row: a left key column at that row, a right key column while indexing, or another column while a matched row is built, part-way through the output.
- Panic messages are not modelled. Each panic is an `Err` of the kind of failure.
- Tables.Table.PushRowStr: a parse failure part-way leaves the earlier columns grown, as in the source, where the panic unwinds past them.
- `push_row` (src/methods/join.rs:52, src/methods/pivot.rs:148) is not defined in any file of the repository; it is modelled as `push_row_str`.
- `create_multi_index` (src/methods/join.rs:17) is not defined in any file of the repository; it is modelled as `create_index` keyed by the tuple of key-column texts (`Tables.Table.CreateMultiIndex`).
- Pivot.PivotOf: the row groups are bucketed in one pass (`KeyIndexes.BuildNested`), and the column keys are collected afterwards, as in the source.
- Pivot.PushPivotRows: ignores the outcome of `push_row` inside the row loop, as the source does.
- Pivot.RowKeyPieces: the row-group cells equal the row's texts only when no text holds a `|`. `CompositeKeys.JoinKeyCollision` shows why.
- The extra "row_key" entry of each pivot row map is ignored by `push_row_str` unless a row group is named "row_key". That case is modelled in `Pivot.RowGroupText`.

## Findings

| source | as written | input that shows it | evidently intended | confidence | as-written member | corrected member |
|---|---|---|---|---|---|---|
| src/methods/inner_join.rs:15-24 | only left row 0's key is looked up, each match pushes left row 0's texts, and rows go into `Table::new()`, which has no columns, so every result has no columns | left and right each have one column "id" holding one row "1" | `join` on the one key column, one output row per matching pair | not executed | InnerJoin.InnerJoinDropsMatch | InnerJoin.InnerJoinIntendedKeepsMatch |
