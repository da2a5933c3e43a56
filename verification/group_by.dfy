/** `group_by`: the rows of a table bucketed by the text of one column. */
module GroupBy {
  import opened Wrappers
  import opened Columns
  import opened KeyIndexes
  import opened Tables

  /**
   * The same one-pass bucketing as `create_index`: each text of rows
   * 0 .. `len`-1 of the column maps to the rows holding it, in ascending
   * order. A missing column is the `expect` failure; a column shorter than
   * `len` is the read past its end.
   */
  method GroupBy(table: Table, on: string) returns (r: Result<map<string, seq<nat>>>)
    ensures r == IndexOn(table.columns, on)
  {
    var idx := ColumnIndex(table.columns, on);
    if idx.None? {
      return Err(ColumnNotFound(on));
    }
    var col := table.columns[idx.value];
    if col.Len() < RowCount(table.columns) {
      return Err(RowOutOfRange(col.Len()));
    }
    var groups := BuildIndex(col.Texts()[..RowCount(table.columns)]);
    r := Ok(groups);
  }
}
