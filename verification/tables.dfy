/** The part of a polars `DataFrame` the viewer looks at: the number of rows
    and, per column, its name and its data type. Cell values are never
    inspected by the state logic, and the grid only asks for row indices. */
module Tables {

  /** A polars `DataType` as the grid sees it: the text its `Display`
      implementation prints (e.g. "i64", "str") and whether
      `DataType::is_numeric` holds of it. Both are decided by polars. */
  datatype DataType = DataType(display: string, numeric: bool)

  predicate IsNumeric(t: DataType) {
    t.numeric
  }

  datatype Column = Column(name: string, dtype: DataType)

  /** A loaded table: every column has `height` cells, in column order. */
  datatype DataFrame = DataFrame(height: nat, columns: seq<Column>)

  /** `DataFrame::width`: the number of columns. */
  function Width(df: DataFrame): nat {
    |df.columns|
  }

  /** `DataFrame::get_column_names`, in column order. */
  function ColumnNames(df: DataFrame): seq<string> {
    seq(|df.columns|, i requires 0 <= i < |df.columns| => df.columns[i].name)
  }

  /** `schema().iter_dtypes()`, in column order. */
  function ColumnTypes(df: DataFrame): seq<DataType> {
    seq(|df.columns|, i requires 0 <= i < |df.columns| => df.columns[i].dtype)
  }
}
