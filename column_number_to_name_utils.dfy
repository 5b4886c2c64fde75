/** The JavaScript column-name encoder: the same do-while loop, written over the
    `columnNumber` parameter itself, which the loop decrements and divides. */
module UtilsColumnNumberToName {
  import opened ColumnCodec

  /** Dafny parameters cannot be assigned, so the parameter the loop updates is the local
      `remaining`, initialised to the argument. */
  method ColumnNumberToName(columnNumber: int) returns (columnName: string)
    requires columnNumber >= 1
    ensures columnName == Name(columnNumber)
    ensures IsColumnName(columnName)
  {
    var remaining := columnNumber;
    columnName := "";
    while true
      invariant remaining >= 1
      invariant Name(remaining) + columnName == Name(columnNumber)
      decreases remaining
    {
      remaining := remaining - 1;
      columnName := [Letter(remaining % ColumnNumberZ)] + columnName;
      remaining := remaining / 26;
      if remaining <= 0 {
        break;
      }
    }
  }
}
