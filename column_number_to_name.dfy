/** The TypeScript column-name encoder: a do-while loop over a local copy `num` of the
    column number, prepending one letter per round. */
module ColumnNumberToName {
  import opened ColumnCodec

  /** The do-while loop is a `while true` whose test comes after the body. `num` stays
      non-negative, so JavaScript's `%` and `Math.floor(num / 26)` agree with Dafny's
      Euclidean `%` and `/`. */
  method ColumnNumberToName(columnNumber: int) returns (columnName: string)
    requires columnNumber >= 1
    ensures columnName == Name(columnNumber)
    ensures IsColumnName(columnName)
  {
    columnName := "";
    var num := columnNumber;
    while true
      invariant num >= 1
      invariant Name(num) + columnName == Name(columnNumber)
      decreases num
    {
      num := num - 1;
      columnName := [Letter(num % ColumnNumberZ)] + columnName;
      num := num / 26;
      if num <= 0 {
        break;
      }
    }
  }
}
