/** The column type codes of schema/ColumnTypes.php. */
module ColumnTypes {

  const INTEGER: int := 0
  const SMALLINT: int := 1
  const DECIMAL: int := 2
  const FLOAT: int := 3
  const BIT: int := 4
  const CHARACTER: int := 5
  const VARCHAR: int := 6
  const TEXT: int := 7
  const DATE: int := 8
  const TIME: int := 9
  const TIMESTAMP: int := 10
  const BOOLEAN: int := 11

  /** The twelve codes in declaration order. */
  const Codes: seq<int> := [INTEGER, SMALLINT, DECIMAL, FLOAT, BIT, CHARACTER, VARCHAR, TEXT, DATE, TIME, TIMESTAMP, BOOLEAN]

  /** The codes are the integers 0 through 11, so no two types share a code. */
  lemma CodesAreDistinctIndexes()
    ensures |Codes| == 12
    ensures forall i :: 0 <= i < |Codes| ==> Codes[i] == i
    ensures forall i, j :: 0 <= i < j < |Codes| ==> Codes[i] != Codes[j]
  {
  }
}
