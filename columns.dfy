/**
 * A table column of the schema builder (schema/Column.php): a mutable
 * record whose `length` can be changed after creation.
 */
module Columns {
  import opened Wrappers
  import opened Decimal
  import ColumnTypes

  /** The fields of a Column at one moment. */
  datatype ColumnDef = ColumnDef(name: string, typeName: Option<string>, length: int, properties: seq<string>, isPrimary: bool, isNew: bool)

  /**
   * The `?string $type` parameter receives the int codes of ColumnTypes;
   * without strict types PHP passes their decimal string.
   */
  function TypeName(code: int): (r: Option<string>)
    ensures r.Some? && IsCanonicalInt(r.value) && ParseInt(r.value) == code
  {
    IntToStringRoundTrip(code);
    Some(IntToString(code))
  }

  /** Different codes give different type strings, so the coercion loses nothing. */
  lemma TypeNameInjective(a: int, b: int)
    ensures TypeName(a) == TypeName(b) <==> a == b
  {
  }

  lemma TypeNamesOfSchema()
    ensures TypeName(ColumnTypes.INTEGER) == Some("0")
    ensures TypeName(ColumnTypes.VARCHAR) == Some("6")
  {
    assert NatToString(0) == [DigitChar(0)] && NatToString(6) == [DigitChar(6)];
  }

  class Column {
    var name: string
    var typeName: Option<string>
    var length: int
    var properties: seq<string>
    var isPrimary: bool
    var isNew: bool

    function Def(): ColumnDef
      reads this
    {
      ColumnDef(name, typeName, length, properties, isPrimary, isNew)
    }

    /** Every argument is stored unchanged; length -1 stands for "unset". */
    constructor(name: string, typeName: Option<string>, length: int := -1, properties: seq<string> := [], isPrimary: bool := false, isNew: bool := true)
      ensures Def() == ColumnDef(name, typeName, length, properties, isPrimary, isNew)
    {
      this.name := name;
      this.typeName := typeName;
      this.length := length;
      this.properties := properties;
      this.isPrimary := isPrimary;
      this.isNew := isNew;
    }

    /** `length(x)`: only the length changes, and the same column is returned. */
    method Length(length: int) returns (c: Column)
      modifies this
      ensures c == this && Def() == old(Def()).(length := length)
    {
      this.length := length;
      c := this;
    }
  }

  /** The definitions of a list of columns, read from the objects. */
  function Defs(columns: seq<Column>): (r: seq<ColumnDef>)
    reads set i | 0 <= i < |columns| :: columns[i]
    ensures |r| == |columns| && forall i :: 0 <= i < |columns| ==> r[i] == columns[i].Def()
  {
    if columns == [] then [] else [columns[0].Def()] + Defs(columns[1..])
  }

  /** The two columns of the migrations ledger table. */
  method LedgerColumns() returns (columns: seq<Column>)
    ensures Defs(columns) == [ColumnDef("id", Some("0"), -1, ["AUTO_INCREMENT"], true, true),
                              ColumnDef("name", Some("6"), -1, [], false, true)]
  {
    TypeNamesOfSchema();
    var id := new Column("id", TypeName(ColumnTypes.INTEGER), -1, ["AUTO_INCREMENT"], true);
    var name := new Column("name", TypeName(ColumnTypes.VARCHAR));
    columns := [id, name];
  }
}
