/** Tables, their columns, and the cells a row holds. */
module Schema {

  /** `Auto` is a key the database always fills, `Defaulted` a column with a database default. */
  datatype Kind = Auto | Defaulted | Plain

  datatype Type = TextType | BoolType | Int64Type | TimestampType

  /** `limit` is the longest text a `character varying` column takes; 0 for every other column. */
  datatype Column = Column(name: string, kind: Kind, type_: Type, notNull: bool, limit: nat)

  datatype Table = Table(name: string, columns: seq<Column>)

  datatype Cell =
    | TextCell(text: string)
    | BoolCell(flag: bool)
    | IntCell(number: int)
    | TimestampCell(micros: int)

  predicate IsInt64(n: int) {
    -0x8000_0000_0000_0000 <= n < 0x8000_0000_0000_0000
  }

  predicate HasType(cell: Cell, t: Type) {
    match t
    case TextType => cell.TextCell?
    case BoolType => cell.BoolCell?
    case Int64Type => cell.IntCell? && IsInt64(cell.number)
    case TimestampType => cell.TimestampCell?
  }

  predicate DistinctNames(columns: seq<Column>) {
    forall i, j :: 0 <= i < j < |columns| ==> columns[i].name != columns[j].name
  }
}
