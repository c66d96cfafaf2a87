/** Typed values, rows and table schemas. */
module Values {
  import opened Keys

  datatype Option<+T> = None | Some(value: T)

  datatype DataType = INT | DECIMAL | VARCHAR | DATETIME

  // A DECIMAL is the 64-bit pattern of an IEEE double (not a NaN).
  datatype Value = Int(i: int) | Decimal(bits: nat) | Varchar(s: string) | Datetime(t: int)

  type Row = seq<Value>

  function TypeOf(v: Value): DataType {
    match v
    case Int(_) => INT
    case Decimal(_) => DECIMAL
    case Varchar(_) => VARCHAR
    case Datetime(_) => DATETIME
  }

  const SIGN: nat := 0x8000_0000_0000_0000

  // Doubles compare as their bit patterns read as sign and magnitude; the two zeros are equal.
  function Rank(bits: nat): int {
    if bits < SIGN then bits else SIGN - bits
  }

  // What common.h's comparison operators look at.
  function KeyOf(v: Value): Key {
    match v
    case Int(i) => Num(i)
    case Decimal(bits) => Num(Rank(bits))
    case Varchar(s) => Str(s)
    case Datetime(t) => Num(t)
  }

  // common.h: operator== is false across types; the orderings are used within one type only.
  predicate ValueEq(a: Value, b: Value) {
    TypeOf(a) == TypeOf(b) && KeyOf(a) == KeyOf(b)
  }

  predicate Compare(op: CmpOp, a: Value, b: Value) {
    match op
    case EQ => ValueEq(a, b)
    case NE => !ValueEq(a, b)
    case _ => Satisfies(op, KeyOf(a), KeyOf(b))
  }

  // Within one type, the value operators are the key operators.
  lemma CompareIsSatisfies(op: CmpOp, a: Value, b: Value)
    requires TypeOf(a) == TypeOf(b)
    ensures Compare(op, a, b) <==> Satisfies(op, KeyOf(a), KeyOf(b))
  {
  }

  // ---- Machine ranges ----

  predicate Narrow(s: string) { forall i :: 0 <= i < |s| ==> s[i] as int < 256 }

  predicate Bounded(v: Value) {
    match v
    case Int(i) => -0x8000_0000 <= i < 0x8000_0000
    case Decimal(bits) => bits < 0x1_0000_0000_0000_0000
    case Varchar(s) => Narrow(s)
    case Datetime(t) => -0x8000_0000_0000_0000 <= t < 0x8000_0000_0000_0000
  }

  // ---- Schemas ----

  datatype Column = Column(name: string, kind: DataType, maxLen: nat)

  type Schema = seq<Column>

  // A table as its users see it: the columns and the rows in insertion order.
  datatype Table = Table(columns: Schema, rows: seq<Row>)

  type Db = map<string, Table>

  // common.h storage_size
  function StorageSize(c: Column): nat {
    match c.kind
    case INT => 4
    case DECIMAL => 8
    case VARCHAR => 2 + c.maxLen
    case DATETIME => 8
  }

  // schema.cpp add_column: a length only for VARCHAR.
  function AddColumn(columns: Schema, name: string, kind: DataType, maxLen: nat): Schema {
    columns + [Column(name, kind, if kind == VARCHAR then maxLen else 0)]
  }

  // schema.cpp find_column: a later column of the same name hides an earlier one.
  function FindColumn(columns: Schema, name: string): (idx: int)
    ensures -1 <= idx < |columns|
    ensures idx >= 0 ==> columns[idx].name == name && forall j :: idx < j < |columns| ==> columns[j].name != name
    ensures idx == -1 ==> forall j :: 0 <= j < |columns| ==> columns[j].name != name
  {
    if columns == [] then -1
    else if columns[|columns| - 1].name == name then |columns| - 1
    else FindColumn(columns[..|columns| - 1], name)
  }

  predicate FieldOk(c: Column, v: Value) {
    TypeOf(v) == c.kind && (v.Varchar? ==> |v.s| <= c.maxLen)
  }

  // schema.cpp validate_row
  predicate ValidRow(columns: Schema, row: Row) {
    |row| == |columns| && forall i :: 0 <= i < |row| ==> FieldOk(columns[i], row[i])
  }

  // What the 16-bit length field of a column can hold.
  predicate ValidSchema(columns: Schema) {
    |columns| > 0 && forall i :: 0 <= i < |columns| ==>
      columns[i].maxLen < 0x1_0000 && (columns[i].kind != VARCHAR ==> columns[i].maxLen == 0)
  }
}
