/** Typed logical values, records and the result type shared by the engine passes. */
module Records {
  import opened Wrappers

  datatype ErrorCode =
    | NumericValueUnsupported | NumericMappingMissing
    | TextDomainMissing | TextMappingMissing
    | MemoUnsupported
    | TemporalOffsetMissing | TemporalOutOfRange | TemporalUnsupported
    | RelationMemberUnsupported
    | LedgerIncomplete | MappingMissing | MappingInvalid | RecoveryRowMissing
    | VaultUnreadable | StagedInvalid | RecordCountMismatch

  type Fallible<T> = Result<T, ErrorCode>

  /** One decoded field value: the vocabulary of the reader; `Opaque` stands for the
      remaining types, carried by their rendering. */
  datatype Value =
    | Null
    | Text(s: string)
    | Int(n: int)
    | Bool(b: bool)
    | Bytes(data: seq<int>)
    | Date(ordinal: int)
    | DateTime(ordinal: int, timeOfDay: int)
    | NaN                       // a floating-point value unequal to itself
    | Opaque(repr: string)

  type Values = map<string, Value>

  /** dict.get: a missing field reads as NULL. */
  function Get(values: Values, name: string): Value {
    if name in values then values[name] else Null
  }

  /** Equality of the host language: True and 1 compare equal, NaN is unequal to itself. */
  predicate SameValue(a: Value, b: Value) {
    (a == b && a != NaN) || (Numeric(a).Some? && Numeric(a) == Numeric(b))
  }

  function Numeric(v: Value): Option<int> {
    match v
    case Int(n) => Some(n)
    case Bool(b) => Some(if b then 1 else 0)
    case _ => None
  }

  /** One streamed record. */
  datatype Record = Record(physicalIndex: nat, deleted: bool, values: Values)

  datatype SchemaField = SchemaField(name: string, dbfType: string)

  /** Type-0 columns are writer-owned system state. */
  predicate IsSystem(field: SchemaField) {
    field.dbfType == "0"
  }

  function SystemNames(schema: seq<SchemaField>): set<string> {
    set i | 0 <= i < |schema| && IsSystem(schema[i]) :: schema[i].name
  }

  /** The names of the application fields. */
  function ApplicationNames(schema: seq<SchemaField>): set<string> {
    set i | 0 <= i < |schema| && !IsSystem(schema[i]) :: schema[i].name
  }

  /** A table read with deleted records included: positions are physical indices. */
  ghost predicate Positional(records: seq<Record>) {
    forall i :: 0 <= i < |records| ==> records[i].physicalIndex == i
  }

  /** Two values of a record agree on every application field. */
  ghost predicate AgreeOn(names: set<string>, a: Values, b: Values) {
    forall name :: name in names ==> Get(a, name) == Get(b, name)
  }

  /** What a fresh table reads back as: the written records in order with their deletion
      markers and application values; the writer owns the system columns. */
  ghost predicate ReadsBack(written: seq<Record>, table: seq<Record>, schema: seq<SchemaField>) {
    && |table| == |written| && Positional(table)
    && forall i :: 0 <= i < |written| ==>
         table[i].deleted == written[i].deleted &&
         AgreeOn(ApplicationNames(schema), table[i].values, written[i].values)
  }
}
