/**
 * The schema snapshot the writer reads: FluentMigrator's model classes
 * (ColumnDefinition, IndexDefinition, ForeignKeyDefinition, TableDefinition) as values,
 * and the parts of the schema reader (IDbSchemaReader) the writer consults.
 */
module Schema {
  import opened Wrappers
  import Seqs

  /** System.Data.DbType. */
  datatype DbType =
    | AnsiString | Binary | Byte | Boolean | Currency | Date | DateTime | Decimal | Double
    | Guid | Int16 | Int32 | Int64 | Object | SByte | Single | String | Time | UInt16
    | UInt32 | UInt64 | VarNumeric | AnsiStringFixedLength | StringFixedLength | Xml
    | DateTime2 | DateTimeOffset

  /** System.Data.Rule, the referential action of a foreign key. */
  datatype Rule = RuleNone | Cascade | SetNull | SetDefault

  /** The name `Rule.ToString()` gives. */
  function RuleName(r: Rule): string
  {
    match r
    case RuleNone => "None"
    case Cascade => "Cascade"
    case SetNull => "SetNull"
    case SetDefault => "SetDefault"
  }

  /** The sort direction of one index column. */
  datatype Direction = Ascending | Descending

  function DirectionName(d: Direction): string
  {
    match d
    case Ascending => "Ascending"
    case Descending => "Descending"
  }

  /**
   * One column. `dbType` is `None` for a type the reader could not map (then `customType`
   * holds the raw type name); `isNullable` is the tri-state `bool?`; `defaultValue` holds the
   * text `DefaultValue.ToString()` gives, or `None` for a null default.
   */
  datatype ColumnDefinition = ColumnDefinition(
    name: string,
    dbType: Option<DbType>,
    size: int,
    precision: int,
    customType: string,
    isNullable: Option<bool>,
    isIdentity: bool,
    isPrimaryKey: bool,
    primaryKeyName: string,
    isUnique: bool,
    isIndexed: bool,
    indexName: string,
    defaultValue: Option<string>)

  datatype IndexColumnDefinition = IndexColumnDefinition(name: string, direction: Direction)

  datatype IndexDefinition = IndexDefinition(
    name: string,
    tableName: string,
    isUnique: bool,
    isClustered: bool,
    columns: seq<IndexColumnDefinition>)

  /** A foreign key: owned by `foreignTable`, referring to `primaryTable`. */
  datatype ForeignKeyDefinition = ForeignKeyDefinition(
    name: string,
    foreignTable: string,
    foreignColumns: seq<string>,
    primaryTable: string,
    primaryTableSchema: string,
    primaryColumns: seq<string>,
    onDelete: Rule,
    onUpdate: Rule)

  datatype TableDefinition = TableDefinition(
    schemaName: string,
    name: string,
    columns: seq<ColumnDefinition>,
    indexes: seq<IndexDefinition>,
    foreignKeys: seq<ForeignKeyDefinition>)

  /**
   * What the writer reads from one IDbSchemaReader: its tables in reader order, the names of
   * its code objects, and `fkDependencyOrder`, the rank map `TableFkDependencyOrder(flag)`
   * returns (computed by the reader, which is not part of this model).
   */
  datatype Snapshot = Snapshot(
    tables: seq<TableDefinition>,
    storedProcedures: seq<string>,
    views: seq<string>,
    userDefinedFunctions: seq<string>,
    userDefinedDataTypes: seq<string>,
    fkDependencyOrder: bool -> map<string, int>)

  function ColumnNames(cols: seq<ColumnDefinition>): (r: seq<string>)
    ensures |r| == |cols| && forall i :: 0 <= i < |cols| ==> r[i] == cols[i].name
  {
    if cols == [] then [] else [cols[0].name] + ColumnNames(cols[1..])
  }

  function IndexNames(ixs: seq<IndexDefinition>): (r: seq<string>)
    ensures |r| == |ixs| && forall i :: 0 <= i < |ixs| ==> r[i] == ixs[i].name
  {
    if ixs == [] then [] else [ixs[0].name] + IndexNames(ixs[1..])
  }

  function ForeignKeyNames(fks: seq<ForeignKeyDefinition>): (r: seq<string>)
    ensures |r| == |fks| && forall i :: 0 <= i < |fks| ==> r[i] == fks[i].name
  {
    if fks == [] then [] else [fks[0].name] + ForeignKeyNames(fks[1..])
  }

  /** `TableNames` of a reader: the names of its tables, in reader order. */
  function TableNames(ts: seq<TableDefinition>): (r: seq<string>)
    ensures |r| == |ts| && forall i :: 0 <= i < |ts| ==> r[i] == ts[i].name
  {
    if ts == [] then [] else [ts[0].name] + TableNames(ts[1..])
  }

  /** The table a name denotes: the first one of that name (the only one, when well-formed). */
  function FindTable(ts: seq<TableDefinition>, name: string): (r: Option<TableDefinition>)
    ensures r.None? <==> name !in TableNames(ts)
    ensures r.Some? ==> r.value in ts && r.value.name == name
  {
    if ts == [] then None
    else if ts[0].name == name then Some(ts[0])
    else FindTable(ts[1..], name)
  }

  /**
   * `GetTables(names)` of a reader: the tables with the given names, in the order of the
   * names; a name without a table contributes nothing.
   */
  function GetTables(ts: seq<TableDefinition>, names: seq<string>): (r: seq<TableDefinition>)
    ensures forall n :: n in names && n in TableNames(ts) ==> exists t :: t in r && t.name == n
  {
    if names == [] then []
    else
      (match FindTable(ts, names[0]) case Some(t) => [t] case None => []) + GetTables(ts, names[1..])
  }

  /** In a table list with unique names, a table is found by its own name. */
  lemma {:induction false} FindTableOwnName(ts: seq<TableDefinition>, i: nat)
    requires i < |ts| && Seqs.Distinct(TableNames(ts))
    ensures FindTable(ts, ts[i].name) == Some(ts[i])
  {
    if i > 0 {
      assert TableNames(ts)[0] != TableNames(ts)[i];
      assert Seqs.Distinct(TableNames(ts[1..])) by {
        var n := TableNames(ts[1..]);
        forall a, b | 0 <= a < b < |n| ensures n[a] != n[b] {
          assert n[a] == TableNames(ts)[a + 1] && n[b] == TableNames(ts)[b + 1];
        }
      }
      FindTableOwnName(ts[1..], i - 1);
    }
  }
}
