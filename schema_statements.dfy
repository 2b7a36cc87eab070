/** `BigQueryAdapter::SchemaStatements`: the schema queries the adapter answers, over the driver it holds. */
module SchemaStatements {
  import opened Wrappers
  import opened RubyCore
  import opened DatabaseStatements
  import Driver

  /** `SqlTypeMetadata`, as `columns` fills it. */
  datatype SqlTypeMetadata = SqlTypeMetadata(
    sqlType: Option<Symbol>, typ: Option<Symbol>, limit: Option<int>, scale: Option<int>, precision: Option<int>)

  /** `ActiveRecord::ConnectionAdapters::Column`: name, default, type metadata, nullability and table. */
  datatype Column = Column(name: string, default: Option<string>, metadata: SqlTypeMetadata, nullable: bool, tableName: string)

  /** Reading the inverted type table yields exactly the key whose native name it was given. */
  lemma InvertedLookupIsKey(v: NativeType)
    ensures forall k :: HashInvertGet(NativeDatabaseTypesTable(), v) == Some(k) <==> HashGet(NativeDatabaseTypesTable(), k) == Some(v)
  {
    forall k ensures HashInvertGet(NativeDatabaseTypesTable(), v) == Some(k) <==> HashGet(NativeDatabaseTypesTable(), k) == Some(v) {
      NativeTypeRoundTrip(k, v);
    }
  }

  /** The column `columns` builds for one schema field; `ColumnTypeOf` says what its SQL type is. */
  function ColumnOf(field: Driver.Field, tableName: string): (c: Column)
    ensures c.name == field.name && c.tableName == tableName
    ensures c.nullable <==> field.mode == "NULLABLE"
    ensures c.metadata.typ == c.metadata.sqlType
    ensures c.default.None? && c.metadata.limit.None? && c.metadata.scale.None? && c.metadata.precision.None?
  {
    var sqlType := HashInvertGet(NativeDatabaseTypesTable(), NativeType(field.fieldType));
    Column(field.name, None, SqlTypeMetadata(sqlType, sqlType, None, None, None), field.mode == "NULLABLE", tableName)
  }

  /** A column's SQL type is the one key whose native name is the field's type, and nil when no entry has that name. */
  lemma ColumnTypeOf(field: Driver.Field, tableName: string)
    ensures var t := ColumnOf(field, tableName).metadata.sqlType;
      forall k :: t == Some(k) <==> HashGet(NativeDatabaseTypesTable(), k) == Some(NativeType(field.fieldType))
    ensures ColumnOf(field, tableName).metadata.sqlType.None? <==>
      forall i :: 0 <= i < |NativeDatabaseTypesTable()| ==> NativeDatabaseTypesTable()[i].1.name != field.fieldType
  {
    InvertedLookupIsKey(NativeType(field.fieldType));
  }

  /** The `each_with_object` loop of `columns`: one column per field, same order. */
  method ColumnsOfFields(fields: seq<Driver.Field>, tableName: string) returns (cols: seq<Column>)
    ensures |cols| == |fields|
    ensures forall i :: 0 <= i < |fields| ==> cols[i] == ColumnOf(fields[i], tableName)
  {
    cols := [];
    var i := 0;
    while i < |fields|
      invariant 0 <= i <= |fields|
      invariant |cols| == i
      invariant forall j :: 0 <= j < i ==> cols[j] == ColumnOf(fields[j], tableName)
    {
      cols := cols + [ColumnOf(fields[i], tableName)];
      i := i + 1;
    }
  }

  /** `columns`: one column per field of the table's schema, in order; the driver's errors pass through. */
  method Columns(conn: Driver.Connection, w: Driver.Warehouse, tableName: string)
    returns (r: Result<seq<Column>, Driver.DriverError>)
    ensures conn.Columns(w, tableName).Failure? ==> r == Failure(conn.Columns(w, tableName).error)
    ensures conn.Columns(w, tableName).Success? ==>
      var fields := conn.Columns(w, tableName).value;
      r.Success? && |r.value| == |fields| &&
      forall i :: 0 <= i < |fields| ==> r.value[i] == ColumnOf(fields[i], tableName)
  {
    var result := conn.Columns(w, tableName);
    match result
    case Failure(e) =>
      r := Failure(e);
    case Success(fields) =>
      var cols := ColumnsOfFields(fields, tableName);
      r := Success(cols);
  }

  /** A `REQUIRED INTEGER` field `id` becomes a non-null `:integer` column. */
  lemma ColumnOfExample(tableName: string)
    ensures var c := ColumnOf(Driver.Field("id", "INTEGER", "REQUIRED"), tableName);
      c.name == "id" && c.metadata.sqlType == Some(Symbol("integer")) && !c.nullable
  {
    HashGetOfEntry(NativeDatabaseTypesTable(), 1);
    ColumnTypeOf(Driver.Field("id", "INTEGER", "REQUIRED"), tableName);
  }

  /** A native type outside the table gives a nil type; a `NULLABLE` field a nullable column. */
  lemma ColumnOfUnknownTypeExample(tableName: string)
    ensures var c := ColumnOf(Driver.Field("amount", "NUMERIC", "NULLABLE"), tableName);
      c.metadata.sqlType == None && c.metadata.typ == None && c.nullable
  {
    assert "NUMERIC" !in NativeNames;
    ColumnTypeOf(Driver.Field("amount", "NUMERIC", "NULLABLE"), tableName);
  }

  /** `tables`: the driver's table names, unchanged. */
  function Tables(conn: Driver.Connection, w: Driver.Warehouse): (names: seq<string>)
    ensures names == conn.Tables(w)
    ensures NoDuplicates(names)
  {
    conn.Tables(w)
  }

  /** `views`. */
  function Views(): (r: seq<string>)
    ensures |r| == 0
  {
    []
  }

  /** `indexes`, whatever the table and name. */
  function Indexes(tableName: string, name: Option<string>): (r: seq<string>)
    ensures |r| == 0
  {
    []
  }

  /** `primary_key`, whatever the table. */
  function PrimaryKey(tableName: string): (r: seq<string>)
    ensures |r| == 0
  {
    []
  }

  /** `foreign_keys`, whatever the table. */
  function ForeignKeys(tableName: string): (r: seq<string>)
    ensures |r| == 0
  {
    []
  }
}
