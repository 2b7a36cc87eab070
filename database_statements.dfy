/** `BigQueryAdapter::DatabaseStatements`: the native type table and the query wrapper mixed into the adapter. */
module DatabaseStatements {
  import opened Wrappers
  import opened RubyCore
  import Driver

  /** A Ruby symbol such as `:integer`. */
  datatype Symbol = Symbol(name: string)

  /** The `{ name: ... }` hash a type maps to. */
  datatype NativeType = NativeType(name: string)

  /** `NATIVE_DATABASE_TYPES`, entries in their literal order. */
  const NativeDatabaseTypes: seq<(Symbol, NativeType)> := [
    (Symbol("boolean"), NativeType("BOOL")),
    (Symbol("integer"), NativeType("INTEGER")),
    (Symbol("float"), NativeType("FLOAT")),
    (Symbol("string"), NativeType("STRING")),
    (Symbol("datetime"), NativeType("DATETIME")),
    (Symbol("date"), NativeType("DATE")),
    (Symbol("timestamp"), NativeType("TIMESTAMP")),
    (Symbol("time"), NativeType("TIME"))
  ]

  /** The abstract types the table knows. */
  const TypeSymbols: set<string> := {"boolean", "integer", "float", "string", "datetime", "date", "timestamp", "time"}

  /** The native names the table maps to. */
  const NativeNames: set<string> := {"BOOL", "INTEGER", "FLOAT", "STRING", "DATETIME", "DATE", "TIMESTAMP", "TIME"}

  /** `native_database_types`: the frozen table, eight entries, keys and native names each pairwise distinct. */
  function NativeDatabaseTypesTable(): (t: seq<(Symbol, NativeType)>)
    ensures |t| == 8
    ensures DistinctKeys(t) && DistinctValues(t)
    ensures forall i :: 0 <= i < |t| ==> t[i].0.name in TypeSymbols && t[i].1.name in NativeNames
  {
    NativeDatabaseTypes
  }

  /** `valid_type?`: the table has an entry for the type, which happens for exactly the eight known types. */
  predicate ValidType(t: Symbol)
    ensures ValidType(t) <==> HashGet(NativeDatabaseTypesTable(), t).Some?
    ensures ValidType(t) <==> t.name in TypeSymbols
  {
    HashGet(NativeDatabaseTypesTable(), t).Some?
  }

  /** Each abstract type and the native name it maps to. */
  lemma NativeTypeExamples()
    ensures HashGet(NativeDatabaseTypesTable(), Symbol("boolean")) == Some(NativeType("BOOL"))
    ensures HashGet(NativeDatabaseTypesTable(), Symbol("integer")) == Some(NativeType("INTEGER"))
    ensures HashGet(NativeDatabaseTypesTable(), Symbol("float")) == Some(NativeType("FLOAT"))
    ensures HashGet(NativeDatabaseTypesTable(), Symbol("string")) == Some(NativeType("STRING"))
    ensures HashGet(NativeDatabaseTypesTable(), Symbol("datetime")) == Some(NativeType("DATETIME"))
    ensures HashGet(NativeDatabaseTypesTable(), Symbol("date")) == Some(NativeType("DATE"))
    ensures HashGet(NativeDatabaseTypesTable(), Symbol("timestamp")) == Some(NativeType("TIMESTAMP"))
    ensures HashGet(NativeDatabaseTypesTable(), Symbol("time")) == Some(NativeType("TIME"))
  {
    var t := NativeDatabaseTypesTable();
    HashGetOfEntry(t, 0);
    HashGetOfEntry(t, 1);
    HashGetOfEntry(t, 2);
    HashGetOfEntry(t, 3);
    HashGetOfEntry(t, 4);
    HashGetOfEntry(t, 5);
    HashGetOfEntry(t, 6);
    HashGetOfEntry(t, 7);
  }

  /** Reading the inverted table: `FLOAT` goes back to `:float`. */
  lemma InvertedTypeExample()
    ensures HashInvertGet(NativeDatabaseTypesTable(), NativeType("FLOAT")) == Some(Symbol("float"))
  {
    HashGetOfEntry(NativeDatabaseTypesTable(), 2);
    NativeTypeRoundTrip(Symbol("float"), NativeType("FLOAT"));
  }

  /** A native name outside the table, such as `NUMERIC`, inverts to nil. */
  lemma UnknownNativeTypeExample()
    ensures HashInvertGet(NativeDatabaseTypesTable(), NativeType("NUMERIC")) == None
  {
    assert "NUMERIC" !in NativeNames;
  }

  /** The native names are distinct, so the inverted table undoes the table, in both directions. */
  lemma NativeTypeRoundTrip(k: Symbol, v: NativeType)
    ensures HashGet(NativeDatabaseTypesTable(), k) == Some(v) <==> HashInvertGet(NativeDatabaseTypesTable(), v) == Some(k)
  {
    HashInvertRoundTrip(NativeDatabaseTypesTable(), k, v);
  }

  /** `ActiveRecord::Result`, as far as `exec_query` fills it. */
  datatype RecordResult = RecordResult(columns: seq<string>, rows: seq<seq<Driver.Value>>)

  /**
   * The block `exec_query` hands to `log`: runs the statement on the driver
   * and wraps its columns and rows unchanged; what the driver raises escapes
   * to `log`, which the adapter models.
   */
  method ExecQuery(conn: Driver.Connection, sql: string, answer: Result<Driver.QueryAnswer, NativeException>)
    returns (request: Driver.QueryRequest, result: Result<RecordResult, NativeException>)
    ensures request == Driver.QueryRequest(sql, conn.timeout)
    ensures answer.Failure? ==> result == Failure(answer.error)
    ensures answer.Success? ==>
      result == Success(RecordResult(Driver.Marshalled(answer.value).columns, Driver.Marshalled(answer.value).rows))
  {
    var r;
    request, r := conn.Run(sql, answer);
    match r {
      case Failure(e) =>
        result := Failure(e);
      case Success(res) =>
        result := Success(RecordResult(res.columns, res.rows));
    }
  }

  /** `supports_ddl_transactions`. */
  function SupportsDdlTransactions(): (r: bool)
    ensures !r
  {
    false
  }
}
