/**
 * `BigQueryAdapter::Connection`, the driver the adapter holds: it runs queries
 * and resolves the warehouse's physical tables into logical table names, where
 * date-sharded tables `<prefix>_YYYYMMDD` collapse into one wildcard name
 * `<prefix>_*`.
 *
 * The warehouse client is not modelled as code. What it would answer is an
 * input: a `Warehouse` value for the enumeration calls (its datasets, their
 * tables and the table schemas at the moment of the call) and a `QueryAnswer`
 * for `Run`.
 */
module Driver {
  import opened Wrappers
  import opened RubyCore
  import opened Dates

  /** One physical table of the warehouse. */
  datatype TableRef = TableRef(projectId: string, datasetId: string, tableId: string)

  /** A dataset and the references of its tables, in the client's order. */
  datatype Dataset = Dataset(datasetId: string, tables: seq<TableRef>)

  /** A schema field: its name, its native type name (`INTEGER`, `STRING`, ...) and its mode (`NULLABLE`, `REQUIRED`, `REPEATED`). */
  datatype Field = Field(name: string, fieldType: string, mode: string)

  /** A table schema; its field list may be nil. */
  datatype Schema = Schema(fields: Option<seq<Field>>)

  /** What the client would report: the datasets in order, and each table's schema by (dataset id, table id). */
  datatype Warehouse = Warehouse(datasets: seq<Dataset>, schemas: map<(string, string), Schema>)

  /** A cell of a query result. */
  datatype Value = NullValue | BoolValue(b: bool) | IntValue(i: int) | StringValue(s: string)

  /** A result row: its column names and values, in order. */
  type Row = seq<(string, Value)>

  /** The client's reply to a query: whether the job completed, and the rows it returned. */
  datatype QueryAnswer = QueryAnswer(complete: bool, rows: seq<Row>)

  /** What `run` hands to the client: the statement, and the timeout option when one is configured. */
  datatype QueryRequest = QueryRequest(statement: string, timeout: Option<int>)

  /** `Connection::Result`. */
  datatype QueryResult = QueryResult(columns: seq<string>, rows: seq<seq<Value>>)

  /** Ruby errors that escape the driver. */
  datatype DriverError =
    | NoMethodForNil   // a method was called on nil
    | TableNotFound    // the client's `get_table` knows no such table

  // ---------------------------------------------------------------------
  // Result marshalling

  function RowKeys(row: Row): (keys: seq<string>)
    ensures |keys| == |row| && forall i :: 0 <= i < |row| ==> keys[i] == row[i].0
  {
    seq(|row|, i requires 0 <= i < |row| => row[i].0)
  }

  function RowValues(row: Row): (values: seq<Value>)
    ensures |values| == |row| && forall i :: 0 <= i < |row| ==> values[i] == row[i].1
  {
    seq(|row|, i requires 0 <= i < |row| => row[i].1)
  }

  /** The result `run` builds from the client's answer. */
  function Marshalled(answer: QueryAnswer): (r: QueryResult)
    ensures !answer.complete ==> r.columns == [] && r.rows == []
    ensures answer.complete ==> |r.rows| == |answer.rows|
    ensures answer.complete ==> forall i :: 0 <= i < |answer.rows| ==> r.rows[i] == RowValues(answer.rows[i])
    ensures answer.complete && answer.rows != [] ==> r.columns == RowKeys(answer.rows[0])
    ensures answer.rows == [] ==> r.columns == [] && r.rows == []
  {
    if !answer.complete then QueryResult([], [])
    else
      QueryResult(
        if answer.rows == [] then [] else RowKeys(answer.rows[0]),
        seq(|answer.rows|, i requires 0 <= i < |answer.rows| => RowValues(answer.rows[i])))
  }

  // ---------------------------------------------------------------------
  // Table names

  /** `table_ref_name`: `project.dataset.table`. */
  function QualifiedName(ref: TableRef): string {
    ref.projectId + "." + ref.datasetId + "." + ref.tableId
  }

  lemma LastDotSplit(x: string, y: string, x': string, y': string)
    requires x + "." + y == x' + "." + y'
    requires '.' !in y && '.' !in y'
    ensures x == x' && y == y'
  {
    var s := x + "." + y;
    assert s == x' + "." + y';
    assert |x| + |y| == |x'| + |y'|;
    assert s[|x|] == '.' && s[|x'|] == '.';
    assert x == s[..|x|] == x';
    assert y == s[|x| + 1..] == y';
  }

  /** Dataset and table ids contain no dot, so the qualified name determines the reference. */
  lemma QualifiedNameInjective(a: TableRef, b: TableRef)
    requires '.' !in a.datasetId && '.' !in a.tableId
    requires '.' !in b.datasetId && '.' !in b.tableId
    requires QualifiedName(a) == QualifiedName(b)
    ensures a == b
  {
    LastDotSplit(a.projectId + "." + a.datasetId, a.tableId, b.projectId + "." + b.datasetId, b.tableId);
    LastDotSplit(a.projectId, a.datasetId, b.projectId, b.datasetId);
  }

  /**
   * `partitioned_table?`: `Some(false)` when the name has fewer than two
   * `_`-fields, `Some(true)` when its last field is a date, and `None` (the
   * `nil` of the rescued parse failure) otherwise.
   */
  function PartitionedTable(name: string): Option<bool> {
    var fields := Split(name);
    if |fields| < 2 then Some(false)
    else if IsYmdDate(fields[|fields| - 1]) then Some(true)
    else None
  }

  /** Ruby's truthiness of `partitioned_table?`. */
  predicate Partitioned(name: string) {
    PartitionedTable(name) == Some(true)
  }

  /** `table_ref_wildcard_name`: all but the last `_`-field, joined, then `_*`; other names unchanged. */
  function WildcardName(name: string): string {
    if Partitioned(name) then
      var fields := Split(name);
      Join(fields[..|fields| - 1]) + "_*"
    else name
  }

  /** A name without `_` has at most one field, so it is never partitioned and keeps its name. */
  lemma PlainNameNotPartitioned(name: string)
    requires '_' !in name
    ensures PartitionedTable(name) == Some(false)
    ensures WildcardName(name) == name
  {
    FieldsOfPlain(name);
  }

  /** `n` is `p`, an underscore, the date `d`, then `k` underscores. */
  predicate DateSuffixed(n: string, p: string, d: string, k: nat) {
    n == p + "_" + d + Underscores(k) && IsYmdDate(d)
  }

  /** Every name of that shape is partitioned, and its wildcard name is the part before the date, then `_*`. */
  lemma WildcardNameOfDateSuffixed(n: string, p: string, d: string, k: nat)
    requires DateSuffixed(n, p, d, k)
    ensures Partitioned(n)
    ensures WildcardName(n) == p + "_*"
  {
    DateIsPlainField(d);
    SplitOfSuffixed(p, d, k);
    var fields := Fields(p) + [d];
    assert fields[..|fields| - 1] == Fields(p);
    JoinFields(p);
  }

  /** Every partitioned name has that shape. */
  lemma DateSuffixedOfPartitioned(n: string)
    requires Partitioned(n)
    ensures exists p, d, k :: DateSuffixed(n, p, d, k) && WildcardName(n) == p + "_*"
  {
    var fields := Split(n);
    SplitRecovers(n);
    var p, d, k := Join(fields[..|fields| - 1]), fields[|fields| - 1], |Fields(n)| - |fields|;
    assert DateSuffixed(n, p, d, k);
  }

  /** A name is partitioned exactly when it is some prefix, `_`, a date and only underscores after it. */
  lemma PartitionedIffDateSuffixed(n: string)
    ensures Partitioned(n) <==> exists p, d, k :: DateSuffixed(n, p, d, k)
  {
    if Partitioned(n) {
      DateSuffixedOfPartitioned(n);
    }
    if exists p, d, k :: DateSuffixed(n, p, d, k) {
      var p, d, k :| DateSuffixed(n, p, d, k);
      WildcardNameOfDateSuffixed(n, p, d, k);
    }
  }

  /** A name whose last field is not a date makes `partitioned_table?` nil (the rescued parse failure), and keeps its name. */
  lemma NonDateSuffixKept(p: string, s: string)
    requires s != "" && '_' !in s && !IsYmdDate(s)
    ensures PartitionedTable(p + "_" + s) == None
    ensures !Partitioned(p + "_" + s)
    ensures WildcardName(p + "_" + s) == p + "_" + s
  {
    SplitOfSuffixed(p, s, 0);
    assert p + "_" + s + Underscores(0) == p + "_" + s;
  }

  predicate IsWildcard(name: string) {
    |name| >= 2 && name[|name| - 2..] == "_*"
  }

  /** A wildcard name is never partitioned (its last field is `*`), so the mapping leaves it alone. */
  lemma WildcardNameOfWildcard(name: string)
    requires IsWildcard(name)
    ensures !Partitioned(name) && WildcardName(name) == name
  {
    var p := name[..|name| - 2];
    assert name == p + "_" + "*";
    NonDateSuffixKept(p, "*");
    InvalidDateExamples();
  }

  /** Collapsing a name twice is collapsing it once. */
  lemma WildcardNameIdempotent(name: string)
    ensures WildcardName(WildcardName(name)) == WildcardName(name)
  {
    if Partitioned(name) {
      var w := WildcardName(name);
      assert IsWildcard(w);
      WildcardNameOfWildcard(w);
    }
  }

  /** A shard `p_<date>` collapses into `p_*`. */
  lemma ShardName(p: string, d: string)
    requires IsYmdDate(d)
    ensures WildcardName(p + "_" + d) == p + "_*"
  {
    assert p + "_" + d == p + "_" + d + Underscores(0);
    WildcardNameOfDateSuffixed(p + "_" + d, p, d, 0);
  }

  /** Two daily shards of one table collapse into the same wildcard name. */
  lemma ShardNameExamples(p: string)
    ensures WildcardName(p + "_" + "20230101") == p + "_*"
    ensures WildcardName(p + "_" + "20230102") == p + "_*"
  {
    ValidDateExamples();
    ShardName(p, "20230101");
    ShardName(p, "20230102");
  }

  /** Suffixes that are digits but not dates keep the name as it is. */
  lemma NonShardNameExamples(p: string)
    ensures WildcardName(p + "_99999999") == p + "_99999999"
    ensures WildcardName(p + "_123") == p + "_123"
  {
    InvalidDateExamples();
    assert p + "_99999999" == p + "_" + "99999999";
    NonDateSuffixKept(p, "99999999");
    assert p + "_123" == p + "_" + "123";
    NonDateSuffixKept(p, "123");
  }

  function WildcardNames(refs: seq<TableRef>): (names: seq<string>)
    ensures |names| == |refs|
    ensures forall i :: 0 <= i < |refs| ==> names[i] == WildcardName(QualifiedName(refs[i]))
  {
    seq(|refs|, i requires 0 <= i < |refs| => WildcardName(QualifiedName(refs[i])))
  }

  // ---------------------------------------------------------------------
  // Looking a reference up by logical name

  /** `prefix` followed by eight digits occurs in `n` at index `i`. */
  predicate DatedAt(n: string, prefix: string, i: int) {
    OccursAt(n, prefix, i) && i + |prefix| + 8 <= |n| && AllDigits(n[i + |prefix|..i + |prefix| + 8])
  }

  /** `n =~ /#{prefix}[0-9]{8}/`, the prefix read literally. */
  predicate MatchesDated(n: string, prefix: string) {
    exists i | 0 <= i <= |n| :: DatedAt(n, prefix, i)
  }

  /** The test `table_ref` applies to each reference: a wildcard name loses its `*` and needs eight digits after it, anywhere; any other name must be equal. */
  predicate RefMatches(name: string, ref: TableRef) {
    if IsWildcard(name) then MatchesDated(QualifiedName(ref), name[..|name| - 1])
    else QualifiedName(ref) == name
  }

  /** `refs.find { ... }`: the first matching reference, or nil. */
  function FindRef(refs: seq<TableRef>, name: string): (r: Option<TableRef>)
    ensures r.None? <==> forall i :: 0 <= i < |refs| ==> !RefMatches(name, refs[i])
    ensures r.Some? ==> exists i :: 0 <= i < |refs| && refs[i] == r.value && RefMatches(name, refs[i]) &&
                          forall j :: 0 <= j < i ==> !RefMatches(name, refs[j])
  {
    if refs == [] then None
    else if RefMatches(name, refs[0]) then Some(refs[0])
    else
      var r := FindRef(refs[1..], name);
      assert forall i :: 1 <= i < |refs| ==> refs[i] == refs[1..][i - 1];
      if r.Some? then
        var i :| 0 <= i < |refs[1..]| && refs[1..][i] == r.value && RefMatches(name, refs[1..][i]) &&
                 forall j :: 0 <= j < i ==> !RefMatches(name, refs[1..][j]);
        assert refs[i + 1] == r.value;
        r
      else r
  }

  // ---------------------------------------------------------------------
  // Datasets and their tables

  /** `datasets.select { |d| ids.include?(d.dataset_id) }`. */
  function Select(datasets: seq<Dataset>, ids: seq<string>): (r: seq<Dataset>)
    ensures forall d :: d in r <==> d in datasets && d.datasetId in ids
    ensures |r| <= |datasets|
  {
    if datasets == [] then []
    else
      var d := datasets[0];
      assert datasets == [d] + datasets[1..];
      (if d.datasetId in ids then [d] else []) + Select(datasets[1..], ids)
  }

  /** Selection keeps the order of the datasets (and their repetitions). */
  lemma {:induction false} SelectAppend(a: seq<Dataset>, b: seq<Dataset>, ids: seq<string>)
    ensures Select(a + b, ids) == Select(a, ids) + Select(b, ids)
  {
    if a == [] {
      assert a + b == b;
    } else {
      assert (a + b)[0] == a[0];
      assert (a + b)[1..] == a[1..] + b;
      SelectAppend(a[1..], b, ids);
    }
  }

  /** `datasets.map(&:tables).flat_map { ... }`: every table reference of every dataset, in order. */
  function AllTables(datasets: seq<Dataset>): (refs: seq<TableRef>)
    ensures forall ref :: ref in refs <==> exists d :: d in datasets && ref in d.tables
  {
    if datasets == [] then []
    else
      assert forall d :: d in datasets <==> d == datasets[0] || d in datasets[1..];
      datasets[0].tables + AllTables(datasets[1..])
  }

  /** One dataset contributes its own references, in the client's order. */
  lemma AllTablesOfOne(d: Dataset)
    ensures AllTables([d]) == d.tables
  {
    assert [d][1..] == [];
  }

  /** `flat_map` keeps the datasets' order: the references of earlier datasets come first. */
  lemma {:induction false} AllTablesAppend(a: seq<Dataset>, b: seq<Dataset>)
    ensures AllTables(a + b) == AllTables(a) + AllTables(b)
  {
    if a == [] {
      assert a + b == b;
    } else {
      assert (a + b)[0] == a[0];
      assert (a + b)[1..] == a[1..] + b;
      AllTablesAppend(a[1..], b);
    }
  }

  // ---------------------------------------------------------------------
  // The driver object

  class Connection {
    const project: Option<string>
    const keyfile: Option<string>
    /** The dataset allow-list; Ruby's `nil` when the caller passed none explicitly. */
    const datasetIds: Option<seq<string>>
    /** The query timeout, when one was given. */
    const timeout: Option<int>

    /** `initialize`: the client session itself is not modelled. */
    constructor (project: Option<string>, keyfile: Option<string>, timeout: Option<int>, datasets: Option<seq<string>>)
      ensures this.project == project && this.keyfile == keyfile
      ensures this.timeout == timeout && this.datasetIds == datasets
    {
      this.project := project;
      this.keyfile := keyfile;
      this.datasetIds := datasets;
      this.timeout := timeout;
    }

    /** `run`: sends the statement, with the timeout when set, and marshals the answer; what the client raises escapes. */
    method Run(statement: string, answer: Result<QueryAnswer, NativeException>)
      returns (request: QueryRequest, result: Result<QueryResult, NativeException>)
      ensures request.statement == statement && request.timeout == timeout
      ensures answer.Failure? ==> result == Failure(answer.error)
      ensures answer.Success? ==> result == Success(Marshalled(answer.value))
    {
      var columns: seq<string> := [];
      var rows: seq<seq<Value>> := [];
      var timeoutOption: Option<int> := None;
      if timeout.Some? {
        timeoutOption := timeout;
      }
      request := QueryRequest(statement, timeoutOption);
      if answer.Failure? {
        result := Failure(answer.error);
        return;
      }
      var results := answer.value;
      if results.complete {
        if results.rows != [] {
          columns := RowKeys(results.rows[0]);
        }
        rows := seq(|results.rows|, i requires 0 <= i < |results.rows| => RowValues(results.rows[i]));
      }
      result := Success(QueryResult(columns, rows));
    }

    /** `datasets` as written: `@dataset_ids.empty?` raises when the allow-list is nil. */
    function DatasetsAsWritten(w: Warehouse): (r: Result<seq<Dataset>, DriverError>)
      ensures r.Failure? <==> datasetIds.None?
      ensures r.Failure? ==> r.error == NoMethodForNil
      ensures datasetIds.Some? ==> r == Success(Datasets(w))
    {
      match datasetIds
      case None => Failure(NoMethodForNil)
      case Some(ids) => Success(if ids == [] then w.datasets else Select(w.datasets, ids))
    }

    /** The allow-list, nil read as the keyword's default `[]`. */
    function AllowList(): seq<string> {
      if datasetIds.Some? then datasetIds.value else []
    }

    /** `datasets`: all of them for an empty allow-list, otherwise those on it, in order. */
    function Datasets(w: Warehouse): (ds: seq<Dataset>)
      ensures AllowList() == [] ==> ds == w.datasets
      ensures AllowList() != [] ==> forall d :: d in ds <==> d in w.datasets && d.datasetId in AllowList()
      ensures |ds| <= |w.datasets|
    {
      if AllowList() == [] then w.datasets else Select(w.datasets, AllowList())
    }

    /** `table_refs`. */
    function TableRefs(w: Warehouse): (refs: seq<TableRef>)
      ensures forall ref :: ref in refs <==> exists d :: d in Datasets(w) && ref in d.tables
    {
      AllTables(Datasets(w))
    }

    /** `tables`: the wildcard names of all references, each once, in order of first occurrence. */
    function Tables(w: Warehouse): (names: seq<string>)
      ensures NoDuplicates(names)
      ensures forall i :: 0 <= i < |TableRefs(w)| ==> WildcardName(QualifiedName(TableRefs(w)[i])) in names
      ensures forall n :: n in names ==> exists i :: 0 <= i < |TableRefs(w)| && WildcardName(QualifiedName(TableRefs(w)[i])) == n
      ensures |names| <= |TableRefs(w)|
      ensures InFirstOccurrenceOrder(names, WildcardNames(TableRefs(w)))
    {
      var all := WildcardNames(TableRefs(w));
      DistinctKeepsFirstOccurrenceOrder(all);
      Distinct(all)
    }

    /** `table_ref`: the first reference matching the logical name, or nil. */
    function TableRefFor(w: Warehouse, name: string): (r: Option<TableRef>)
      ensures r.Some? ==> r.value in TableRefs(w) && RefMatches(name, r.value)
      ensures r.None? <==> forall ref :: ref in TableRefs(w) ==> !RefMatches(name, ref)
    {
      FindRef(TableRefs(w), name)
    }

    /**
     * `columns`: the schema fields of the table the name resolves to, `[]`
     * when the schema has none. An unresolved name reaches `nil.dataset_id`;
     * a resolved table the client does not know makes `get_table` raise.
     */
    function Columns(w: Warehouse, name: string): (r: Result<seq<Field>, DriverError>)
      ensures TableRefFor(w, name).None? ==> r == Failure(NoMethodForNil)
      ensures r == Failure(TableNotFound) <==>
        TableRefFor(w, name).Some? && (TableRefFor(w, name).value.datasetId, TableRefFor(w, name).value.tableId) !in w.schemas
      ensures (TableRefFor(w, name).Some? &&
               (TableRefFor(w, name).value.datasetId, TableRefFor(w, name).value.tableId) in w.schemas) ==> r.Success?
      ensures r.Success? ==> exists ref :: (TableRefFor(w, name) == Some(ref) &&
        (ref.datasetId, ref.tableId) in w.schemas &&
        r.value == (match w.schemas[(ref.datasetId, ref.tableId)].fields case None => [] case Some(fs) => fs))
    {
      match TableRefFor(w, name)
      case None => Failure(NoMethodForNil)
      case Some(ref) =>
        if (ref.datasetId, ref.tableId) in w.schemas then
          match w.schemas[(ref.datasetId, ref.tableId)].fields
          case None => Success([])
          case Some(fs) => Success(fs)
        else Failure(TableNotFound)
    }
  }

  // ---------------------------------------------------------------------
  // Properties of table resolution

  /** Shards of one table that differ only in their date appear in `tables` once, as `<prefix>_*`. */
  lemma ShardsShareOneTable(c: Connection, w: Warehouse, a: TableRef, b: TableRef, base: string, da: string, db: string)
    requires a in c.TableRefs(w) && b in c.TableRefs(w)
    requires a.projectId == b.projectId && a.datasetId == b.datasetId
    requires a.tableId == base + "_" + da && b.tableId == base + "_" + db
    requires IsYmdDate(da) && IsYmdDate(db)
    ensures var t := QualifiedName(TableRef(a.projectId, a.datasetId, base)) + "_*";
      WildcardName(QualifiedName(a)) == t && WildcardName(QualifiedName(b)) == t &&
      t in c.Tables(w) && forall i, j :: 0 <= i < j < |c.Tables(w)| ==> c.Tables(w)[i] != c.Tables(w)[j]
  {
    var p := QualifiedName(TableRef(a.projectId, a.datasetId, base));
    ShardQualifiedName(a, base, da);
    ShardQualifiedName(b, base, db);
    ShardName(p, da);
    ShardName(p, db);
    ListedName(c, w, a);
  }

  /** The qualified name of a shard is that of its base table, `_` and the date. */
  lemma ShardQualifiedName(ref: TableRef, base: string, d: string)
    requires ref.tableId == base + "_" + d
    ensures QualifiedName(ref) == QualifiedName(TableRef(ref.projectId, ref.datasetId, base)) + "_" + d
  {
  }

  /** Every reference's logical name is listed by `tables`. */
  lemma ListedName(c: Connection, w: Warehouse, ref: TableRef)
    requires ref in c.TableRefs(w)
    ensures WildcardName(QualifiedName(ref)) in c.Tables(w)
  {
    var refs := c.TableRefs(w);
    var i :| 0 <= i < |refs| && refs[i] == ref;
  }

  lemma QualifiedNameNotWildcard(ref: TableRef)
    requires '*' !in ref.tableId
    ensures !IsWildcard(QualifiedName(ref))
  {
    var n := QualifiedName(ref);
    if ref.tableId == [] {
      assert n[|n| - 1] == '.';
    } else {
      assert n[|n| - 1] == ref.tableId[|ref.tableId| - 1];
    }
    assert n[|n| - 2..][1] == n[|n| - 1];
  }

  /** Each reference matches its own logical name. */
  lemma RefMatchesOwnWildcardName(ref: TableRef)
    requires '*' !in ref.tableId
    ensures RefMatches(WildcardName(QualifiedName(ref)), ref)
  {
    var n := QualifiedName(ref);
    if Partitioned(n) {
      DateSuffixedOfPartitioned(n);
      var p, d, k :| DateSuffixed(n, p, d, k) && WildcardName(n) == p + "_*";
      var t := p + "_*";
      assert IsWildcard(t);
      assert t[..|t| - 1] == p + "_";
      DateIsPlainField(d);
      assert n[..|p| + 1] == p + "_";
      assert n[|p| + 1..|p| + 9] == d;
      assert DatedAt(n, p + "_", 0);
    } else {
      QualifiedNameNotWildcard(ref);
    }
  }

  /**
   * A table's own qualified name resolves to that very table, when ids carry
   * no dot and the table id no `*`: `find` stops at the first reference with
   * an equal name, and equal names mean equal references.
   */
  lemma ExactNameResolvesToItself(c: Connection, w: Warehouse, ref: TableRef)
    requires ref in c.TableRefs(w)
    requires forall r :: r in c.TableRefs(w) ==> '.' !in r.datasetId && '.' !in r.tableId
    requires '*' !in ref.tableId
    ensures c.TableRefFor(w, QualifiedName(ref)) == Some(ref)
  {
    QualifiedNameNotWildcard(ref);
    var found := c.TableRefFor(w, QualifiedName(ref));
    assert RefMatches(QualifiedName(ref), ref);
    QualifiedNameInjective(found.value, ref);
  }

  /** Every logical name `tables` lists resolves back to a reference (table ids never contain `*`). */
  lemma TablesResolveBack(c: Connection, w: Warehouse)
    requires forall ref :: ref in c.TableRefs(w) ==> '*' !in ref.tableId
    ensures forall t :: t in c.Tables(w) ==> c.TableRefFor(w, t).Some?
  {
    var refs := c.TableRefs(w);
    forall t | t in c.Tables(w) ensures c.TableRefFor(w, t).Some? {
      var i :| 0 <= i < |refs| && WildcardName(QualifiedName(refs[i])) == t;
      RefMatchesOwnWildcardName(refs[i]);
    }
  }

  /** With no allow-list given, `datasets` as written raises where the keyword default would list every dataset. */
  lemma NilAllowListRaises(c: Connection, w: Warehouse)
    requires c.datasetIds.None?
    ensures c.DatasetsAsWritten(w) == Failure(NoMethodForNil)
    ensures c.Datasets(w) == w.datasets
  {
  }
}
