# BigQuery adapter for ActiveRecord, modelled in Dafny

This project models the core of `big_query_adapter`, a Ruby gem that lets ActiveRecord talk to Google BigQuery. It covers:

- the **driver** (`BigQueryAdapter::Connection`). It runs a statement and marshals the answer into columns and rows. It lists the warehouse's tables as logical names, collapsing date-sharded tables `<prefix>_YYYYMMDD` into one wildcard name `<prefix>_*`. It resolves a logical name back to a physical table and reads its schema fields. It filters datasets by an allow-list.
- the **schema statements** mixed into the adapter. Schema fields become ActiveRecord columns through the inverted native type table. The other schema queries answer constants.
- the **database statements**: the native type table, `valid_type?`, `exec_query` and the DDL capability flag.
- **quoting** of string literals and table names.
- the **adapter object**. It answers the capability flags and classifies native errors by leading code or message. It rebuilds its driver on `reconnect!`. `Base.big_query_connection` builds it from a configuration.

Modules and files:

| file | module | models |
|---|---|---|
| `wrappers.dfy` | `Wrappers` | `Option` (a Ruby value that may be nil), `Result` (a call that may raise) |
| `ruby_core.dfy` | `RubyCore` | the Ruby core behaviour the code relies on: `String#split('_')`, with trailing empty fields dropped; `Array#join('_')`; `to_i` of a digit run; `group_by(...).keys`; `Hash#[]` and `Hash#invert` on a literal hash |
| `dates.dfy` | `Dates` | the `%Y%m%d` date test |
| `quoting.dfy` | `Quoting` | `quoting.rb` |
| `driver.dfy` | `Driver` | `connection.rb` |
| `database_statements.dfy` | `DatabaseStatements` | `database_statements.rb` |
| `schema_statements.dfy` | `SchemaStatements` | `schema_statements.rb` |
| `adapter.dfy` | `Adapter` | `big_query_adapter.rb` |

The warehouse client does not appear as code. Each call gets what the client would answer as an explicit input:
- a `Driver.Warehouse` value for the enumeration calls: the datasets in order, their table references, and each table's schema by dataset and table id;
- for `run`, either a `Driver.QueryAnswer` value (the `complete?` flag and the rows, where each row lists its key/value pairs in order) or the exception the client raises instead.

`Run` also returns the `QueryRequest` it would send. That is the statement plus the timeout option, present exactly when a timeout is configured.

Ruby mixins have no Dafny counterpart. The methods of `DatabaseStatements` and `SchemaStatements` therefore take the driver the adapter holds as a parameter. `Adapter.BigQueryAdapter.ExecQuery` is the call through the adapter. It runs the block on the held object, which is not always a driver (see Findings). Like the framework's `log`, it rescues whatever the block raises and returns the adapter's `translate_exception` of it.

`partitioned_table?` returns `false`, `true` or `nil` (the rescued parse failure). The model returns `Option<bool>`: `Some(false)`, `Some(true)` or `None`. `Partitioned` is its Ruby truthiness.

`table_ref` with a wildcard name matches by containment, not equality: it takes the first reference whose qualified name contains the prefix (the name minus its `*`) followed by eight digits, anywhere. `Driver.RefMatches` states exactly that.

## Model

| member | source | states |
|---|---|---|
| RubyCore.Split | lib/big_query_adapter/connection.rb:57 | `split('_')` yields fields free of `_` whose last one is non-empty (Ruby drops trailing empty fields) |
| RubyCore.Join | lib/big_query_adapter/connection.rb:59 | `join('_')`: the fields with one `_` between each two; `JoinFields`, `JoinAppend` and `SplitRecovers` relate it to `split` |
| RubyCore.SplitRecovers | lib/big_query_adapter/connection.rb:57-59 | a name with two or more fields is the join of all but the last field, `_`, the last field, then the underscores the split dropped |
| RubyCore.Distinct | lib/big_query_adapter/connection.rb:39-40 | `group_by(...).keys` has no duplicates, holds every input element and only input elements, and is no longer than its input |
| RubyCore.DistinctKeepsFirstOccurrenceOrder | lib/big_query_adapter/connection.rb:39-40 | its keys come in order of first occurrence |
| RubyCore.HashGet | lib/big_query_adapter/database_statements.rb:20 | `h[k]` is nil exactly when no entry has key `k`, otherwise the value of an entry with that key |
| RubyCore.HashInvertGet | lib/big_query_adapter/schema_statements.rb:28 | `h.invert[v]` is nil exactly when no entry has value `v`, otherwise a key stored with `v` |
| RubyCore.HashInvertRoundTrip | lib/big_query_adapter/schema_statements.rb:28 | with distinct keys and values, `h[k] == v` exactly when `h.invert[v] == k` |
| RubyCore.HashGetOfEntry | lib/big_query_adapter/database_statements.rb:4-13 | with distinct keys, reading an entry's key returns that entry's value |
| Dates.DaysInMonth | lib/big_query_adapter/connection.rb:68 | 31 days exactly for months 1, 3, 5, 7, 8, 10 and 12; 30 exactly for 4, 6, 9 and 11; February 29 days exactly in leap years, otherwise 28 |
| Dates.IsYmdDate | lib/big_query_adapter/connection.rb:68 | the strict `%Y%m%d` test: eight digits, a month 1 to 12 and a day that month has; the examples below and `DateIsPlainField` say what it accepts |
| Dates.DateIsPlainField | lib/big_query_adapter/connection.rb:67-68 | a `%Y%m%d` date is eight digits: a non-empty field without `_` |
| Dates.ValidDateExamples | lib/big_query_adapter/connection.rb:68 | `20230101` and `20230102` are dates |
| Dates.LeapDayExample | lib/big_query_adapter/connection.rb:68 | the leap day `20240229` is a date |
| Dates.InvalidDateExamples | lib/big_query_adapter/connection.rb:68 | `99999999`, `20230229`, `123` and `*` are not dates |
| Quoting.QuoteString | lib/big_query_adapter/quoting.rb:5-7 | the output is the input's length plus its number of `'`; an input without `'` is returned unchanged |
| Quoting.UnquoteQuoteString | lib/big_query_adapter/quoting.rb:5-7 | undoing the escape left to right (`''` to `'`) recovers the input exactly |
| Quoting.QuoteStringOfUnquoted | lib/big_query_adapter/quoting.rb:5-7 | every well-formed escaped text is the escape of what it reads back as |
| Quoting.QuoteStringKeepsOtherCharacters | lib/big_query_adapter/quoting.rb:5-7 | with quotes taken out, input and output are the same characters in the same order |
| Quoting.WithoutQuotesAppend | lib/big_query_adapter/quoting.rb:5-7 | removing quotes distributes over concatenation |
| Quoting.WellFormedRunsAreEven | lib/big_query_adapter/quoting.rb:5-7 | in a well-formed escaped text every maximal run of `'` has even length |
| Quoting.QuoteStringRunsAreEven | lib/big_query_adapter/quoting.rb:5-7 | every maximal run of `'` in the escape of any string has even length |
| Quoting.QuoteTableName | lib/big_query_adapter/quoting.rb:10-12 | a backtick, the name unescaped, a backtick: two characters longer than the name |
| Driver.Marshalled | lib/big_query_adapter/connection.rb:21-34 | incomplete answer: no columns and no rows; complete: each row's values in order, and the first row's keys as columns (`[]` without rows) |
| Driver.Connection.Run | lib/big_query_adapter/connection.rb:21-34 | sends the statement with the configured timeout option; returns the marshalled answer, or lets the client's exception escape |
| Driver.Connection.constructor | lib/big_query_adapter/connection.rb:11-19 | the driver keeps project, keyfile, allow-list and timeout as given |
| Driver.QualifiedName | lib/big_query_adapter/connection.rb:51-53 | `table_ref_name`: project, dataset and table ids joined by dots; `QualifiedNameInjective` shows it determines the reference |
| Driver.PartitionedTable | lib/big_query_adapter/connection.rb:65-72 | `partitioned_table?` as `Some(false)`, `Some(true)` or `None`; the lemmas below characterise each outcome |
| Driver.WildcardName | lib/big_query_adapter/connection.rb:55-63 | `table_ref_wildcard_name`; the lemmas below state its result for date-suffixed, plain and wildcard names |
| Driver.QualifiedNameInjective | lib/big_query_adapter/connection.rb:51-53 | dataset and table ids carry no dot, so `project.dataset.table` determines the reference |
| Driver.PlainNameNotPartitioned | lib/big_query_adapter/connection.rb:65-66 | a name without `_` has fewer than two fields: `partitioned_table?` is false and the name is kept |
| Driver.WildcardNameOfDateSuffixed | lib/big_query_adapter/connection.rb:55-69 | `p_<date>` (trailing underscores allowed) is partitioned, and its wildcard name is `p_*` |
| Driver.DateSuffixedOfPartitioned | lib/big_query_adapter/connection.rb:55-69 | every partitioned name is `p_<date>` plus underscores, and its wildcard name is `p_*` |
| Driver.PartitionedIffDateSuffixed | lib/big_query_adapter/connection.rb:65-72 | a name is partitioned exactly when it is some prefix, `_`, a date and nothing but underscores after it |
| Driver.NonDateSuffixKept | lib/big_query_adapter/connection.rb:55-72 | a last field that is not a date makes `partitioned_table?` nil, hence falsy, and the name is kept |
| Driver.WildcardNameOfWildcard | lib/big_query_adapter/connection.rb:55-72 | a `..._*` name is not partitioned (its last field `*` is no date) and maps to itself |
| Driver.WildcardNameIdempotent | lib/big_query_adapter/connection.rb:55-72 | collapsing twice is collapsing once |
| Driver.ShardName | lib/big_query_adapter/connection.rb:55-69 | every shard `p_<date>` collapses into `p_*` |
| Driver.ShardNameExamples | lib/big_query_adapter/connection.rb:55-60 | `p_20230101` and `p_20230102` both become `p_*` |
| Driver.NonShardNameExamples | lib/big_query_adapter/connection.rb:55-72 | `p_99999999` and `p_123` keep their names |
| Driver.RefMatches | lib/big_query_adapter/connection.rb:88-94 | the test each `find` block applies: containment of the prefix and eight digits for a `_*` name, equality otherwise |
| Driver.FindRef | lib/big_query_adapter/connection.rb:90-94 | nil exactly when no reference matches; otherwise the first matching one |
| Driver.Select | lib/big_query_adapter/connection.rb:76-78 | a dataset is kept exactly when it is in the input and its id is on the list |
| Driver.SelectAppend | lib/big_query_adapter/connection.rb:76-78 | the filter keeps the datasets' order: it distributes over concatenation |
| Driver.AllTables | lib/big_query_adapter/connection.rb:82-84 | a reference is listed exactly when some dataset holds it |
| Driver.AllTablesOfOne | lib/big_query_adapter/connection.rb:82-84 | one dataset contributes exactly its own references, in order |
| Driver.AllTablesAppend | lib/big_query_adapter/connection.rb:82-84 | `flat_map` keeps the datasets' order: the references of earlier datasets come first |
| Driver.Connection.DatasetsAsWritten | lib/big_query_adapter/connection.rb:74-79 | raises exactly when the allow-list is nil; otherwise it agrees with `Datasets` |
| Driver.Connection.Datasets | lib/big_query_adapter/connection.rb:74-79 | an empty allow-list gives every dataset; otherwise exactly those whose id is listed, never more than there are |
| Driver.Connection.TableRefs | lib/big_query_adapter/connection.rb:81-85 | a reference is listed exactly when one of the selected datasets holds it |
| Driver.Connection.Tables | lib/big_query_adapter/connection.rb:36-41 | no duplicates; every reference's wildcard name is listed and nothing else is; at most one name per reference; first-occurrence order |
| Driver.Connection.TableRefFor | lib/big_query_adapter/connection.rb:87-96 | the result is one of the references and matches the name; it is nil exactly when none matches |
| Driver.Connection.Columns | lib/big_query_adapter/connection.rb:43-47 | unresolved name: NoMethodError; a resolved table the client does not know, and only that: the client's not-found error; a known table: success, with its schema fields, `[]` when the schema has none |
| Driver.ShardsShareOneTable | lib/big_query_adapter/connection.rb:36-41 | two shards of one table that differ only in the date share the single `tables` entry `<prefix>_*` |
| Driver.ListedName | lib/big_query_adapter/connection.rb:36-41 | every reference's logical name is listed by `tables` |
| Driver.RefMatchesOwnWildcardName | lib/big_query_adapter/connection.rb:87-96 | every reference matches its own logical name |
| Driver.TablesResolveBack | lib/big_query_adapter/connection.rb:87-96 | every name `tables` lists resolves back to a reference |
| Driver.ExactNameResolvesToItself | lib/big_query_adapter/connection.rb:87-96 | with dot-free ids, a table's own qualified name resolves to that very table |
| Driver.NilAllowListRaises | lib/big_query_adapter/connection.rb:75 | with a nil allow-list, `datasets` as written raises, where the keyword default would list every dataset |
| DatabaseStatements.NativeDatabaseTypesTable | lib/big_query_adapter/database_statements.rb:4-17 | the table has 8 entries, keys pairwise distinct, native names pairwise distinct, every key one of the eight types and every name one of the eight native names |
| DatabaseStatements.ValidType | lib/big_query_adapter/database_statements.rb:19-21 | `valid_type?(t)` holds exactly when `t` is one of the eight keys |
| DatabaseStatements.NativeTypeExamples | lib/big_query_adapter/database_statements.rb:4-13 | each of the eight types reads its native name: boolean `BOOL`, integer `INTEGER`, float `FLOAT`, string `STRING`, datetime `DATETIME`, date `DATE`, timestamp `TIMESTAMP`, time `TIME` |
| DatabaseStatements.InvertedTypeExample | lib/big_query_adapter/database_statements.rb:4-13 | the inverted table gives `FLOAT` back to `:float` |
| DatabaseStatements.UnknownNativeTypeExample | lib/big_query_adapter/database_statements.rb:4-13 | a native name outside the table, `NUMERIC`, inverts to nil |
| DatabaseStatements.NativeTypeRoundTrip | lib/big_query_adapter/database_statements.rb:4-13 | looking up by native name after looking up by key returns the key, and conversely |
| DatabaseStatements.ExecQuery | lib/big_query_adapter/database_statements.rb:35-40 | the block of `exec_query`: the request `run` sends; the result's columns and rows are exactly those `run` returns, and the client's exception escapes unchanged |
| DatabaseStatements.SupportsDdlTransactions | lib/big_query_adapter/database_statements.rb:43-45 | always false |
| SchemaStatements.InvertedLookupIsKey | lib/big_query_adapter/schema_statements.rb:28 | the inverted type table returns exactly the key whose native name it is given |
| SchemaStatements.ColumnOf | lib/big_query_adapter/schema_statements.rb:27-44 | name and table carried over; nullable exactly for `NULLABLE`, so never for `REQUIRED` or `REPEATED`; `type` equals the SQL type; default, limit, scale and precision are nil |
| SchemaStatements.ColumnTypeOf | lib/big_query_adapter/schema_statements.rb:28-31 | the SQL type is the key whose native name is the field's type, and nil exactly when no entry has that name |
| SchemaStatements.ColumnsOfFields | lib/big_query_adapter/schema_statements.rb:26-45 | the accumulating loop yields one column per field, same length and order |
| SchemaStatements.Columns | lib/big_query_adapter/schema_statements.rb:23-46 | one column per field, same length and order; the driver's errors pass through |
| SchemaStatements.ColumnOfExample | lib/big_query_adapter/schema_statements.rb:27-31 | a `REQUIRED INTEGER` field `id` becomes a non-null `:integer` column |
| SchemaStatements.ColumnOfUnknownTypeExample | lib/big_query_adapter/schema_statements.rb:28-31 | a `NULLABLE NUMERIC` field becomes a nullable column with nil type |
| SchemaStatements.Tables | lib/big_query_adapter/schema_statements.rb:6-8 | exactly the driver's `tables`, hence without duplicates |
| SchemaStatements.Views | lib/big_query_adapter/schema_statements.rb:11-13 | always empty |
| SchemaStatements.Indexes | lib/big_query_adapter/schema_statements.rb:16-18 | always empty, whatever the arguments |
| SchemaStatements.PrimaryKey | lib/big_query_adapter/schema_statements.rb:50-52 | always empty, whatever the table |
| SchemaStatements.ForeignKeys | lib/big_query_adapter/schema_statements.rb:54-56 | always empty, whatever the table |
| Adapter.FirstNumberStart | lib/active_record/connection_adapters/big_query_adapter.rb:92 | the leftmost position where `/^\d+/` can start (a digit at the start of the text or of a line), or nil when there is none |
| Adapter.DigitRunEnd | lib/active_record/connection_adapters/big_query_adapter.rb:92 | the greedy `\d+` run: all digits up to the end or to a non-digit |
| Adapter.LeadingNumber | lib/active_record/connection_adapters/big_query_adapter.rb:92 | nil exactly when no line starts with a digit; otherwise the whole digit run at the first line start, non-empty and all digits |
| Adapter.ErrorNumber | lib/active_record/connection_adapters/big_query_adapter.rb:92 | `to_i` of that match, 0 for nil; the lemmas below give its value on leading, second-line and mid-line codes |
| Adapter.ErrorNumberOfLeadingCode | lib/active_record/connection_adapters/big_query_adapter.rb:92 | a message starting with a code reads as that code |
| Adapter.ErrorNumberOfSecondLine | lib/active_record/connection_adapters/big_query_adapter.rb:92 | `^` is line-anchored: a code starting the second line is read when the first line has none |
| Adapter.ErrorNumberWithoutLeadingDigits | lib/active_record/connection_adapters/big_query_adapter.rb:92 | with no digit at the start of any line, `to_i` of the nil match is 0 |
| Adapter.OneLineWithoutLeadingDigit | lib/active_record/connection_adapters/big_query_adapter.rb:92 | a single line that does not start with a digit has no digit at a line start |
| Adapter.DecimalValueOfCodes | lib/active_record/connection_adapters/big_query_adapter.rb:40-41 | the digits `23505` and `57014` spell the two error constants |
| Adapter.ShortTextLacksPhrase | lib/active_record/connection_adapters/big_query_adapter.rb:42 | a text shorter than the phrase does not contain it |
| Adapter.PhraseIsContained | lib/active_record/connection_adapters/big_query_adapter.rb:97 | the phrase anywhere in a message matches |
| Adapter.TranslateException | lib/active_record/connection_adapters/big_query_adapter.rb:91-103 | message and cause are kept; `RecordNotUnique` exactly for number 23505; `QueryTimeoutError` exactly for 57014 or the phrase, when the number is not 23505; the framework's translation exactly otherwise |
| Adapter.DuplicateKeyWins | lib/active_record/connection_adapters/big_query_adapter.rb:94-98 | a leading 23505 gives `RecordNotUnique`, even when the text also mentions the timeout |
| Adapter.TimeoutCodeTranslated | lib/active_record/connection_adapters/big_query_adapter.rb:97-98 | a leading 57014 gives `QueryTimeoutError` |
| Adapter.TimeoutPhraseTranslated | lib/active_record/connection_adapters/big_query_adapter.rb:97-98 | the phrase anywhere gives `QueryTimeoutError` unless the number is 23505 |
| Adapter.DuplicateKeyOnSecondLine | lib/active_record/connection_adapters/big_query_adapter.rb:92-95 | 23505 at the start of the second line still gives `RecordNotUnique` |
| Adapter.OtherCodeFallsThrough | lib/active_record/connection_adapters/big_query_adapter.rb:100-101 | `42P01: no table` has number 42 and falls through to the framework's translation |
| Adapter.MidLineCodeFallsThrough | lib/active_record/connection_adapters/big_query_adapter.rb:92-101 | `Error 23505` has number 0 (the code does not begin a line) and falls through |
| Adapter.NoMethodErrorFallsThrough | lib/active_record/connection_adapters/big_query_adapter.rb:91-103 | a `NoMethodError` has no leading code and not the timeout phrase, so it gets the framework's translation |
| Adapter.BigQueryAdapter.constructor | lib/active_record/connection_adapters/big_query_adapter.rb:48-51 | the adapter keeps the connection, configuration and metadata it is given |
| Adapter.BigQueryAdapter.AdapterName | lib/active_record/connection_adapters/big_query_adapter.rb:54-56 | always `BigQuery` |
| Adapter.BigQueryAdapter.Disconnect | lib/active_record/connection_adapters/big_query_adapter.rb:78-80 | always false |
| Adapter.BigQueryAdapter.PreparedStatements | lib/active_record/connection_adapters/big_query_adapter.rb:119-121 | always false |
| Adapter.BigQueryAdapter.SupportsMigrations | lib/active_record/connection_adapters/big_query_adapter.rb:125-127 | always false |
| Adapter.BigQueryAdapter.ExecQuery | lib/big_query_adapter/database_statements.rb:35-40 | on a held driver: its marshalled answer, or the translation of the client's exception; on a held adapter: the translation of NoMethodError for `run`, which is the framework's generic one |
| Adapter.BigQueryAdapter.ReconnectAsWritten | lib/active_record/connection_adapters/big_query_adapter.rb:69-73 | as written, `@connection` becomes a new adapter over a driver built from the unchanged configuration |
| Adapter.BigQueryAdapter.Reconnect | lib/active_record/connection_adapters/big_query_adapter.rb:69-74 | `@connection` becomes a new driver built from the unchanged configuration |
| Adapter.NewConnection | lib/active_record/connection_adapters/big_query_adapter.rb:18-24 | the driver gets keyfile, project and datasets from the configuration, and no timeout |
| Adapter.BigQueryConnection | lib/active_record/connection_adapters/big_query_adapter.rb:17-27 | a new adapter over such a driver, with that configuration and empty metadata |
| Adapter.QueryAfterReconnectAsWritten | lib/active_record/connection_adapters/big_query_adapter.rb:69-73 | after `reconnect!` as written, every query through the adapter fails with the generic translation of NoMethodError, whatever the warehouse would answer |
| Adapter.QueryAfterReconnect | lib/active_record/connection_adapters/big_query_adapter.rb:69-73 | after the intended reconnect, a query returns the new driver's marshalled answer, or the translation of the client's exception |

## Left out

- The Google Cloud client (`Google::Cloud::Bigquery.new`, `query`, `datasets`, `tables`, `service.get_table`) makes network calls. What it would answer is an input of each call. The model also leaves out client pagination and authentication failures.
- Dates.IsYmdDate: a strict test for exactly eight ASCII digits forming a valid proleptic-Gregorian `YYYYMMDD`. It approximates `Date.strptime(s, '%Y%m%d')`, which also accepts variable-width fields and signs and uses the Julian calendar before 1582.
- Driver.RefMatches: the prefix interpolated into the regular expression of `table_ref` is read literally. In the source a `.` there matches any character, and other metacharacters would also act as regex syntax.
- Driver.Connection.constructor: the timeout is kept as an integer. The `to_i` conversion of other timeout values and the timeout's unit are not modelled.
- `active?` runs a remote query and changes nothing. It is not modelled.
- The ActiveRecord machinery is not modelled: `AbstractAdapter`'s `initialize` and `reconnect!` bodies reached through `super`, the logging and instrumentation done by `log`, logger handling, and the generic `translate_exception` of `super`. The last is represented by the `GenericTranslation` outcome. The rescue-and-translate step of `log` is modelled, in `Adapter.BigQueryAdapter.ExecQuery`.
- Adapter.BigQueryAdapter.ExecQuery: the framework builds the message it passes to `translate_exception` from the exception's class and message (and, in some versions, the statement). The model passes the exception's message.
- RubyCore.NoMethodError: the message is `undefined method 'NAME'`, without the receiver's description that Ruby appends and whose wording varies between Ruby versions. Neither part holds a leading code or the timeout phrase, which is all `translate_exception` reads.
- Driver.Connection.TableRefs, Driver.Connection.Tables, Driver.Connection.TableRefFor and Driver.Connection.Columns are built on the corrected `Driver.Connection.Datasets`. With a nil allow-list the source's `tables` and `columns` raise NoMethodError at connection.rb:75 instead (see Findings); `Driver.Connection.DatasetsAsWritten` and `Driver.NilAllowListRaises` model that.
- `Column`, `SqlTypeMetadata` and `ActiveRecord::Result` are modelled as plain records holding the fields the adapter sets.
- `BindSubstitution`, `arel_visitor`, `initialize_type_map` and `alias_type` are framework wiring and are not modelled.
- `DatabaseStatements#execute` calls `@connection.do`, which the driver does not define. It is not modelled.
- `index_name` and `current_database` call methods on `database_metadata`, which the adapter is given as a plain empty hash. They are not modelled.
- Adapter.BigQueryAdapter.ExecQuery: the `name`, binds and `prepare` arguments only feed logging and are dropped.
- SchemaStatements.Columns: `table_name.to_s` is taken to be a string already.

## Findings

| source | as written | input that shows it | evidently intended | confidence | as-written member | corrected member |
|---|---|---|---|---|---|---|
| lib/active_record/connection_adapters/big_query_adapter.rb:71 | `reconnect!` stores the result of `Base.big_query_connection` in `@connection`. That result is a whole new adapter, not a driver. | Any adapter: call `reconnect!`, then `exec_query`. The held adapter has no `run`. The NoMethodError is rescued by `log` and comes back as the framework's generic translation. `active?` raises the NoMethodError directly. | Store a new driver built from the same configuration. | medium, not executed | Adapter.QueryAfterReconnectAsWritten | Adapter.QueryAfterReconnect |
| lib/big_query_adapter/connection.rb:75 | `big_query_connection` always passes `datasets: config[:datasets]` (big_query_adapter.rb:22). A configuration without `datasets` therefore sets the allow-list to nil instead of the keyword default `[]`, and `datasets` then calls `empty?` on nil. | A configuration without a `datasets` key, then `tables` or `columns`: NoMethodError. | An absent allow-list means all datasets. | medium, not executed | Driver.Connection.DatasetsAsWritten | Driver.Connection.Datasets |
