/**
 * `ActiveRecord::ConnectionAdapters::BigQueryAdapter`: the adapter object that
 * holds the driver, answers the capability questions, classifies native errors
 * and reconnects; and `Base.big_query_connection`, which builds it from a
 * configuration.
 */
module Adapter {
  import opened Wrappers
  import opened RubyCore
  import DatabaseStatements
  import Driver

  // ---------------------------------------------------------------------
  // Error translation

  const ErrDuplicateKeyValue: nat := 23505
  const ErrQueryTimedOut: nat := 57014
  /** `ERR_QUERY_TIMED_OUT_MESSAGE`, a pattern without metacharacters. */
  const QueryTimedOutMessage: string := "Query has timed out"

  /** What `translate_exception` returns, each carrying the message and the original exception. */
  datatype TranslatedError =
    | RecordNotUnique(message: string, cause: NativeException)
    | QueryTimeoutError(message: string, cause: NativeException)
    | GenericTranslation(message: string, cause: NativeException)   // the framework's own translation

  /** `/^\d+/` can start matching at `i`: a digit at the start of the text or of a line. */
  predicate NumberStart(s: string, i: int) {
    0 <= i < |s| && IsDigit(s[i]) && (i == 0 || s[i - 1] == '\n')
  }

  /** The leftmost index from `from` on where `/^\d+/` can start, or nil. */
  function FirstNumberStart(s: string, from: nat): (r: Option<nat>)
    requires from <= |s|
    ensures r.None? <==> forall i :: from <= i < |s| ==> !NumberStart(s, i)
    ensures r.Some? ==> from <= r.value < |s| && NumberStart(s, r.value) &&
                        forall i :: from <= i < r.value ==> !NumberStart(s, i)
    decreases |s| - from
  {
    if from == |s| then None
    else if NumberStart(s, from) then Some(from)
    else FirstNumberStart(s, from + 1)
  }

  /** The end of the greedy run of digits starting at `i`. */
  function DigitRunEnd(s: string, i: nat): (j: nat)
    requires i <= |s|
    ensures i <= j <= |s|
    ensures forall k :: i <= k < j ==> IsDigit(s[k])
    ensures j == |s| || !IsDigit(s[j])
    decreases |s| - i
  {
    if i < |s| && IsDigit(s[i]) then DigitRunEnd(s, i + 1) else i
  }

  /** `exception.message[/^\d+/]`: the first run of digits that begins a line, or nil. */
  function LeadingNumber(s: string): (r: Option<string>)
    ensures r.None? <==> forall i :: 0 <= i < |s| ==> !NumberStart(s, i)
    ensures r.Some? ==> exists i :: FirstNumberStart(s, 0) == Some(i) && r.value == s[i..DigitRunEnd(s, i)]
    ensures r.Some? ==> r.value != "" && AllDigits(r.value)
  {
    match FirstNumberStart(s, 0)
    case None => None
    case Some(i) =>
      var j := DigitRunEnd(s, i);
      assert forall k :: 0 <= k < j - i ==> s[i..j][k] == s[i + k];
      Some(s[i..j])
  }

  /** `... .to_i`: the number that run spells, 0 for nil. */
  function ErrorNumber(message: string): nat {
    match LeadingNumber(message)
    case None => 0
    case Some(digits) => DecimalValue(digits)
  }

  /** `translate_exception`: duplicate key first, then timeout by code or by phrase, else the framework's translation. */
  function TranslateException(e: NativeException, message: string): (r: TranslatedError)
    ensures r.message == message && r.cause == e
    ensures r.RecordNotUnique? <==> ErrorNumber(e.message) == ErrDuplicateKeyValue
    ensures r.QueryTimeoutError? <==>
      ErrorNumber(e.message) != ErrDuplicateKeyValue &&
      (ErrorNumber(e.message) == ErrQueryTimedOut || Contains(e.message, QueryTimedOutMessage))
    ensures r.GenericTranslation? <==>
      ErrorNumber(e.message) != ErrDuplicateKeyValue && ErrorNumber(e.message) != ErrQueryTimedOut &&
      !Contains(e.message, QueryTimedOutMessage)
  {
    var number := ErrorNumber(e.message);
    if number == ErrDuplicateKeyValue then RecordNotUnique(message, e)
    else if number == ErrQueryTimedOut || Contains(e.message, QueryTimedOutMessage) then QueryTimeoutError(message, e)
    else GenericTranslation(message, e)
  }

  /** A message that starts with a code reads as that code, whatever follows a non-digit. */
  lemma ErrorNumberOfLeadingCode(code: string, rest: string)
    requires code != "" && AllDigits(code)
    requires rest == "" || !IsDigit(rest[0])
    ensures ErrorNumber(code + rest) == DecimalValue(code)
  {
    var s := code + rest;
    assert NumberStart(s, 0);
    var j := DigitRunEnd(s, 0);
    assert forall k :: 0 <= k < |code| ==> s[k] == code[k];
    if rest != "" {
      assert s[|code|] == rest[0];
    }
    assert j == |code|;
    assert s[0..j] == code;
  }

  /** A code at the start of a later line counts when the first line holds none. */
  lemma ErrorNumberOfSecondLine(first: string, code: string, rest: string)
    requires first != "" && !IsDigit(first[0]) && '\n' !in first
    requires code != "" && AllDigits(code)
    requires rest == "" || !IsDigit(rest[0])
    ensures ErrorNumber(first + "\n" + code + rest) == DecimalValue(code)
  {
    var s := first + "\n" + code + rest;
    var n := |first| + 1;
    forall i | 0 <= i < n ensures !NumberStart(s, i) {
      if i == |first| {
        assert s[i] == '\n';
      } else if i > 0 {
        assert s[i - 1] == first[i - 1];
      }
    }
    assert NumberStart(s, n);
    var j := DigitRunEnd(s, n);
    assert forall k :: 0 <= k < |code| ==> s[n + k] == code[k];
    if rest != "" {
      assert s[n + |code|] == rest[0];
    }
    assert j == n + |code|;
    assert s[n..j] == code;
    assert FirstNumberStart(s, 0) == Some(n);
  }

  /** Without a digit at the start of a line the error number is 0. */
  lemma ErrorNumberWithoutLeadingDigits(s: string)
    requires forall i :: 0 <= i < |s| ==> !NumberStart(s, i)
    ensures ErrorNumber(s) == 0
  {
  }

  /** A single line that does not start with a digit has no digit at a line start. */
  lemma OneLineWithoutLeadingDigit(s: string)
    requires s == "" || !IsDigit(s[0])
    requires '\n' !in s
    ensures forall i :: 0 <= i < |s| ==> !NumberStart(s, i)
  {
    forall i | 0 <= i < |s| ensures !NumberStart(s, i) {
      if i > 0 {
        assert s[i - 1] in s;
      }
    }
  }

  lemma DecimalValueOfCodes()
    ensures DecimalValue("23505") == ErrDuplicateKeyValue
    ensures DecimalValue("57014") == ErrQueryTimedOut
    ensures DecimalValue("42") == 42
  {
    assert "23505"[..4] == "2350" && "2350"[..3] == "235" && "235"[..2] == "23" && "23"[..1] == "2" && "2"[..0] == "";
    assert "57014"[..4] == "5701" && "5701"[..3] == "570" && "570"[..2] == "57" && "57"[..1] == "5" && "5"[..0] == "";
    assert "42"[..1] == "4" && "4"[..0] == "";
  }

  lemma ShortTextLacksPhrase(s: string)
    requires |s| < |QueryTimedOutMessage|
    ensures !Contains(s, QueryTimedOutMessage)
  {
  }

  lemma PhraseIsContained(p: string, q: string)
    ensures Contains(p + QueryTimedOutMessage + q, QueryTimedOutMessage)
  {
    var s := p + QueryTimedOutMessage + q;
    assert s[|p|..|p| + |QueryTimedOutMessage|] == QueryTimedOutMessage;
    assert OccursAt(s, QueryTimedOutMessage, |p|);
  }

  /** Code 23505 gives `RecordNotUnique`, even when the text also says the query timed out. */
  lemma DuplicateKeyWins(e: NativeException, rest: string, message: string)
    requires e.message == "23505" + rest
    requires rest == "" || !IsDigit(rest[0])
    ensures TranslateException(e, message) == RecordNotUnique(message, e)
  {
    ErrorNumberOfLeadingCode("23505", rest);
    DecimalValueOfCodes();
  }

  /** Code 57014 gives `QueryTimeoutError`. */
  lemma TimeoutCodeTranslated(e: NativeException, rest: string, message: string)
    requires e.message == "57014" + rest
    requires rest == "" || !IsDigit(rest[0])
    ensures TranslateException(e, message) == QueryTimeoutError(message, e)
  {
    ErrorNumberOfLeadingCode("57014", rest);
    DecimalValueOfCodes();
  }

  /** The phrase anywhere gives `QueryTimeoutError` unless the code is 23505. */
  lemma TimeoutPhraseTranslated(e: NativeException, p: string, q: string, message: string)
    requires e.message == p + QueryTimedOutMessage + q
    requires ErrorNumber(e.message) != ErrDuplicateKeyValue
    ensures TranslateException(e, message) == QueryTimeoutError(message, e)
  {
    PhraseIsContained(p, q);
  }

  /** A code on the second line is still read: `23505` there is a duplicate key. */
  lemma DuplicateKeyOnSecondLine(first: string, rest: string, message: string)
    requires first != "" && !IsDigit(first[0]) && '\n' !in first
    requires rest == "" || !IsDigit(rest[0])
    ensures TranslateException(NativeException(first + "\n" + "23505" + rest), message).RecordNotUnique?
  {
    ErrorNumberOfSecondLine(first, "23505", rest);
    DecimalValueOfCodes();
  }

  /** Other codes fall through: `42P01: no table` leads with 42. */
  lemma OtherCodeFallsThrough(message: string)
    ensures TranslateException(NativeException("42P01: no table"), message).GenericTranslation?
  {
    assert "42P01: no table" == "42" + "P01: no table";
    ErrorNumberOfLeadingCode("42", "P01: no table");
    DecimalValueOfCodes();
    ShortTextLacksPhrase("42P01: no table");
  }

  /** A code that does not begin a line is not read: `Error 23505` has error number 0 and falls through. */
  lemma MidLineCodeFallsThrough(message: string)
    ensures TranslateException(NativeException("Error 23505"), message).GenericTranslation?
  {
    OneLineWithoutLeadingDigit("Error 23505");
    ErrorNumberWithoutLeadingDigits("Error 23505");
    ShortTextLacksPhrase("Error 23505");
  }

  /** A `NoMethodError` names no code and not the phrase, so it gets the framework's translation. */
  lemma NoMethodErrorFallsThrough(name: string, message: string)
    requires '\n' !in name && 'Q' !in name
    ensures TranslateException(NoMethodError(name), message).GenericTranslation?
  {
    var pre, post := "undefined method '", "'";
    var s := NoMethodError(name).message;
    assert s == pre + name + post;
    assert '\n' !in pre && 'Q' !in pre && '\n' !in post && 'Q' !in post;
    assert s[0] == pre[0];
    assert forall c :: c in s ==> c in pre || c in name || c in post;
    OneLineWithoutLeadingDigit(s);
    ErrorNumberWithoutLeadingDigits(s);
    NotContainsWithoutFirstCharacter(s, QueryTimedOutMessage);
  }

  // ---------------------------------------------------------------------
  // The adapter object

  /** The configuration keys `big_query_connection` reads. */
  datatype Config = Config(keyfile: Option<string>, project: Option<string>, datasets: Option<seq<string>>)

  /** What `@connection` holds: normally the driver, but the adapter itself can store another adapter there. */
  datatype Held = RawConnection(raw: Driver.Connection) | NestedAdapter(adapter: BigQueryAdapter)

  /** `c` is the driver `big_query_connection` builds from `config`: its keys passed through, no timeout. */
  predicate BuiltFrom(c: Driver.Connection, config: Config) {
    c.project == config.project && c.keyfile == config.keyfile &&
    c.datasetIds == config.datasets && c.timeout == None
  }

  class BigQueryAdapter {
    var connection: Held
    const config: Config
    const databaseMetadata: map<string, string>

    /** `initialize`: the framework stores the connection and the configuration; the adapter the metadata. */
    constructor (connection: Held, config: Config, databaseMetadata: map<string, string>)
      ensures this.connection == connection && this.config == config && this.databaseMetadata == databaseMetadata
    {
      this.connection := connection;
      this.config := config;
      this.databaseMetadata := databaseMetadata;
    }

    /** `@connection` is the driver, as the mixed-in statements expect. */
    predicate HoldsDriver()
      reads this
    {
      connection.RawConnection?
    }

    /** `adapter_name`. */
    function AdapterName(): (r: string)
      ensures r == "BigQuery"
    {
      "BigQuery"
    }

    /** `disconnect!`: does nothing and answers false. */
    function Disconnect(): (r: bool)
      ensures !r
    {
      false
    }

    /** `prepared_statements`. */
    function PreparedStatements(): (r: bool)
      ensures !r
    {
      false
    }

    /** `supports_migrations?`. */
    function SupportsMigrations(): (r: bool)
      ensures !r
    {
      false
    }

    /**
     * `exec_query` as the adapter runs it: the block runs on the held object
     * inside `log`, which rescues what the block raises and raises its
     * `translate_exception` instead. A held adapter has no `run`.
     */
    method ExecQuery(sql: string, answer: Result<Driver.QueryAnswer, NativeException>)
      returns (r: Result<DatabaseStatements.RecordResult, TranslatedError>)
      ensures connection.RawConnection? && answer.Success? ==>
        r == Success(DatabaseStatements.RecordResult(Driver.Marshalled(answer.value).columns, Driver.Marshalled(answer.value).rows))
      ensures connection.RawConnection? && answer.Failure? ==>
        r == Failure(TranslateException(answer.error, answer.error.message))
      ensures connection.NestedAdapter? ==>
        r == Failure(TranslateException(NoMethodError("run"), NoMethodError("run").message)) &&
        r.error.GenericTranslation?
    {
      var block: Result<DatabaseStatements.RecordResult, NativeException>;
      match connection {
        case RawConnection(raw) =>
          var _, result := DatabaseStatements.ExecQuery(raw, sql, answer);
          block := result;
        case NestedAdapter(_) =>
          block := Failure(NoMethodError("run"));
          NoMethodErrorFallsThrough("run", NoMethodError("run").message);
      }
      match block {
        case Success(result) =>
          r := Success(result);
        case Failure(e) =>
          r := Failure(TranslateException(e, e.message));
      }
    }

    /** `reconnect!` as written: stores what `big_query_connection` returns, which is a new adapter. */
    method ReconnectAsWritten()
      modifies this
      ensures connection.NestedAdapter? && fresh(connection.adapter)
      ensures connection.adapter.config == config && connection.adapter.HoldsDriver()
      ensures BuiltFrom(connection.adapter.connection.raw, config)
    {
      var _ := Disconnect();
      var adapter := BigQueryConnection(config);
      connection := NestedAdapter(adapter);
    }

    /** `reconnect!` (and `reset!`) as intended: a new driver built from the unchanged configuration. */
    method Reconnect()
      modifies this
      ensures HoldsDriver() && fresh(connection.raw)
      ensures BuiltFrom(connection.raw, config)
    {
      var _ := Disconnect();
      var raw := NewConnection(config);
      connection := RawConnection(raw);
    }
  }

  /** The driver `big_query_connection` builds. */
  method NewConnection(config: Config) returns (c: Driver.Connection)
    ensures fresh(c) && BuiltFrom(c, config)
  {
    c := new Driver.Connection(config.project, config.keyfile, None, config.datasets);
  }

  /** `Base.big_query_connection`: a new adapter over a new driver, with empty metadata. */
  method BigQueryConnection(config: Config) returns (a: BigQueryAdapter)
    ensures fresh(a) && a.HoldsDriver() && fresh(a.connection.raw)
    ensures BuiltFrom(a.connection.raw, config)
    ensures a.config == config && a.databaseMetadata == map[]
  {
    var raw := NewConnection(config);
    a := new BigQueryAdapter(RawConnection(raw), config, map[]);
  }

  /** After `reconnect!` as written, every query through the adapter raises, whatever the warehouse would answer. */
  method QueryAfterReconnectAsWritten(a: BigQueryAdapter, sql: string, answer: Result<Driver.QueryAnswer, NativeException>)
    returns (r: Result<DatabaseStatements.RecordResult, TranslatedError>)
    modifies a
    ensures r == Failure(TranslateException(NoMethodError("run"), NoMethodError("run").message))
    ensures r.error.GenericTranslation?
  {
    a.ReconnectAsWritten();
    r := a.ExecQuery(sql, answer);
  }

  /** After the intended reconnect, queries reach the new driver. */
  method QueryAfterReconnect(a: BigQueryAdapter, sql: string, answer: Result<Driver.QueryAnswer, NativeException>)
    returns (r: Result<DatabaseStatements.RecordResult, TranslatedError>)
    modifies a
    ensures answer.Success? ==>
      r == Success(DatabaseStatements.RecordResult(Driver.Marshalled(answer.value).columns, Driver.Marshalled(answer.value).rows))
    ensures answer.Failure? ==> r == Failure(TranslateException(answer.error, answer.error.message))
  {
    a.Reconnect();
    r := a.ExecQuery(sql, answer);
  }
}
