/**
 * The decision logic of `JdbcDataSource`: argument guards and trimming in
 * front of the named-parameter JDBC template, the paging arithmetic of
 * `queryByPage`, the bulk insert/update helpers, transaction definitions with
 * their generated names, and the close state machine.
 *
 * The database, `SqlUtils`, `DialectFactory` and `Page.getPages` are not
 * interpreted: they are the function-valued fields of `Database` and
 * `SqlLibrary`, and every statement is stated in terms of what they return.
 */
module Jdbc {
  import opened Wrappers
  import opened JavaString
  import opened JavaInt

  /** Largest page size `queryByPage` will ask for. */
  const MAX_PAGE_SIZE: int := 1000
  /** Prefix of every generated transaction name. */
  const TRANSACTION_NAME_PREFIX: string := "TX"
  /** `TransactionDefinition.PROPAGATION_REQUIRED`, the first propagation constant. */
  const PROPAGATION_REQUIRED: Int32 := 0
  /** `TransactionDefinition.PROPAGATION_NESTED`, the last propagation constant. */
  const PROPAGATION_NESTED: Int32 := 6
  /** `TransactionDefinition.ISOLATION_DEFAULT`. */
  const ISOLATION_DEFAULT: Int32 := -1
  /** Timeout that means "no timeout". */
  const NO_TIMEOUT: Int32 := -1

  /** A column or parameter value, as far as this layer distinguishes values. */
  datatype Value = Null | Long(n: int) | Text(s: string) | Flag(b: bool) | Other(tag: string)

  /** A `Map<String, Object>`: a row, a parameter map, a set of fields. */
  type Fields = map<string, Value>
  type Row = Fields
  /** A `Map<String, Object>` argument that may be `null`. */
  type JavaMap = Option<Fields>

  /**
   * What the layer throws. `IllegalArgument` names the argument that a
   * Spring `Assert` rejected; `DataAccess` stands for whatever the template
   * or driver throws.
   */
  datatype Error =
    | IllegalArgument(argument: string)
    | UnsupportedOperation
    | IndexOutOfBounds(index: int)
    | DataAccess(detail: string)

  /** The parameter source handed to the template for inserts and batch updates. */
  datatype ParamSource = MapSource(values: JavaMap) | EmptySource

  /** `InsertResult`: affected row count and the generated keys, one map per row. */
  datatype InsertResult = InsertResult(insertCount: int, keys: seq<Row>)

  /** The scalar result classes of the single-value queries. */
  datatype ScalarType = StringType | DoubleType | BigDecimalType | BooleanType | DateType

  /** How a cursor read hands rows to its consumer. */
  datatype CursorMode = InBatches(batchSize: int) | RowByRow

  /** The template call a cursor read makes: with or without a parameter map. */
  datatype CursorCall = Plain(sql: string, mode: CursorMode) | WithParams(sql: string, params: Fields, mode: CursorMode)

  /** Database product, as detected once from the connection URL. */
  datatype DbType = DbType(name: string)

  /** Sort configuration (`QueryBySort`): order columns and their directions, in order. */
  datatype SortSpec = SortSpec(orderFields: seq<string>, sorts: seq<Option<string>>)

  /** Paging configuration (`QueryByPage`, which extends `QueryBySort`). */
  datatype Pagination = Pagination(pageNo: int, pageSize: int, sort: SortSpec)

  /** `OrderItem`: a column and whether it is sorted ascending. */
  datatype OrderItem = OrderItem(column: string, asc: bool)

  /** Transaction settings handed to the transaction template. */
  datatype TxDefinition = TxDefinition(name: string, propagation: Int32, timeout: Int32, isolation: Int32, readOnly: bool)

  /** The named-parameter JDBC template, seen as an oracle. */
  datatype Database = Database(
    queryForMap: (string, JavaMap) -> Result<Row, Error>,
    queryForList: (string, JavaMap) -> Result<seq<Row>, Error>,
    queryForLong: (string, JavaMap) -> Result<Option<int>, Error>,
    queryForScalar: (string, JavaMap, ScalarType) -> Result<Value, Error>,
    update: (string, JavaMap) -> Result<int, Error>,
    insert: (string, ParamSource) -> Result<InsertResult, Error>,
    batchUpdate: (string, seq<ParamSource>) -> Result<seq<int>, Error>)

  /** The SQL text builders this class calls but does not define. */
  datatype SqlLibrary = SqlLibrary(
    countSql: string -> string,
    updateSql: (string, Fields, JavaMap, bool) -> (string, Fields),
    insertSql: (string, JavaMap, bool) -> (string, Fields),
    concatOrderBy: (string, Option<SortSpec>) -> string,
    paginationSql: (int, int, string, JavaMap, DbType) -> string,
    pages: (int, int) -> int,
    asc: string)

  /** The assumption about `Page.getPages` under which the clamp bound is stated. */
  ghost predicate PagesIsCeiling(lib: SqlLibrary) {
    forall total: int, size: int :: total >= 0 && size > 0 ==> lib.pages(total, size) == (total + size - 1) / size
  }

  /** `Assert.notEmpty` for a map: present and non-empty. */
  predicate NotEmpty(m: JavaMap) {
    m.Some? && m.value != map[]
  }

  function Min(a: int, b: int): int {
    if a <= b then a else b
  }

  /**
   * The guard and normalisation every SQL entry point applies: blank SQL is
   * rejected, anything else is trimmed.
   */
  function CheckedSql(sql: string): (r: Result<string, Error>)
    ensures r.Failure? <==> IsBlank(sql)
    ensures r.Failure? ==> r.error == IllegalArgument("sql")
    ensures r.Success? ==> r.value == Trim(sql) && Trimmed(r.value)
  {
    if IsBlank(sql) then Failure(IllegalArgument("sql")) else Success(Trim(sql))
  }

  /** The parameter source `insert` chooses: the map only when it is present and non-empty. */
  function InsertParams(paramMap: JavaMap): (p: ParamSource)
    ensures p.EmptySource? <==> paramMap.None? || paramMap.value == map[]
    ensures p.MapSource? ==> p.values == paramMap
  {
    if paramMap.Some? && |paramMap.value| > 0 then MapSource(paramMap) else EmptySource
  }

  /** The parameter sources `batchUpdate` builds: element `i` wraps the `i`-th map. */
  function ParamSources(maps: seq<JavaMap>): (r: seq<ParamSource>)
    ensures |r| == |maps|
    ensures forall i :: 0 <= i < |maps| ==> r[i] == MapSource(maps[i])
  {
    seq(|maps|, i requires 0 <= i < |maps| => MapSource(maps[i]))
  }

  /** The SQL the string form of `updateTable` executes: the generated update, then the where clause. */
  function WhereSql(updateSql: string, where: string): string {
    Trim(updateSql + " where " + Trim(where))
  }

  /** The executed update ends with the caller's condition, trimmed, after the `where` keyword. */
  lemma WhereSqlEndsWithCondition(updateSql: string, where: string)
    requires Trim(where) != []
    ensures EndsWith(WhereSql(updateSql, where), "where " + Trim(where))
  {
    var w := Trim(where);
    var tail := "where " + w;
    assert tail[0] == 'w';
    assert tail[|tail| - 1] == w[|w| - 1];
    TrimKeepsTail(updateSql + " ", tail);
    assert updateSql + " where " + w == (updateSql + " ") + tail;
  }

  /** The SQL the fixed tail " where " keeps from ever being blank. */
  lemma WhereSqlNotBlank(updateSql: string, where: string)
    ensures !IsBlank(updateSql + " where " + Trim(where))
  {
    var s := updateSql + " where " + Trim(where);
    assert s[|updateSql| + 1] == 'w';
  }

  /** The name of the transaction whose serial number is `n`: "TX+n", or "TX" and the sign when n < 0. */
  function TxName(n: Int32): (s: string)
    ensures StartsWith(s, TRANSACTION_NAME_PREFIX)
  {
    if n < 0 then TRANSACTION_NAME_PREFIX + IntToString(n) else TRANSACTION_NAME_PREFIX + "+" + IntToString(n)
  }

  /** Spring's propagation constants: REQUIRED, SUPPORTS, MANDATORY, REQUIRES_NEW, NOT_SUPPORTED, NEVER, NESTED. */
  predicate ValidPropagation(propagation: Int32) {
    PROPAGATION_REQUIRED <= propagation <= PROPAGATION_NESTED
  }

  /** Spring's isolation constants: DEFAULT, READ_UNCOMMITTED, READ_COMMITTED, REPEATABLE_READ, SERIALIZABLE. */
  predicate ValidIsolation(isolation: Int32) {
    isolation == ISOLATION_DEFAULT || isolation == 1 || isolation == 2 || isolation == 4 || isolation == 8
  }

  /**
   * The `DefaultTransactionDefinition` that `createTransactionDefinition`
   * fills in: the name is set first, then the propagation, the timeout and
   * the isolation, each setter refusing a value outside Spring's constants
   * (a timeout below "no timeout") with an `IllegalArgumentException`.
   */
  function Definition(name: string, propagation: Int32, timeout: Int32, isolation: Int32, readOnly: bool): (r: Result<TxDefinition, Error>)
    ensures r.Success? <==> ValidPropagation(propagation) && timeout >= NO_TIMEOUT && ValidIsolation(isolation)
    ensures r.Success? ==> r.value == TxDefinition(name, propagation, timeout, isolation, readOnly)
    ensures !ValidPropagation(propagation) ==> r == Failure(IllegalArgument("propagationBehavior"))
    ensures ValidPropagation(propagation) && timeout < NO_TIMEOUT ==> r == Failure(IllegalArgument("timeout"))
    ensures ValidPropagation(propagation) && timeout >= NO_TIMEOUT && !ValidIsolation(isolation) ==>
      r == Failure(IllegalArgument("isolationLevel"))
  {
    if !ValidPropagation(propagation) then Failure(IllegalArgument("propagationBehavior"))
    else if timeout < NO_TIMEOUT then Failure(IllegalArgument("timeout"))
    else if !ValidIsolation(isolation) then Failure(IllegalArgument("isolationLevel"))
    else Success(TxDefinition(name, propagation, timeout, isolation, readOnly))
  }

  /** Different serial numbers give different transaction names. */
  lemma TxNameInjective(a: Int32, b: Int32)
    requires TxName(a) == TxName(b)
    ensures a == b
  {
    var s := TxName(a);
    if a < 0 {
      assert s[2] == '-';
      assert b < 0;
      assert IntToString(a) == s[2..] == IntToString(b);
    } else {
      assert s[2] == '+';
      assert b >= 0;
      assert IntToString(a) == s[3..] == IntToString(b);
    }
    IntToStringInjective(a, b);
  }

  /** The serial number after `k` calls of `getNextTransactionName` starting from `c`. */
  function CounterAfter(c: Int32, k: nat): Int32 {
    if k == 0 then c else Wrap(CounterAfter(c, k - 1) + 1)
  }

  /** One more call adds one, in `int` arithmetic. */
  lemma CounterStepWraps(c: Int32, k: nat)
    requires k > 0 && CounterAfter(c, k - 1) == Wrap(c + (k - 1))
    ensures CounterAfter(c, k) == Wrap(c + k)
  {
    WrapAdd(c + (k - 1), 1);
  }

  /** After `k` calls the counter is the start value plus `k`, wrapped to an `int`. */
  lemma {:induction false} CounterAfterWraps(c: Int32, k: nat)
    ensures CounterAfter(c, k) == Wrap(c + k)
  {
    if k == 0 {
      assert Wrap(c) == c;
    } else {
      CounterAfterWraps(c, k - 1);
      CounterStepWraps(c, k);
    }
  }

  /** Names are distinct as long as fewer than 2^32 calls separate them. */
  lemma NamesDistinctBeforeWrap(c: Int32, i: nat, j: nat)
    requires i < j < i + TWO_32
    ensures TxName(CounterAfter(c, i)) != TxName(CounterAfter(c, j))
  {
    var x, y := CounterAfter(c, i), CounterAfter(c, j);
    CounterAfterWraps(c, i);
    CounterAfterWraps(c, j);
    WrapDistinct(c + i, c + j);
    assert x != y;
    if TxName(x) == TxName(y) {
      TxNameInjective(x, y);
    }
  }

  /** Exactly 2^32 calls later the same name comes round again. */
  lemma NamesRepeatAfterWrap(c: Int32, i: nat)
    ensures TxName(CounterAfter(c, i)) == TxName(CounterAfter(c, i + TWO_32))
  {
    var k: nat := i + TWO_32;
    CounterAfterWraps(c, i);
    CounterAfterWraps(c, k);
    WrapPeriod(c + i);
    assert CounterAfter(c, i) == CounterAfter(c, k);
  }

  /** Past `Integer.MAX_VALUE` the counter wraps to `Integer.MIN_VALUE` and names switch from "TX+" to "TX-". */
  lemma NameAfterMaxValue(c: Int32)
    requires c == INT_MAX
    ensures CounterAfter(c, 1) == INT_MIN
    ensures TxName(c)[..3] == "TX+"
    ensures TxName(CounterAfter(c, 1))[..3] == "TX-"
  {
    assert CounterAfter(c, 1) == Wrap(c + 1);
  }

  /** The page object `queryByPage` fills and returns. */
  class Page {
    var current: int
    var size: int
    var total: int
    var searchCount: bool
    var records: seq<Row>
    var orders: seq<OrderItem>

    /** `new Page(current, size)`: no total yet, count search on, no records, no orders. */
    constructor (current: int, size: int)
      ensures this.current == current && this.size == size
      ensures total == 0 && searchCount && records == [] && orders == []
    {
      this.current := current;
      this.size := size;
      total := 0;
      searchCount := true;
      records := [];
      orders := [];
    }
  }

  /** The page number after the clamp: never above the page count. */
  function ClampedPage(current: int, pages: int): (r: int)
    ensures r <= pages
    ensures current <= pages ==> r == current
    ensures current > pages ==> r == pages
  {
    if current > pages then pages else current
  }

  /** Whether an order item is ascending: the trimmed direction equals the library's ASC ignoring case. */
  function IsAsc(lib: SqlLibrary, sort: Option<string>): bool {
    EqualsIgnoreCase(lib.asc, TrimOrNull(sort))
  }

  /** The order items of a sort configuration: one per order field, in order, while directions last. */
  function Orders(lib: SqlLibrary, sort: SortSpec): (r: seq<OrderItem>)
    requires |sort.sorts| >= |sort.orderFields|
    ensures |r| == |sort.orderFields|
    ensures forall i :: 0 <= i < |r| ==> r[i] == OrderItem(sort.orderFields[i], IsAsc(lib, sort.sorts[i]))
  {
    seq(|sort.orderFields|, i requires 0 <= i < |sort.orderFields| => OrderItem(sort.orderFields[i], IsAsc(lib, sort.sorts[i])))
  }

  /**
   * The order loop of `queryByPage`: `addOrder` once per order field; the
   * direction list running out first is an `IndexOutOfBoundsException`
   * after the items added so far.
   */
  method AddOrders(lib: SqlLibrary, page: Page, sort: SortSpec) returns (ok: bool)
    modifies page`orders
    ensures ok <==> |sort.sorts| >= |sort.orderFields|
    ensures ok ==> page.orders == old(page.orders) + Orders(lib, sort)
    ensures !ok ==> page.orders == old(page.orders) + Orders(lib, SortSpec(sort.orderFields[..|sort.sorts|], sort.sorts))
  {
    var orderFields := sort.orderFields;
    var sorts := sort.sorts;
    var i := 0;
    while i < |orderFields|
      invariant 0 <= i <= |orderFields| && i <= |sorts|
      invariant page.orders == old(page.orders) + Orders(lib, SortSpec(orderFields[..i], sorts))
    {
      if i >= |sorts| {
        return false;
      }
      var orderItem := OrderItem(orderFields[i], IsAsc(lib, sorts[i]));
      page.orders := page.orders + [orderItem];
      i := i + 1;
      assert Orders(lib, SortSpec(orderFields[..i], sorts)) == Orders(lib, SortSpec(orderFields[..i - 1], sorts)) + [orderItem];
    }
    assert orderFields[..i] == orderFields;
    ok := true;
  }

  /** Under the ceiling assumption the clamped page never passes the last page, and an empty result gives page 0. */
  lemma ClampedWithinLastPage(lib: SqlLibrary, current: int, total: int, size: int)
    requires PagesIsCeiling(lib) && total >= 0 && size > 0
    ensures ClampedPage(current, lib.pages(total, size)) <= (total + size - 1) / size
    ensures current <= (total + size - 1) / size ==> ClampedPage(current, lib.pages(total, size)) == current
    ensures total == 0 && current >= 1 ==> ClampedPage(current, lib.pages(total, size)) == 0
  {
    assert lib.pages(total, size) == (total + size - 1) / size;
    if total == 0 {
      assert (size - 1) / size == 0;
    }
  }

  /** A `JdbcDataSource`: a template over one connection source, with its close state and transaction counter. */
  class JdbcDataSource {
    const db: Database
    const lib: SqlLibrary
    const dbType: DbType
    /** Whether the connection source is a `HikariDataSource` instance. */
    const hikari: bool
    /** `HikariDataSource.isClosed()` for a Hikari source. */
    var poolClosed: bool
    /** The `closed` flag of the base class. */
    var closed: bool
    /** `transactionSerialNumber`, a Java `int`. */
    var transactionSerialNumber: Int32

    /** `new JdbcDataSource(HikariConfig)`: builds and owns a fresh Hikari pool. */
    constructor FromHikariConfig(db: Database, lib: SqlLibrary, dbType: DbType)
      ensures this.db == db && this.lib == lib && this.dbType == dbType
      ensures hikari && !poolClosed && !closed && transactionSerialNumber == 0
    {
      this.db := db;
      this.lib := lib;
      this.dbType := dbType;
      hikari := true;
      poolClosed := false;
      closed := false;
      transactionSerialNumber := 0;
    }

    /**
     * `new JdbcDataSource(DataSource)` and the two template constructors:
     * wrap a source built elsewhere, which may itself be a Hikari pool.
     */
    constructor FromDataSource(db: Database, lib: SqlLibrary, dbType: DbType, isHikari: bool, isPoolClosed: bool)
      ensures this.db == db && this.lib == lib && this.dbType == dbType
      ensures hikari == isHikari && poolClosed == isPoolClosed && !closed && transactionSerialNumber == 0
    {
      this.db := db;
      this.lib := lib;
      this.dbType := dbType;
      hikari := isHikari;
      poolClosed := isPoolClosed;
      closed := false;
      transactionSerialNumber := 0;
    }

    /** `queryMap`: one row as a map. */
    function QueryMap(sql: string, paramMap: JavaMap): (r: Result<Row, Error>)
      ensures IsBlank(sql) ==> r == Failure(IllegalArgument("sql"))
      ensures !IsBlank(sql) ==> r == db.queryForMap(Trim(sql), paramMap)
    {
      match CheckedSql(sql)
      case Failure(e) => Failure(e)
      case Success(s) => db.queryForMap(s, paramMap)
    }

    /** `queryList`: all rows. */
    function QueryList(sql: string, paramMap: JavaMap): (r: Result<seq<Row>, Error>)
      ensures IsBlank(sql) ==> r == Failure(IllegalArgument("sql"))
      ensures !IsBlank(sql) ==> r == db.queryForList(Trim(sql), paramMap)
    {
      match CheckedSql(sql)
      case Failure(e) => Failure(e)
      case Success(s) => db.queryForList(s, paramMap)
    }

    /** `queryLong`: a single `Long`, which may be null. */
    function QueryLong(sql: string, paramMap: JavaMap): (r: Result<Option<int>, Error>)
      ensures IsBlank(sql) ==> r == Failure(IllegalArgument("sql"))
      ensures !IsBlank(sql) ==> r == db.queryForLong(Trim(sql), paramMap)
    {
      match CheckedSql(sql)
      case Failure(e) => Failure(e)
      case Success(s) => db.queryForLong(s, paramMap)
    }

    /** `queryString`, `queryDouble`, `queryBigDecimal`, `queryBoolean`, `queryDate`: a single value of the given class. */
    function QueryScalar(sql: string, paramMap: JavaMap, resultType: ScalarType): (r: Result<Value, Error>)
      ensures IsBlank(sql) ==> r == Failure(IllegalArgument("sql"))
      ensures !IsBlank(sql) ==> r == db.queryForScalar(Trim(sql), paramMap, resultType)
    {
      match CheckedSql(sql)
      case Failure(e) => Failure(e)
      case Success(s) => db.queryForScalar(s, paramMap, resultType)
    }

    /** `queryCount`: the count query built from the SQL as given; a null total counts as 0. */
    function QueryCount(sql: string, paramMap: JavaMap): (r: Result<int, Error>)
      ensures IsBlank(sql) ==> r == Failure(IllegalArgument("sql"))
      ensures !IsBlank(sql) ==>
        var total := db.queryForLong(Trim(lib.countSql(sql)), paramMap);
        && (total.Failure? ==> r == Failure(total.error))
        && (total == Success(None) ==> r == Success(0))
        && (total.Success? && total.value.Some? ==> r == Success(total.value.value))
    {
      if IsBlank(sql) then Failure(IllegalArgument("sql"))
      else
        match db.queryForLong(Trim(lib.countSql(sql)), paramMap)
        case Failure(e) => Failure(e)
        case Success(None) => Success(0)
        case Success(Some(n)) => Success(n)
    }

    /** The two cursor `query` forms: which template call is made, with the consumer checked first after the SQL. */
    function QueryCursor(sql: string, paramMap: JavaMap, hasConsumer: bool, mode: CursorMode): (r: Result<CursorCall, Error>)
      ensures IsBlank(sql) ==> r == Failure(IllegalArgument("sql"))
      ensures !IsBlank(sql) && !hasConsumer ==> r == Failure(IllegalArgument("consumer"))
      ensures !IsBlank(sql) && hasConsumer ==> r.Success? && r.value.sql == Trim(sql) && r.value.mode == mode
      ensures r.Success? ==> (r.value.Plain? <==> paramMap.None?)
      ensures r.Success? && r.value.WithParams? ==> Some(r.value.params) == paramMap
    {
      if IsBlank(sql) then Failure(IllegalArgument("sql"))
      else if !hasConsumer then Failure(IllegalArgument("consumer"))
      else if paramMap.None? then Success(Plain(Trim(sql), mode))
      else Success(WithParams(Trim(sql), paramMap.value, mode))
    }

    /** `update`: the affected row count. */
    function Update(sql: string, paramMap: JavaMap): (r: Result<int, Error>)
      ensures IsBlank(sql) ==> r == Failure(IllegalArgument("sql"))
      ensures !IsBlank(sql) ==> r == db.update(Trim(sql), paramMap)
    {
      match CheckedSql(sql)
      case Failure(e) => Failure(e)
      case Success(s) => db.update(s, paramMap)
    }

    /**
     * `updateTable` with a where map: table name, fields and where map are
     * checked in that order before any SQL is built; the generated statement
     * is executed trimmed.
     */
    function UpdateTable(tableName: string, fields: JavaMap, whereMap: JavaMap, camelToUnderscore: bool): (r: Result<int, Error>)
      ensures IsBlank(tableName) ==> r == Failure(IllegalArgument("tableName"))
      ensures !IsBlank(tableName) && !NotEmpty(fields) ==> r == Failure(IllegalArgument("fields"))
      ensures !IsBlank(tableName) && NotEmpty(fields) && !NotEmpty(whereMap) ==> r == Failure(IllegalArgument("whereMap"))
      ensures !IsBlank(tableName) && NotEmpty(fields) && NotEmpty(whereMap) ==>
        var gen := lib.updateSql(Trim(tableName), fields.value, whereMap, camelToUnderscore);
        && (IsBlank(Trim(gen.0)) ==> r == Failure(IllegalArgument("sql")))
        && (!IsBlank(Trim(gen.0)) ==> r == db.update(Trim(gen.0), Some(gen.1)))
    {
      if IsBlank(tableName) then Failure(IllegalArgument("tableName"))
      else if !NotEmpty(fields) then Failure(IllegalArgument("fields"))
      else if !NotEmpty(whereMap) then Failure(IllegalArgument("whereMap"))
      else
        var gen := lib.updateSql(Trim(tableName), fields.value, whereMap, camelToUnderscore);
        TrimIdempotent(gen.0);
        Update(Trim(gen.0), Some(gen.1))
    }

    /**
     * `updateTable` with a where string: the generated update without a
     * condition, followed by " where " and the trimmed condition.
     */
    function UpdateTableWhere(tableName: string, fields: JavaMap, where: string, camelToUnderscore: bool): (r: Result<int, Error>)
      ensures IsBlank(tableName) ==> r == Failure(IllegalArgument("tableName"))
      ensures !IsBlank(tableName) && !NotEmpty(fields) ==> r == Failure(IllegalArgument("fields"))
      ensures !IsBlank(tableName) && NotEmpty(fields) && IsBlank(where) ==> r == Failure(IllegalArgument("where"))
      ensures !IsBlank(tableName) && NotEmpty(fields) && !IsBlank(where) ==>
        var gen := lib.updateSql(Trim(tableName), fields.value, None, camelToUnderscore);
        r == db.update(WhereSql(gen.0, where), Some(gen.1))
    {
      if IsBlank(tableName) then Failure(IllegalArgument("tableName"))
      else if !NotEmpty(fields) then Failure(IllegalArgument("fields"))
      else if IsBlank(where) then Failure(IllegalArgument("where"))
      else
        var gen := lib.updateSql(Trim(tableName), fields.value, None, camelToUnderscore);
        WhereSqlNotBlank(gen.0, where);
        Update(gen.0 + " where " + Trim(where), Some(gen.1))
    }

    /** `insert`: the statement runs with the map only when it holds parameters. */
    function Insert(sql: string, paramMap: JavaMap): (r: Result<InsertResult, Error>)
      ensures IsBlank(sql) ==> r == Failure(IllegalArgument("sql"))
      ensures !IsBlank(sql) ==> r == db.insert(Trim(sql), InsertParams(paramMap))
    {
      match CheckedSql(sql)
      case Failure(e) => Failure(e)
      case Success(s) => db.insert(s, InsertParams(paramMap))
    }

    /** One generated insert into an already trimmed table name. */
    function InsertInto(table: string, fields: JavaMap, camelToUnderscore: bool): Result<InsertResult, Error> {
      var gen := lib.insertSql(table, fields, camelToUnderscore);
      Insert(gen.0, Some(gen.1))
    }

    /** The `k`-th insert is the first to fail, and fails with `e`. */
    ghost predicate FirstFailureAt(table: string, list: seq<JavaMap>, camelToUnderscore: bool, k: int, e: Error) {
      && 0 <= k < |list|
      && (forall j :: 0 <= j < k ==> InsertInto(table, list[j], camelToUnderscore).Success?)
      && InsertInto(table, list[k], camelToUnderscore) == Failure(e)
    }

    /** `insertTable`: table name and fields are checked, then one generated insert. */
    function InsertTable(tableName: string, fields: JavaMap, camelToUnderscore: bool): (r: Result<InsertResult, Error>)
      ensures IsBlank(tableName) ==> r == Failure(IllegalArgument("tableName"))
      ensures !IsBlank(tableName) && !NotEmpty(fields) ==> r == Failure(IllegalArgument("fields"))
      ensures !IsBlank(tableName) && NotEmpty(fields) ==> r == InsertInto(Trim(tableName), fields, camelToUnderscore)
    {
      if IsBlank(tableName) then Failure(IllegalArgument("tableName"))
      else if !NotEmpty(fields) then Failure(IllegalArgument("fields"))
      else InsertInto(Trim(tableName), fields, camelToUnderscore)
    }

    /**
     * `insertTables`: one insert per map, in iteration order; the first
     * failing insert ends the call with its error.
     */
    method InsertTables(tableName: string, fieldsList: Option<seq<JavaMap>>, camelToUnderscore: bool)
      returns (r: Result<seq<InsertResult>, Error>)
      ensures IsBlank(tableName) ==> r == Failure(IllegalArgument("tableName"))
      ensures !IsBlank(tableName) && (fieldsList.None? || fieldsList.value == []) ==> r == Failure(IllegalArgument("fieldsList"))
      ensures r.Success? ==>
        && !IsBlank(tableName) && fieldsList.Some?
        && |r.value| == |fieldsList.value|
        && forall i :: 0 <= i < |fieldsList.value| ==> InsertInto(Trim(tableName), fieldsList.value[i], camelToUnderscore) == Success(r.value[i])
      ensures !IsBlank(tableName) && fieldsList.Some? && fieldsList.value != [] && r.Failure? ==>
        exists k :: FirstFailureAt(Trim(tableName), fieldsList.value, camelToUnderscore, k, r.error)
    {
      if IsBlank(tableName) {
        return Failure(IllegalArgument("tableName"));
      }
      if fieldsList.None? || fieldsList.value == [] {
        return Failure(IllegalArgument("fieldsList"));
      }
      var table := Trim(tableName);
      var list := fieldsList.value;
      var results: seq<InsertResult> := [];
      var i := 0;
      while i < |list|
        invariant 0 <= i <= |list|
        invariant |results| == i
        invariant forall j :: 0 <= j < i ==> InsertInto(table, list[j], camelToUnderscore) == Success(results[j])
      {
        var res := InsertInto(table, list[i], camelToUnderscore);
        if res.Failure? {
          assert FirstFailureAt(table, list, camelToUnderscore, i, res.error);
          return Failure(res.error);
        }
        ghost var before := results;
        results := results + [res.value];
        assert forall j :: 0 <= j < i ==> results[j] == before[j];
        assert results[i] == res.value;
        i := i + 1;
      }
      r := Success(results);
    }

    /**
     * `batchUpdate`: an empty list is allowed; the parameter array has one
     * source per map, element `i` wrapping the `i`-th map.
     */
    method BatchUpdate(sql: string, paramMapList: Option<seq<JavaMap>>) returns (r: Result<seq<int>, Error>)
      ensures IsBlank(sql) ==> r == Failure(IllegalArgument("sql"))
      ensures !IsBlank(sql) && paramMapList.None? ==> r == Failure(IllegalArgument("paramMapList"))
      ensures !IsBlank(sql) && paramMapList.Some? ==> r == db.batchUpdate(Trim(sql), ParamSources(paramMapList.value))
    {
      if IsBlank(sql) {
        return Failure(IllegalArgument("sql"));
      }
      if paramMapList.None? {
        return Failure(IllegalArgument("paramMapList"));
      }
      var s := Trim(sql);
      var maps := paramMapList.value;
      var paramMapArray := new ParamSource[|maps|](_ => EmptySource);
      var index := 0;
      while index < |maps|
        invariant 0 <= index <= |maps|
        invariant forall j :: 0 <= j < index ==> paramMapArray[j] == MapSource(maps[j])
      {
        paramMapArray[index] := MapSource(maps[index]);
        index := index + 1;
      }
      assert paramMapArray[..] == ParamSources(maps);
      r := db.batchUpdate(s, paramMapArray[..]);
    }

    /** `queryBySort`: the order-by clause is appended to the trimmed SQL. */
    function QueryBySort(sql: string, sort: Option<SortSpec>, paramMap: JavaMap): (r: Result<seq<Row>, Error>)
      ensures IsBlank(sql) ==> r == Failure(IllegalArgument("sql"))
      ensures !IsBlank(sql) ==> r == db.queryForList(lib.concatOrderBy(Trim(sql), sort), paramMap)
    {
      match CheckedSql(sql)
      case Failure(e) => Failure(e)
      case Success(s) => db.queryForList(lib.concatOrderBy(s, sort), paramMap)
    }

    /**
     * `queryByPage`: the page size is capped at 1000; with a count query the
     * total is set and the page number clamped to the page count, without
     * one the total is -1 and no count runs; the records come from the
     * dialect's paging SQL over the sorted SQL; one order item per order
     * field, in order.
     */
    method QueryByPage(sql: string, pagination: Option<Pagination>, paramMap: JavaMap, countQuery: bool)
      returns (r: Result<Page, Error>)
      ensures IsBlank(sql) ==> r == Failure(IllegalArgument("sql"))
      ensures !IsBlank(sql) && pagination.None? ==> r == Failure(IllegalArgument("pagination"))
      ensures !IsBlank(sql) && pagination.Some? && countQuery && QueryCount(Trim(sql), paramMap).Failure? ==>
        r == Failure(QueryCount(Trim(sql), paramMap).error)
      ensures r.Success? ==>
        var p := pagination.value;
        var page := r.value;
        var size := Min(p.pageSize, MAX_PAGE_SIZE);
        && !IsBlank(sql) && pagination.Some?
        && page.size == size && page.size <= MAX_PAGE_SIZE
        && (countQuery ==>
              && QueryCount(Trim(sql), paramMap) == Success(page.total)
              && page.searchCount
              && page.current == ClampedPage(p.pageNo, lib.pages(page.total, size)))
        && (!countQuery ==> page.total == -1 && !page.searchCount && page.current == p.pageNo)
        && db.queryForList(lib.paginationSql(page.current, size, lib.concatOrderBy(Trim(sql), Some(p.sort)), paramMap, dbType), paramMap)
             == Success(page.records)
        && |p.sort.sorts| >= |p.sort.orderFields|
        && page.orders == Orders(lib, p.sort)
      ensures !IsBlank(sql) && pagination.Some? && |pagination.value.sort.sorts| < |pagination.value.sort.orderFields| ==> r.Failure?
      ensures !IsBlank(sql) && pagination.Some? && (countQuery ==> QueryCount(Trim(sql), paramMap).Success?) ==>
        var p := pagination.value;
        var size := Min(p.pageSize, MAX_PAGE_SIZE);
        var current := if countQuery then ClampedPage(p.pageNo, lib.pages(QueryCount(Trim(sql), paramMap).value, size)) else p.pageNo;
        var records := db.queryForList(lib.paginationSql(current, size, lib.concatOrderBy(Trim(sql), Some(p.sort)), paramMap, dbType), paramMap);
        && (records.Failure? ==> r == Failure(records.error))
        && (records.Success? && |p.sort.sorts| < |p.sort.orderFields| ==> r == Failure(IndexOutOfBounds(|p.sort.sorts|)))
        && (records.Success? && |p.sort.sorts| >= |p.sort.orderFields| ==> r.Success?)
    {
      if IsBlank(sql) {
        return Failure(IllegalArgument("sql"));
      }
      if pagination.None? {
        return Failure(IllegalArgument("pagination"));
      }
      var p := pagination.value;
      var s := Trim(sql);
      var page := new Page(p.pageNo, Min(p.pageSize, MAX_PAGE_SIZE));
      if countQuery {
        var count := QueryCount(s, paramMap);
        if count.Failure? {
          return Failure(count.error);
        }
        page.total := count.value;
        var pages := lib.pages(page.total, page.size);
        if page.current > pages {
          page.current := pages;
        }
      } else {
        page.searchCount := false;
        page.total := -1;
      }
      var sortSql := lib.concatOrderBy(s, Some(p.sort));
      var pageSql := lib.paginationSql(page.current, page.size, sortSql, paramMap, dbType);
      var listData := db.queryForList(pageSql, paramMap);
      if listData.Failure? {
        return Failure(listData.error);
      }
      page.records := listData.value;
      var ordered := AddOrders(lib, page, p.sort);
      if !ordered {
        return Failure(IndexOutOfBounds(|p.sort.sorts|));
      }
      r := Success(page);
    }

    /** `getNextTransactionName`: increment the `int` counter first, then name the transaction after it. */
    method NextTransactionName() returns (name: string)
      modifies this`transactionSerialNumber
      ensures transactionSerialNumber == Wrap(old(transactionSerialNumber) + 1)
      ensures name == TxName(transactionSerialNumber)
    {
      transactionSerialNumber := Wrap(transactionSerialNumber + 1);
      name := TxName(transactionSerialNumber);
    }

    /**
     * `beginTX` with every setting: a missing action is rejected before a
     * name is drawn; otherwise the next name is drawn and the definition
     * built from it and the given settings, which Spring may still refuse.
     */
    method BeginTx<A>(action: Option<A>, propagation: Int32, timeout: Int32, isolation: Int32, readOnly: bool)
      returns (r: Result<TxDefinition, Error>)
      modifies this`transactionSerialNumber
      ensures action.None? ==> r == Failure(IllegalArgument("action")) && transactionSerialNumber == old(transactionSerialNumber)
      ensures action.Some? ==>
        && transactionSerialNumber == Wrap(old(transactionSerialNumber) + 1)
        && r == Definition(TxName(transactionSerialNumber), propagation, timeout, isolation, readOnly)
    {
      if action.None? {
        return Failure(IllegalArgument("action"));
      }
      var name := NextTransactionName();
      r := Definition(name, propagation, timeout, isolation, readOnly);
    }

    /** `beginTX(action, propagation, timeout, isolation)`: not read-only. */
    method BeginTxIsolation<A>(action: Option<A>, propagation: Int32, timeout: Int32, isolation: Int32)
      returns (r: Result<TxDefinition, Error>)
      modifies this`transactionSerialNumber
      ensures action.None? ==> r == Failure(IllegalArgument("action")) && transactionSerialNumber == old(transactionSerialNumber)
      ensures action.Some? ==>
        && transactionSerialNumber == Wrap(old(transactionSerialNumber) + 1)
        && r == Definition(TxName(transactionSerialNumber), propagation, timeout, isolation, false)
    {
      r := BeginTx(action, propagation, timeout, isolation, false);
    }

    /** `beginTX(action, propagation, timeout)`: default isolation, not read-only. */
    method BeginTxTimeout<A>(action: Option<A>, propagation: Int32, timeout: Int32)
      returns (r: Result<TxDefinition, Error>)
      modifies this`transactionSerialNumber
      ensures action.None? ==> r == Failure(IllegalArgument("action")) && transactionSerialNumber == old(transactionSerialNumber)
      ensures action.Some? ==>
        && transactionSerialNumber == Wrap(old(transactionSerialNumber) + 1)
        && r == Definition(TxName(transactionSerialNumber), propagation, timeout, ISOLATION_DEFAULT, false)
    {
      r := BeginTx(action, propagation, timeout, ISOLATION_DEFAULT, false);
    }

    /** `beginTX(action, propagation)`: no timeout, default isolation, not read-only. */
    method BeginTxPropagation<A>(action: Option<A>, propagation: Int32)
      returns (r: Result<TxDefinition, Error>)
      modifies this`transactionSerialNumber
      ensures action.None? ==> r == Failure(IllegalArgument("action")) && transactionSerialNumber == old(transactionSerialNumber)
      ensures action.Some? ==>
        && transactionSerialNumber == Wrap(old(transactionSerialNumber) + 1)
        && r == Definition(TxName(transactionSerialNumber), propagation, NO_TIMEOUT, ISOLATION_DEFAULT, false)
    {
      r := BeginTx(action, propagation, NO_TIMEOUT, ISOLATION_DEFAULT, false);
    }

    /** `beginTX(action)`: propagation REQUIRED, no timeout, default isolation, not read-only. */
    method BeginTxDefaults<A>(action: Option<A>) returns (r: Result<TxDefinition, Error>)
      modifies this`transactionSerialNumber
      ensures action.None? ==> r == Failure(IllegalArgument("action")) && transactionSerialNumber == old(transactionSerialNumber)
      ensures action.Some? ==>
        && transactionSerialNumber == Wrap(old(transactionSerialNumber) + 1)
        && r == Success(TxDefinition(TxName(transactionSerialNumber), PROPAGATION_REQUIRED, NO_TIMEOUT, ISOLATION_DEFAULT, false))
    {
      r := BeginTx(action, PROPAGATION_REQUIRED, NO_TIMEOUT, ISOLATION_DEFAULT, false);
    }

    /** `beginReadOnlyTX(action, propagation, timeout, isolation)`: the given settings, read-only. */
    method BeginReadOnlyTxIsolation<A>(action: Option<A>, propagation: Int32, timeout: Int32, isolation: Int32)
      returns (r: Result<TxDefinition, Error>)
      modifies this`transactionSerialNumber
      ensures action.None? ==> r == Failure(IllegalArgument("action")) && transactionSerialNumber == old(transactionSerialNumber)
      ensures action.Some? ==>
        && transactionSerialNumber == Wrap(old(transactionSerialNumber) + 1)
        && r == Definition(TxName(transactionSerialNumber), propagation, timeout, isolation, true)
    {
      r := BeginTx(action, propagation, timeout, isolation, true);
    }

    /** `beginReadOnlyTX(action, propagation, timeout)`: default isolation, read-only. */
    method BeginReadOnlyTxTimeout<A>(action: Option<A>, propagation: Int32, timeout: Int32)
      returns (r: Result<TxDefinition, Error>)
      modifies this`transactionSerialNumber
      ensures action.None? ==> r == Failure(IllegalArgument("action")) && transactionSerialNumber == old(transactionSerialNumber)
      ensures action.Some? ==>
        && transactionSerialNumber == Wrap(old(transactionSerialNumber) + 1)
        && r == Definition(TxName(transactionSerialNumber), propagation, timeout, ISOLATION_DEFAULT, true)
    {
      r := BeginTx(action, propagation, timeout, ISOLATION_DEFAULT, true);
    }

    /** `beginReadOnlyTX(action, propagation)`: no timeout, default isolation, read-only. */
    method BeginReadOnlyTxPropagation<A>(action: Option<A>, propagation: Int32)
      returns (r: Result<TxDefinition, Error>)
      modifies this`transactionSerialNumber
      ensures action.None? ==> r == Failure(IllegalArgument("action")) && transactionSerialNumber == old(transactionSerialNumber)
      ensures action.Some? ==>
        && transactionSerialNumber == Wrap(old(transactionSerialNumber) + 1)
        && r == Definition(TxName(transactionSerialNumber), propagation, NO_TIMEOUT, ISOLATION_DEFAULT, true)
    {
      r := BeginTx(action, propagation, NO_TIMEOUT, ISOLATION_DEFAULT, true);
    }

    /** `beginReadOnlyTX(action)`: propagation REQUIRED, no timeout, default isolation, read-only. */
    method BeginReadOnlyTxDefaults<A>(action: Option<A>) returns (r: Result<TxDefinition, Error>)
      modifies this`transactionSerialNumber
      ensures action.None? ==> r == Failure(IllegalArgument("action")) && transactionSerialNumber == old(transactionSerialNumber)
      ensures action.Some? ==>
        && transactionSerialNumber == Wrap(old(transactionSerialNumber) + 1)
        && r == Success(TxDefinition(TxName(transactionSerialNumber), PROPAGATION_REQUIRED, NO_TIMEOUT, ISOLATION_DEFAULT, true))
    {
      r := BeginTx(action, PROPAGATION_REQUIRED, NO_TIMEOUT, ISOLATION_DEFAULT, true);
    }

    /** `isClosed`: the pool's state for a Hikari source, the local flag otherwise. */
    function IsClosed(): (c: bool)
      reads this
      ensures hikari ==> (c <==> poolClosed)
      ensures !hikari ==> (c <==> closed)
    {
      if hikari then poolClosed else closed
    }

    /**
     * `close`: nothing to do once closed; a Hikari pool is closed (with the
     * base class's close) only if it is still open; any other source refuses.
     */
    method Close() returns (r: Result<(), Error>)
      modifies this`closed, this`poolClosed
      ensures old(closed) ==> r == Success(()) && closed == old(closed) && poolClosed == old(poolClosed)
      ensures !old(closed) && hikari ==> r == Success(()) && poolClosed && IsClosed()
      ensures !old(closed) && hikari && old(poolClosed) ==> closed == old(closed) && poolClosed == old(poolClosed)
      ensures !old(closed) && hikari && !old(poolClosed) ==> closed
      ensures !old(closed) && !hikari ==> r == Failure(UnsupportedOperation) && closed == old(closed) && poolClosed == old(poolClosed)
    {
      if closed {
        return Success(());
      }
      if hikari {
        if !poolClosed {
          closed := true;
          poolClosed := true;
        }
        r := Success(());
      } else {
        r := Failure(UnsupportedOperation);
      }
    }
  }
}
