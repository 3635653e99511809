# clever-data / hinny: JDBC facade, script routing and spreadsheet bookkeeping, in Dafny

This project models three parts of the clever-data repository and proves properties about them.

- **`JdbcDataSource`** (module `Jdbc`). This is the facade over a named-parameter JDBC template. The model covers:
  - the argument guards and SQL trimming in front of every query and update;
  - the paging arithmetic of `queryByPage`: the size cap of 1000, the clamp of the page number to the page count, the total of -1 when no count query runs, and the order items rebuilt from the order fields and their directions;
  - the null-to-0 rule of `queryCount`;
  - the bulk helpers `updateTable`, `insertTables` and `batchUpdate`;
  - transaction definitions, with their defaults and read-only variants;
  - the wrapping `int` counter behind the generated transaction names;
  - the `close`/`isClosed` state machine.

  The database, `SqlUtils`, `DialectFactory` and `Page.getPages` are oracles. They are the function-valued fields of `Database` and `SqlLibrary`. One rule follows from this: every contract is stated in terms of what these oracles return.

- **`HttpRequestScriptHandler`** (module `ScriptHandler`). This is the routing of HTTP requests to script files. The model covers:
  - the defaulting and trimming of the URI prefix and suffixes;
  - the `supportScript` decision: prefix, suffix, the conflict with the Spring handler already mapped, and the shape of the last path segment;
  - the parse of `<prefix><path>@<method><suffix>` into a script path and a function name (`getScriptInfo`);
  - the control flow of `preHandle` around an engine borrowed from a pool.

  Doing any of this requires Java's `String.split` semantics, which drop trailing empty parts, so `"x@"` yields one part while `"@m"` and `"a@b@"` yield two. The pool, the handler's abstract and overridable methods (`fileExists`, `getScriptObject`, `doHandle`, `resIsEmpty`, `serializeRes`) and the response's committed flag are the fields of `Hooks`. The base class's own `getScriptObject` and `doHandle` are `DefaultGetScriptObject` and `DefaultDoHandle`, over the engine's `require` and the script's `callMember`. `preHandle` returns the list of events it causes on the pool and the response.

- **`ExcelUtils`** (module `ExcelUtils`). This is the row and column bookkeeping of the spreadsheet reader and writer. The model covers:
  - `getHeadRowCount`;
  - the table that maps a cell type to a Java class;
  - the header-to-column binding of `invokeHeadMap`;
  - the first-seen type inference of `invoke`;
  - converter selection in `ConverterUtils.convertToJavaObject`;
  - the early stops of `hasNext`;
  - the end time recorded once by `doAfterAllAnalysed`;
  - the "visit each column once" map of `FillHeadStrategy`.

Three supporting modules model the Java and commons-lang semantics this code relies on:

- `Wrappers` has `Option` and `Result`.
- `JavaString` covers `StringUtils.isBlank`/`trim` (characters up to U+0020 are trimmed), `startsWith`/`endsWith`/`lastIndexOf`, `String.split` on a single character (dropping trailing empty strings) and ASCII `equalsIgnoreCase`.
- `JavaInt` covers 32-bit `int` wrap-around and `Integer.toString`.

Two points on form:

- **State that the Java code updates in place is modelled as objects.** The `Page` and `JdbcDataSource` fields, the listener's `columns` map, the per-sheet `ExcelData` record (`SheetData`) and `FillHeadStrategy.filledMap` are class fields, updated by methods with `modifies` clauses.
- **Loops stay loops, and the pure branching is functions.** The loops of the source (`getHeadRowCount`, `supportScript`, the suffix loop of `getScriptInfo`, `invokeHeadMap`, `invoke`, `insertTables`, `batchUpdate` and the `addOrder` loop) are `while` loops with invariants. Each one is proved against a function or predicate that states its result.

Iteration over a `HashSet` or `HashMap` is modelled as a nondeterministic choice (`:|`). Contracts that depend on iteration order say so: for example, which suffix `getScriptInfo` strips when several match.

Two behaviours of the code that a reader might not expect are modelled as written:
- **`close` on any Hikari pool.** `close` closes any `HikariDataSource` instance, including one handed in by the caller. It does not close only the pools it built (`JdbcDataSource.java:899-904`).
- **Clamp to page 0.** After a count query, the page number is clamped to `getPages()`. When the total is 0 this is page 0, not page 1. `Jdbc.ClampedWithinLastPage` proves this under the ceiling assumption.

Three quirks of the code are proved as they are:
- **Trailing `@` kept in the file path.** A request path whose last segment ends in `@` still yields a method, because `split` drops the empty last part. The length arithmetic then keeps that `@` at the end of the file path: `/!/a@biz@` gives the file `/a@` (`ScriptHandler.LocateKeepsTrailingSeparator`).
- **Row number used as a column index.** `invoke` looks up the content property by the row number, not by the column index. It also passes the row number as the column index of the conversion (`ExcelUtils.java:936-943`). So two cells of one row with the same content, in columns of the same type, always read the same (`ExcelUtils.CellValueIgnoresColumnIndex`).
- **Unbound columns throw.** A cell of a column not bound by `invokeHeadMap` makes `invoke` throw a `NullPointerException`. This is the `MissingColumn` error of the model. When no header row is read, every column is unbound.

## Model

| member | source | states |
|---|---|---|
| Jdbc.CheckedSql | clever-data-jdbc/src/main/java/org/clever/data/jdbc/JdbcDataSource.java:173-174 | `Assert.hasText` then `trim`. The call fails with the "sql" argument error exactly when the SQL is blank. Otherwise the result is the trimmed SQL, which has no padding left. |
| Jdbc.JdbcDataSource.QueryMap | clever-data-jdbc/src/main/java/org/clever/data/jdbc/JdbcDataSource.java:172-179 | A blank SQL is rejected before the database is reached. Any other SQL is run trimmed, and the database's answer is returned. |
| Jdbc.JdbcDataSource.QueryList | clever-data-jdbc/src/main/java/org/clever/data/jdbc/JdbcDataSource.java:196-203 | Same as `QueryMap`, for the list query. |
| Jdbc.JdbcDataSource.QueryLong | clever-data-jdbc/src/main/java/org/clever/data/jdbc/JdbcDataSource.java:244-251 | Same as `QueryMap`, for a nullable `Long`. |
| Jdbc.JdbcDataSource.QueryScalar | clever-data-jdbc/src/main/java/org/clever/data/jdbc/JdbcDataSource.java:220-348 | `queryString`/`queryDouble`/`queryBigDecimal`/`queryBoolean`/`queryDate`. A blank SQL is rejected. Any other SQL is run trimmed, for the requested result class. |
| Jdbc.JdbcDataSource.QueryCount | clever-data-jdbc/src/main/java/org/clever/data/jdbc/JdbcDataSource.java:365-376 | A blank SQL is rejected. Otherwise the count SQL is built from the SQL as given and then trimmed. A null total is 0, a non-null total is returned unchanged, and a failing query fails with its error. |
| Jdbc.JdbcDataSource.QueryCursor | clever-data-jdbc/src/main/java/org/clever/data/jdbc/JdbcDataSource.java:386-431 | The SQL is checked first, then the consumer. A valid call runs the trimmed SQL in the requested mode. The template call without parameters is used exactly when the map is null. |
| Jdbc.JdbcDataSource.Update | clever-data-jdbc/src/main/java/org/clever/data/jdbc/JdbcDataSource.java:449-456 | A blank SQL is rejected. Otherwise the affected count of the trimmed SQL is returned. |
| Jdbc.JdbcDataSource.UpdateTable | clever-data-jdbc/src/main/java/org/clever/data/jdbc/JdbcDataSource.java:475-483 | The table name, the fields and the where map are checked in that order, before any SQL is built. The generated statement is run trimmed, with its parameters. |
| Jdbc.JdbcDataSource.UpdateTableWhere | clever-data-jdbc/src/main/java/org/clever/data/jdbc/JdbcDataSource.java:504-512 | The table name, the fields and the where string are checked in that order. The statement run is the generated update, then `" where "`, then the trimmed condition, all trimmed. |
| Jdbc.WhereSqlEndsWithCondition | clever-data-jdbc/src/main/java/org/clever/data/jdbc/JdbcDataSource.java:510-511 | The statement run ends with `"where "` followed by the trimmed condition. |
| Jdbc.WhereSqlNotBlank | clever-data-jdbc/src/main/java/org/clever/data/jdbc/JdbcDataSource.java:510-511 | The update plus its where clause is never blank, so the inner `update` guard never fires. |
| Jdbc.InsertParams | clever-data-jdbc/src/main/java/org/clever/data/jdbc/JdbcDataSource.java:534-539 | The empty parameter source is used exactly when the map is null or empty. Otherwise a map source wraps the given map. |
| Jdbc.JdbcDataSource.Insert | clever-data-jdbc/src/main/java/org/clever/data/jdbc/JdbcDataSource.java:531-547 | A blank SQL is rejected. Otherwise the trimmed SQL runs with the parameter source `InsertParams` chooses. |
| Jdbc.JdbcDataSource.InsertTable | clever-data-jdbc/src/main/java/org/clever/data/jdbc/JdbcDataSource.java:565-571 | The table name and then the fields are checked. Then one generated insert runs into the trimmed table. |
| Jdbc.JdbcDataSource.InsertTables | clever-data-jdbc/src/main/java/org/clever/data/jdbc/JdbcDataSource.java:590-601 | The table name and then the non-empty list are checked. A success has exactly one result per map, result `i` being the insert of map `i`. A failure is the error of the first insert that fails, after all earlier inserts succeeded. |
| Jdbc.ParamSources | clever-data-jdbc/src/main/java/org/clever/data/jdbc/JdbcDataSource.java:623-628 | One parameter source per map. Element `i` wraps the `i`-th map. |
| Jdbc.JdbcDataSource.BatchUpdate | clever-data-jdbc/src/main/java/org/clever/data/jdbc/JdbcDataSource.java:619-633 | The SQL and then the list are checked, and an empty list is allowed. The array the loop fills is exactly `ParamSources` of the list, and the batch runs on the trimmed SQL. |
| Jdbc.JdbcDataSource.QueryBySort | clever-data-jdbc/src/main/java/org/clever/data/jdbc/JdbcDataSource.java:642-651 | A blank SQL is rejected. Otherwise the order-by clause is appended to the trimmed SQL. |
| Jdbc.Page.constructor | clever-data-jdbc/src/main/java/org/clever/data/jdbc/JdbcDataSource.java:675 | A new page has the given number and size. Its total is 0, count search is on, and it has no records and no orders. |
| Jdbc.ClampedPage | clever-data-jdbc/src/main/java/org/clever/data/jdbc/JdbcDataSource.java:681-684 | The clamped page number is at most the page count. It is unchanged when already within range, and equal to the page count otherwise. |
| Jdbc.ClampedWithinLastPage | clever-data-jdbc/src/main/java/org/clever/data/jdbc/JdbcDataSource.java:677-684 | Assume `getPages` is the ceiling of total/size. Then the clamped page is at most that ceiling, a page within range is kept, and an empty result clamps every page number of at least 1 to 0. |
| Jdbc.Orders | clever-data-jdbc/src/main/java/org/clever/data/jdbc/JdbcDataSource.java:699-708 | One order item per order field, in order. Item `i` has field `i` as its column. It is ascending exactly when the trimmed direction `i` equals `SqlUtils.ASC`, ignoring ASCII case. |
| Jdbc.AddOrders | clever-data-jdbc/src/main/java/org/clever/data/jdbc/JdbcDataSource.java:699-708 | The loop succeeds exactly when there are at least as many directions as fields, and then the page gains `Orders` after its old orders. When directions run out, the page gains the items of the fields that have a direction, and the loop fails as `get(i)` does. |
| Jdbc.JdbcDataSource.QueryByPage | clever-data-jdbc/src/main/java/org/clever/data/jdbc/JdbcDataSource.java:671-710 | Rejects a blank SQL, then a null pagination. The size is `min(requested, 1000)`. With a count query, the total is the count and the page is clamped to `getPages`; without one, the total is -1, count search is off and the page is kept. The records are the result of the dialect's paging SQL over the sorted SQL. The orders are `Orders`. More order fields than directions is a failure. Once the guards pass and the count (if any) succeeds: a failing records query fails with its error; otherwise the call succeeds exactly when there are enough directions, and fails with the index error of `get(i)` when there are not. |
| Jdbc.TxName | clever-data-jdbc/src/main/java/org/clever/data/jdbc/JdbcDataSource.java:875-879 | Every transaction name starts with "TX". |
| Jdbc.TxNameInjective | clever-data-jdbc/src/main/java/org/clever/data/jdbc/JdbcDataSource.java:875-879 | Different counter values give different names: "TX+n" for n ≥ 0 and "TX-m" for negatives never collide. |
| Jdbc.JdbcDataSource.NextTransactionName | clever-data-jdbc/src/main/java/org/clever/data/jdbc/JdbcDataSource.java:872-881 | The counter is incremented first, with `int` wrap-around. The name is `TxName` of the new value. |
| Jdbc.CounterAfterWraps | clever-data-jdbc/src/main/java/org/clever/data/jdbc/JdbcDataSource.java:873 | After `k` increments, the counter is the start value plus `k`, wrapped to an `int`. |
| Jdbc.NamesDistinctBeforeWrap | clever-data-jdbc/src/main/java/org/clever/data/jdbc/JdbcDataSource.java:872-881 | Names drawn fewer than 2^32 increments apart are distinct. |
| Jdbc.NamesRepeatAfterWrap | clever-data-jdbc/src/main/java/org/clever/data/jdbc/JdbcDataSource.java:872-881 | Names repeat after exactly 2^32 increments. |
| Jdbc.NameAfterMaxValue | clever-data-jdbc/src/main/java/org/clever/data/jdbc/JdbcDataSource.java:873-878 | The increment after `Integer.MAX_VALUE` gives `Integer.MIN_VALUE`, and the "TX+" names turn into "TX-" names. |
| Jdbc.Definition | clever-data-jdbc/src/main/java/org/clever/data/jdbc/JdbcDataSource.java:859-867 | The definition is built exactly when the propagation is one of Spring's seven constants, the timeout is at least -1 and the isolation is one of Spring's five constants. It then carries the name and settings given. Otherwise the first refused setter, in the order propagation, timeout, isolation, gives its argument error. |
| Jdbc.JdbcDataSource.BeginTx | clever-data-jdbc/src/main/java/org/clever/data/jdbc/JdbcDataSource.java:744-748 | A null action is rejected without drawing a name. Otherwise the next name is drawn, even when a setting is then refused, and the result is `Definition` of that name and the given propagation, timeout, isolation and read-only flag (`createTransactionDefinition`, lines 859-867). |
| Jdbc.JdbcDataSource.BeginTxIsolation | clever-data-jdbc/src/main/java/org/clever/data/jdbc/JdbcDataSource.java:760-762 | A null action draws no name. Otherwise the next name is drawn and the result is `Definition` of it with the given settings, not read-only. |
| Jdbc.JdbcDataSource.BeginTxTimeout | clever-data-jdbc/src/main/java/org/clever/data/jdbc/JdbcDataSource.java:773-775 | A null action draws no name. Otherwise the next name is drawn and the result is `Definition` of it with default isolation (-1), not read-only. |
| Jdbc.JdbcDataSource.BeginTxPropagation | clever-data-jdbc/src/main/java/org/clever/data/jdbc/JdbcDataSource.java:785-787 | A null action draws no name. Otherwise the next name is drawn and the result is `Definition` of it with no timeout (-1), default isolation, not read-only. |
| Jdbc.JdbcDataSource.BeginTxDefaults | clever-data-jdbc/src/main/java/org/clever/data/jdbc/JdbcDataSource.java:796-798 | A null action draws no name. Otherwise the next name is drawn and the definition always succeeds with PROPAGATION_REQUIRED (0), no timeout, default isolation, not read-only. |
| Jdbc.JdbcDataSource.BeginReadOnlyTxIsolation | clever-data-jdbc/src/main/java/org/clever/data/jdbc/JdbcDataSource.java:810-812 | A null action draws no name. Otherwise the next name is drawn and the result is `Definition` of it with the given settings, read-only. |
| Jdbc.JdbcDataSource.BeginReadOnlyTxTimeout | clever-data-jdbc/src/main/java/org/clever/data/jdbc/JdbcDataSource.java:823-825 | A null action draws no name. Otherwise the next name is drawn and the result is `Definition` of it with default isolation, read-only. |
| Jdbc.JdbcDataSource.BeginReadOnlyTxPropagation | clever-data-jdbc/src/main/java/org/clever/data/jdbc/JdbcDataSource.java:835-837 | A null action draws no name. Otherwise the next name is drawn and the result is `Definition` of it with no timeout, default isolation, read-only. |
| Jdbc.JdbcDataSource.BeginReadOnlyTxDefaults | clever-data-jdbc/src/main/java/org/clever/data/jdbc/JdbcDataSource.java:846-848 | A null action draws no name. Otherwise the next name is drawn and the definition always succeeds with PROPAGATION_REQUIRED, no timeout, default isolation, read-only. |
| Jdbc.JdbcDataSource.FromHikariConfig | clever-data-jdbc/src/main/java/org/clever/data/jdbc/JdbcDataSource.java:86-94 | A source built from a Hikari configuration owns an open Hikari pool. It is not closed, and its counter starts at 0. |
| Jdbc.JdbcDataSource.FromDataSource | clever-data-jdbc/src/main/java/org/clever/data/jdbc/JdbcDataSource.java:101-137 | A source wrapping a data source or template made elsewhere. It records whether the source is a Hikari pool and its state. It is not closed, and its counter starts at 0. |
| Jdbc.JdbcDataSource.IsClosed | clever-data-jdbc/src/main/java/org/clever/data/jdbc/JdbcDataSource.java:886-892 | A Hikari source reports its pool's state. Any other source reports the local flag. |
| Jdbc.JdbcDataSource.Close | clever-data-jdbc/src/main/java/org/clever/data/jdbc/JdbcDataSource.java:895-908 | Once closed, close does nothing. On a Hikari source it succeeds and leaves the pool closed, closing both the pool and the base class only if the pool was open. Any other source fails with `UnsupportedOperation` and nothing changes. |
| ScriptHandler.SupportPrefix | hinny-mvc/src/main/java/org/clever/hinny/mvc/HttpRequestScriptHandler.java:66 | A null or blank prefix gives "/!/". Otherwise the prefix is trimmed. The prefix is always trimmed. |
| ScriptHandler.SupportSuffixes | hinny-mvc/src/main/java/org/clever/hinny/mvc/HttpRequestScriptHandler.java:67-69 | The suffixes are exactly the trimmed non-null entries given. None given means the defaults. Every suffix is trimmed. |
| ScriptHandler.NewHandler | hinny-mvc/src/main/java/org/clever/hinny/mvc/HttpRequestScriptHandler.java:64-71 | The configuration is the defaulted prefix and suffixes. |
| ScriptHandler.DefaultHandler | hinny-mvc/src/main/java/org/clever/hinny/mvc/HttpRequestScriptHandler.java:76-78 | The pool-only constructor serves the prefix "/!/" and exactly the suffixes "", ".json" and ".action". |
| ScriptHandler.LastSegment | hinny-mvc/src/main/java/org/clever/hinny/mvc/HttpRequestScriptHandler.java:134-138 | There is no segment exactly when the URI has no '/'. Otherwise the segment is a suffix of the URI that starts with its only '/'. |
| ScriptHandler.SupportScript | hinny-mvc/src/main/java/org/clever/hinny/mvc/HttpRequestScriptHandler.java:83-145 | Support holds exactly when all four conditions hold: the URI starts with the prefix; it ends with some suffix; the handler allows scripts (a controller method or an existing static resource only when forced, a missing resource always, view controllers and unknown handlers never); and the last segment splits on '@' into two parts. |
| ScriptHandler.EmptySuffixMatchesAll | hinny-mvc/src/main/java/org/clever/hinny/mvc/HttpRequestScriptHandler.java:92-96 | With "" among the suffixes, every URI passes the suffix test. |
| ScriptHandler.SupportedShape | hinny-mvc/src/main/java/org/clever/hinny/mvc/HttpRequestScriptHandler.java:132-143 | A supported URI contains '/'. Its last segment is `a@b` followed only by '@'s, where `a` and `b` have no '@' and `b` is not empty. |
| ScriptHandler.SplitExamples | hinny-mvc/src/main/java/org/clever/hinny/mvc/HttpRequestScriptHandler.java:138-140 | `split("@")` gives 1 part for "/x@" and 2 parts for "/@m" and for "/a@b@". |
| JavaString.Split | hinny-mvc/src/main/java/org/clever/hinny/mvc/HttpRequestScriptHandler.java:139 | A string without the separator splits into itself. Otherwise it splits into its pieces, with trailing empty pieces dropped. |
| JavaString.SplitTwoExactly | hinny-mvc/src/main/java/org/clever/hinny/mvc/HttpRequestScriptHandler.java:139-141 | A split gives exactly two parts if and only if the string has the form `a@b` followed only by '@'s, where `a` and `b` have no '@' and `b` is not empty. The two parts are then `a` and `b`. |
| JavaString.SplitOfShape | hinny-mvc/src/main/java/org/clever/hinny/mvc/HttpRequestScriptHandler.java:139 | `a@b@…@`, with `a` and `b` free of '@' and `b` not empty, splits into exactly `[a, b]`. |
| JavaString.SplitDropsTrailingSeparators | hinny-mvc/src/main/java/org/clever/hinny/mvc/HttpRequestScriptHandler.java:139 | A non-empty `a` free of '@', followed by one or more '@'s, splits into `[a]`. |
| ScriptHandler.StripSuffix | hinny-mvc/src/main/java/org/clever/hinny/mvc/HttpRequestScriptHandler.java:154-162 | Either no non-blank suffix matches and the URI is kept, or a matching non-blank suffix is cut off the end. Which suffix is cut depends on set order. |
| ScriptHandler.StrippedUnchangedIffNoMatch | hinny-mvc/src/main/java/org/clever/hinny/mvc/HttpRequestScriptHandler.java:154-162 | The URI is kept exactly when no non-blank suffix matches. The request path is always a prefix of the URI. |
| ScriptHandler.StrippedByOnlyMatch | hinny-mvc/src/main/java/org/clever/hinny/mvc/HttpRequestScriptHandler.java:154-162 | When exactly one non-blank suffix matches, that suffix is cut off, in any set order. |
| ScriptHandler.MethodName | hinny-mvc/src/main/java/org/clever/hinny/mvc/HttpRequestScriptHandler.java:164-172 | The method is `MethodOf` of the request path: the second '@' part of the last segment when it splits in two, and null otherwise. |
| ScriptHandler.MethodOfShape | hinny-mvc/src/main/java/org/clever/hinny/mvc/HttpRequestScriptHandler.java:164-172 | A found method is the part after the only '@' of the last segment, trailing '@'s aside. It is non-empty and has no '@'. |
| ScriptHandler.LocateShape | hinny-mvc/src/main/java/org/clever/hinny/mvc/HttpRequestScriptHandler.java:173-182 | There is no script without a non-blank method. The substring throws when `max(prefix length - 1, 0)` passes `length - 1 - method length`. Otherwise the file path is exactly that substring and is not blank. The script path always starts with '/': it is the file path when that starts with '/', and '/' plus the file path otherwise. |
| ScriptHandler.Resolve | hinny-mvc/src/main/java/org/clever/hinny/mvc/HttpRequestScriptHandler.java:184-187 | Parsing fails exactly on an out-of-range substring. A script is found exactly when the existence check accepts the raw, un-normalised file path, and it is then the parsed script info. |
| ScriptHandler.ParseRequestPath | hinny-mvc/src/main/java/org/clever/hinny/mvc/HttpRequestScriptHandler.java:163-187 | The step-by-step parse equals `Resolve` of `Locate` of the request path. |
| ScriptHandler.GetScriptInfo | hinny-mvc/src/main/java/org/clever/hinny/mvc/HttpRequestScriptHandler.java:151-188 | The result is `Resolve(Locate(prefix, path))`, for a request path that the suffix loop can leave. |
| ScriptHandler.LocateFound | hinny-mvc/src/main/java/org/clever/hinny/mvc/HttpRequestScriptHandler.java:176-182 | When the method and the file path are known and the file path starts with '/', the parse gives that file path unchanged as the script path. |
| ScriptHandler.LocateRoundTrip | hinny-mvc/src/main/java/org/clever/hinny/mvc/HttpRequestScriptHandler.java:163-182 | Take a prefix ending in '/', a body without '@' and a non-blank method without '/' or '@'. Then `<prefix><body>@<method>` parses back to the script "/<body>" and the function `<method>`. |
| ScriptHandler.LocateKeepsTrailingSeparator | hinny-mvc/src/main/java/org/clever/hinny/mvc/HttpRequestScriptHandler.java:163-182 | With one extra '@' at the end, the method is still found, but the file path keeps that '@' at its end. |
| ScriptHandler.SegmentWithMethod | hinny-mvc/src/main/java/org/clever/hinny/mvc/HttpRequestScriptHandler.java:164-172 | The method of `<prefix><body>@<method>` followed by any number of '@'s is `<method>`. |
| ScriptHandler.ExampleOnlyJsonMatches | hinny-mvc/src/main/java/org/clever/hinny/mvc/HttpRequestScriptHandler.java:154-162 | Of the default suffixes, only ".json" is non-blank and ends "/!/aaa/bbb@biz.json". |
| ScriptHandler.ExampleStripped | hinny-mvc/src/main/java/org/clever/hinny/mvc/HttpRequestScriptHandler.java:154-162 | With the default suffixes, "/!/aaa/bbb@biz.json" becomes "/!/aaa/bbb@biz". |
| ScriptHandler.ExampleScriptInfo | hinny-mvc/src/main/java/org/clever/hinny/mvc/HttpRequestScriptHandler.java:163-187 | Under "/!/", "/!/aaa/bbb@biz" is the script "/aaa/bbb" with the function "biz", if that file exists. |
| ScriptHandler.DefaultGetScriptObject | hinny-mvc/src/main/java/org/clever/hinny/mvc/HttpRequestScriptHandler.java:201-207 | The base `getScriptObject` is never null. It pairs the object `require` loads for the script path, null included, with the function name. It fails exactly when `require` fails. |
| ScriptHandler.DefaultDoHandle | hinny-mvc/src/main/java/org/clever/hinny/mvc/HttpRequestScriptHandler.java:214-220 | The base `doHandle` never asks to break. A null script object is a `NullPointerException`. It returns exactly what `callMember` returns for the function name, or its error. |
| ScriptHandler.HandlerHeader | hinny-mvc/src/main/java/org/clever/hinny/mvc/HttpRequestScriptHandler.java:288 | The event is the `Use_Script_Handler_Head` header. |
| ScriptHandler.EngineFileExists | hinny-mvc/src/main/java/org/clever/hinny/mvc/HttpRequestScriptHandler.java:184 | The file check used by the lookup is `fileExists` on the borrowed engine. |
| ScriptHandler.HandleScript | hinny-mvc/src/main/java/org/clever/hinny/mvc/HttpRequestScriptHandler.java:287-302 | The outcome and events are exactly `Handled`. The handler header comes first. A failing `doHandle` fails with its error, and a break flag gives `true` with no other event. With an empty result or a committed response, the request is handled (`false`) with no body. Otherwise the JSON content type is set. A failing serialisation fails with its error, and a successful one writes the JSON and gives `false`. |
| ScriptHandler.WithEngine | hinny-mvc/src/main/java/org/clever/hinny/mvc/HttpRequestScriptHandler.java:275-302 | The outcome and events are `AfterLookup` of `Resolve(Locate(prefix, path), fileExists on the engine)`, for a request path the suffix loop can leave. A failing lookup or `getScriptObject` fails with no events. No script info, a blank path or method, or a null script object gives `true` with no events. A script object is run as `HandleScript` says. |
| ScriptHandler.AfterLookupShape | hinny-mvc/src/main/java/org/clever/hinny/mvc/HttpRequestScriptHandler.java:275-302 | Whatever the lookup gives, the part run with the engine causes no pool traffic and sets no status. `false` comes with the handler header first. A body is written only as the third event, after the JSON content type, and is the serialisation of a non-empty result on an uncommitted response. |
| ScriptHandler.HandledOnlyByScript | hinny-mvc/src/main/java/org/clever/hinny/mvc/HttpRequestScriptHandler.java:275-302 | `false` means a script info was found, `getScriptObject` gave an object, and `doHandle` succeeded without asking to break. |
| ScriptHandler.NoFileLeavesRequestToSpring | hinny-mvc/src/main/java/org/clever/hinny/mvc/HttpRequestScriptHandler.java:184-187 | When no script file exists on the engine, nothing is written and the request is never handled by a script: the outcome is `true` unless the parse was out of range. |
| ScriptHandler.DefaultHandleNeverBreaks | hinny-mvc/src/main/java/org/clever/hinny/mvc/HttpRequestScriptHandler.java:214-220 | With the base `doHandle`, the outcome is never `true` once a script object is run, and a successful outcome starts with the handler header. |
| ScriptHandler.NullScriptFailsAfterHeader | hinny-mvc/src/main/java/org/clever/hinny/mvc/HttpRequestScriptHandler.java:282-290 | With the base methods, a script that `require` loads as null is not left to Spring. The handler header is set, and then the call fails with a `NullPointerException`. |
| ScriptHandler.FramedLookup | hinny-mvc/src/main/java/org/clever/hinny/mvc/HttpRequestScriptHandler.java:253-330 | Framing the engine-backed events with the borrow and return keeps `AfterLookup` true of the events in between. It also moves the header and body facts of `AfterLookupShape` one place later in the trace. |
| ScriptHandler.Framed | hinny-mvc/src/main/java/org/clever/hinny/mvc/HttpRequestScriptHandler.java:303-307 | Putting a borrow before and a return after events without pool traffic borrows and returns the engine exactly once. The events in between stay the same. |
| ScriptHandler.PreHandle | hinny-mvc/src/main/java/org/clever/hinny/mvc/HttpRequestScriptHandler.java:253-330 | An unsupported request gives `true` with no borrow. A failed borrow gives that error with no events. A null engine sets status 503 and fails. A borrowed engine is borrowed first and returned last, exactly once, on every path. Between the two, the events and the outcome are `AfterLookup` of the script lookup on that engine, so `false` only once a script handled the request. A written body follows the JSON content type and is the serialisation of a non-empty result, with the response not committed. |
| ExcelUtils.HeadRowCount | hinny-core/src/main/java/org/clever/hinny/core/ExcelUtils.java:356-365 | The result is the maximum length of the header-name lists of the non-null column configurations, and 0 when there is none. It bounds every such list and is reached by one. |
| ExcelUtils.CellDataType | hinny-core/src/main/java/org/clever/hinny/core/ExcelUtils.java:862-880 | NUMBER maps to BigDecimal, BOOLEAN to Boolean, STRING/DIRECT_STRING/ERROR to String, IMAGE to Byte[]. Null and EMPTY map to Void. Each in both directions. |
| ExcelUtils.HeadBinding | hinny-core/src/main/java/org/clever/hinny/core/ExcelUtils.java:891-900 | A header is bound exactly when there is no column configuration, or when the header has a non-null configuration. It is bound under its own name, untyped in the first case and with the configured type in the second. |
| ExcelUtils.MappedHeads | hinny-core/src/main/java/org/clever/hinny/core/ExcelUtils.java:890-902 | Exactly the header indexes with a binding are mapped, each to its `HeadBinding`. |
| ExcelUtils.ReadListener.InvokeHeadMap | hinny-core/src/main/java/org/clever/hinny/core/ExcelUtils.java:883-903 | The start time is recorded only if unset. The listener's columns become the old columns overridden by `MappedHeads` of the header row. |
| ExcelUtils.Infer | hinny-core/src/main/java/org/clever/hinny/core/ExcelUtils.java:929-931 | An untyped column takes the cell's Java class, and a typed one is unchanged. The header is kept. |
| ExcelUtils.InferKeepsFirstType | hinny-core/src/main/java/org/clever/hinny/core/ExcelUtils.java:929-931 | Once inferred, a column's type never changes. A later cell would have given the same type exactly when the column was typed in advance or both cells map to the same class. |
| ExcelUtils.SelectConverter | hinny-core/src/main/java/org/clever/hinny/core/ExcelUtils.java:1053-1059 | The content property's converter wins. Otherwise the registered converter for (class, cell type) is used. There is none exactly when both are missing. |
| ExcelUtils.ConvertToJavaObject | hinny-core/src/main/java/org/clever/hinny/core/ExcelUtils.java:1035-1068 | An EMPTY cell reads as "" for String and for a null class, and as null otherwise. Any other cell reads through the selected converter. "Not found" is an error exactly when no converter is selected, and "convert failed" exactly when the converter throws. |
| ExcelUtils.NullClassReadsAsString | hinny-core/src/main/java/org/clever/hinny/core/ExcelUtils.java:1043-1045 | A null class and String read every cell the same way. |
| ExcelUtils.ContentConverterFirst | hinny-core/src/main/java/org/clever/hinny/core/ExcelUtils.java:1053-1059 | When the content property names a converter, the registered converters do not affect the result. |
| ExcelUtils.ContentPropertyAt | hinny-core/src/main/java/org/clever/hinny/core/ExcelUtils.java:936 | The content property of the given key, or null when it is absent. |
| ExcelUtils.CellValue | hinny-core/src/main/java/org/clever/hinny/core/ExcelUtils.java:932-944 | A Void column reads as "". Any other column reads through `ConvertToJavaObject`, with the row number as the column index. A conversion never fails for a missing column. |
| ExcelUtils.EmptyFirstCellBlanksColumn | hinny-core/src/main/java/org/clever/hinny/core/ExcelUtils.java:928-935 | An untyped column whose first cell is empty or untyped settles on Void. Every later cell in it then reads as "". |
| ExcelUtils.Inferred | hinny-core/src/main/java/org/clever/hinny/core/ExcelUtils.java:925-935 | After the cells of a set were seen, those columns are inferred from their cells and all others are as they were. No column is added or removed. |
| ExcelUtils.CellValueIgnoresColumnIndex | hinny-core/src/main/java/org/clever/hinny/core/ExcelUtils.java:936-943 | Two cells of one row with the same content, in columns with the same configured type, read the same whatever their column indexes, because the content property and the conversion's column index both come from the row number. |
| ExcelUtils.ReadCells | hinny-core/src/main/java/org/clever/hinny/core/ExcelUtils.java:925-946 | On success every cell was visited and every column was bound. The row maps each cell's header to the cell's value, read with the inferred type. On failure, the failing cell's column was unbound, or that cell's conversion failed with the error. In both cases the columns are those inferred from the cells visited. On success, every cell's conversion succeeded. On failure, every other visited cell was bound and converted, so the read stopped at its first failure. |
| ExcelUtils.ReadCell | hinny-core/src/main/java/org/clever/hinny/core/ExcelUtils.java:926-945 | One cell: an unbound column is a `MissingColumn` error. The column is inferred, and the value is stored under the column's header, or the conversion error is returned. On success, the cell's conversion succeeded. |
| ExcelUtils.ReadListener.Invoke | hinny-core/src/main/java/org/clever/hinny/core/ExcelUtils.java:907-946 | The start time is recorded only if unset. The row and the new columns are those of `ReadCells` with row number `rowIndex + 1`, with `int` wrap-around. So on success every cell's conversion succeeded, and on failure the read stopped at the first failing cell, every cell visited before it having converted. |
| ExcelUtils.ReadListener.DoAfterAllAnalysed | hinny-core/src/main/java/org/clever/hinny/core/ExcelUtils.java:972-976 | The end time is set only if unset, so repeated calls keep the first end time. Nothing else changes. |
| ExcelUtils.DataRowNumber | hinny-core/src/main/java/org/clever/hinny/core/ExcelUtils.java:1017-1018 | Without wrap-around, the data row number is `rowIndex + 1 - headRowNumber`. |
| ExcelUtils.PastLimitCountsDataRows | hinny-core/src/main/java/org/clever/hinny/core/ExcelUtils.java:1016-1019 | Without wrap-around, a row is past the limit exactly when the limit is positive and below `rowIndex + 1 - headRowNumber`. |
| ExcelUtils.ReadListener.HasNext | hinny-core/src/main/java/org/clever/hinny/core/ExcelUtils.java:1002-1027 | The result is `true` exactly when columns are bound (or no header rows are expected), the sheet was not read to the end, and the row is within the limit. Past the limit it records `rowIndex + 1` as the interrupt row and ends the sheet. The first two stops change nothing. |
| ExcelUtils.SheetData.Start | hinny-core/src/main/java/org/clever/hinny/core/ExcelUtils.java:909-911 | The start time is set only if unset. Nothing else changes. |
| ExcelUtils.FillHeadStrategy.constructor | hinny-core/src/main/java/org/clever/hinny/core/ExcelUtils.java:1076-1079 | No column has been visited yet. |
| ExcelUtils.FillHeadStrategy.BeforeCellCreate | hinny-core/src/main/java/org/clever/hinny/core/ExcelUtils.java:1082-1109 | Every visit leaves the column marked filled. A visit returns at once exactly when the column was visited before. A visit gets past the column-count guard exactly on the first visit of an index below the number of configured columns. Nothing further happens there, because the column lookup after the guard is commented out. |
| JavaInt.Wrap | clever-data-jdbc/src/main/java/org/clever/data/jdbc/JdbcDataSource.java:873 | The `int` result differs from the mathematical value by a multiple of 2^32, and in-range values are kept. |
| JavaInt.IntToStringInjective | clever-data-jdbc/src/main/java/org/clever/data/jdbc/JdbcDataSource.java:875-879 | `Integer.toString` renders different numbers differently. |
| JavaInt.DecimalRoundTrip | clever-data-jdbc/src/main/java/org/clever/data/jdbc/JdbcDataSource.java:875-879 | Reading back the decimal digits of a number gives the number. |
| JavaString.TrimIdempotent | clever-data-jdbc/src/main/java/org/clever/data/jdbc/JdbcDataSource.java:481-482 | Trimming a trimmed string changes nothing, so `update` re-trimming the generated SQL of `updateTable` is harmless. |
| JavaString.TrimIsInfix | hinny-mvc/src/main/java/org/clever/hinny/mvc/HttpRequestScriptHandler.java:66 | `trim` removes only leading and trailing characters up to U+0020. The result is a contiguous part of the input. |

## Left out

- SQL execution, the Hikari pool, `DataSourceTransactionManager`/`TransactionTemplate` and their commit, rollback and propagation semantics are oracles. `beginTX` is modelled up to the transaction definition it builds. `execute(action)` is not modelled.
- `SqlUtils` (count, insert, update and order-by SQL), `DialectFactory.buildPaginationSql`, `Page.getPages` and `SqlUtils.ASC` are uninterpreted fields of `SqlLibrary`. Their SQL shapes are not invented. The page clamp bound is stated under the explicit assumption that `getPages` is the ceiling of total/size (`PagesIsCeiling`).
- The cursor reader callbacks (`BatchDataReaderCallback`, `RowDataReaderCallback`) and `processEnd` are not modelled. `QueryCursor` states only which template call is made.
- `getDbType` (reads the connection URL) and `initCheck` are not modelled: the database type is a constructor parameter. The fetch size setting is not modelled either.
- The `queryXxx(sql)` overloads without a map, the `updateTable`/`insertTable`/`insertTables` overloads without `camelToUnderscore`, and the `queryByPage`/`queryBySort` overloads without a map or a count flag only pass defaults. They are covered by the parameters of the full forms.
- Jdbc.Orders: `equalsIgnoreCase` is modelled with ASCII case folding only. Java also matches the few non-ASCII characters whose upper case is an ASCII letter, such as 'ı' and 'ſ'. A direction spelled with them is not ascending in the model (`IsAsc` and `JavaString.EqualsIgnoreCase`).
- Jdbc.Definition: the checks follow Spring's `DefaultTransactionDefinition` setters, which are not part of this repository. Only the argument error is modelled, not the exception message.
- Jdbc.Page.constructor: the normalisation MyBatis-Plus `Page` may apply to its arguments is not part of this model. The number and size are stored as given.
- Jdbc.JdbcDataSource.Close: the effect of `super.close()` on the base class is taken to be setting `closed`. The base class is not part of this model.
- The atomicity of `AtomicInteger` is not modelled: the counter is sequential.
- Logging (`SqlLoggerUtils`, `log.*`) and clocks are not modelled. The `System.currentTimeMillis` timing in `preHandle` is not modelled. The start and end times of a sheet are a `now` parameter.
- In `supportScript`, the reflective call to `ResourceHttpRequestHandler.getResource` is not modelled. It is replaced by the `resourceExists` flag of `StaticResource`. A `getResource` method that reflection does not find leaves support on, which is the same outcome as a missing resource (`resourceExists` false).
- HTTP request and response I/O, the script engine pool, the engine's `require`, the script's `callMember` and JSON serialisation are oracles. The handler's own methods over them are the fields of `Hooks`, and the base versions of `getScriptObject` and `doHandle` are modelled by `DefaultGetScriptObject` and `DefaultDoHandle`. The `HttpContext` that `doHandle` passes to the script is not modelled. An exception in `returnEngineInstance` is logged and swallowed by the source. The model records the return as an event.
- ScriptHandler.PreHandle: a thrown exception is modelled as a `Failure` result, including the `RuntimeException` after the 503 status. The response writer's `println` is a `Write` event.
- Strings are sequences of Unicode scalar values, while Java strings are UTF-16 code units. The index arithmetic of `getScriptInfo` and `supportScript` agrees with Java only when no character outside the Basic Multilingual Plane precedes a cut point. Request URIs are normally percent-encoded ASCII.
- Floating point is not modelled: the `queryDouble`/`queryBigDecimal` results are opaque `Value`s.
- `ThreadUtils` only delegates to another library and is not modelled.
- The `ExcelUtils` reader and writer builders are not modelled. Also not modelled:
  - `ExcelDataReader`/`ExcelDataWriter`;
  - `onException`;
  - the style and width strategies;
  - the configuration POJOs;
  - the commented-out code.
- In `invoke`, the SHA-1 data signature, `ExcelData.addRow` with its duplicate detection, and the `readRow`/`readEnd` callbacks are not modelled. `invoke` is modelled up to the row map it builds.
- The converters' `convertToJavaData` and `GlobalConfiguration` are folded into the `convert` oracle of `Converters`.
- The sheet lookup by "sheetNo-sheetName" is not modelled. The listener is handed the sheet's record (`SheetData`).
- ExcelUtils.HeadBinding: header names are taken to be non-null. A `Map<Integer, String>` header map may hold a null name, which the source does not test for; with no column configuration it would bind such a column under a null header.
- ExcelUtils.FillHeadStrategy.BeforeCellCreate: the number of configured columns is fixed when the strategy is built. The source reads `config.columns` again on every call, so the model assumes the writer's column configuration does not change while a sheet is written.
- ExcelUtils.ReadCells: cells are visited in no particular order, as with a `HashMap`. When two bound columns share a header, the row keeps the value of one of them. The model does not say which.
- ExcelUtils.ReadListener.Invoke: on a failure, the columns typed before the exception stay typed. The model names the visited cells and the failing one as ghost values, not their visit order.
