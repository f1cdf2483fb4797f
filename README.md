# DataVault access layer, modelled in Dafny

DataVault is a C# data-access layer over a MySQL database laid out as a data
vault. Business entities are hubs (keyed by a hex id and a business key),
links between hubs, and satellites with the descriptive columns. Every hub,
link, view and lookup operation is one stored-procedure call. The procedure's
name comes from the operation and the entity. The call binds a status output
and a JSON result output.

This project models that layer value by value and object by object:

- **Naming.** Entity, table, key-column, sequence and lookup names are derived
  from a type name (`EntityHelper`). Entity properties are reached through
  property paths (`EntityExtensions`).
- **Query language.** The text predicate builders (`PredicateBuilder`,
  `WhereBuilder`, `SqlExpressionBuilder`, `QueryValue`) and the SQL command
  builders (select, insert, update) are modelled. So are the JSON filters the
  stored procedures take (`DataVaultQuery<T>`, `DataVaultQueryBuilder`).
- **JSON.** The model covers flattening a JSON document into dotted paths and
  nesting it back (`FlatJsonExtension`). It also covers the JSON helpers
  (`JsonSerializeExtensions`).
- **Command protocol.**
  - `DataCallback` and `DataCommand`: output-parameter callbacks fire once, in
    order, after a successful run.
  - `DataSession`: a connection counted across commands, and a session
    transaction.
  - `DataContext`: a lazily created session; saving commits or rolls back.
- **Data-vault calls.** `DataVaultCommand` binds the status and result outputs
  and turns a failed status into a business exception. `DataVaultContext`
  makes every data-vault call; each call is logged in the order it is made.
- **Repositories.** The shared repository (links between entities), the hub
  and link repositories, and the unit of work that hands them out.
- **Utilities.** The distributed cache, `Optional<T>` and its collection
  helpers, `Enumeration`, and the string, enumerable, dictionary, conversion
  and money extensions.

Code that changes state in place is modelled as classes whose methods state
the whole new state. These include the command, session, context,
repositories, unit of work, cache, builders and dictionary. The database, the
driver and the JSON serializer are parameters of those classes. Pure code is
modelled as functions, and lemmas state what the source promises about it.
Two behaviours of the code are easy to miss:

- `new QueryValue(null)` throws, because the constructor calls
  `value.GetType()` (src/Query/QueryValue.cs:11-15), so no condition is ever
  built on a null value. `BuildValue` still renders the keyword `NULL` for a
  null inside a value.
- Database names are not injective in general
  (src/Entities/EntityHelper.cs:52-55 underscore-cases and then upper-cases):
  `AB` and `A_b` both become `A_B` (`EntityHelper.DbNameCollision`). They are
  injective on conventional Pascal-case type names
  (`EntityHelper.DbNameInjectiveOnPascalNames`).

## Model

| member | source | states |
|---|---|---|
| `DistributedCaches.NormalizeKey` | src/Common/Caching/DistributedCache.cs:135-140 | the backend key is `c:` + cache name + `,k:` + key, five characters longer than the two together |
| `DistributedCaches.NormalizeKeyInjective` | src/Common/Caching/DistributedCache.cs:135-140 | the key is read back from the normalised key after the prefix, so two keys of one cache never share an entry |
| `DistributedCaches.DefaultEntryOptionsFirst` | src/Common/Caching/DistributedCache.cs:142-154 | the default options are the answer of the first configurator that gives non-null options |
| `DistributedCaches.DefaultEntryOptionsGlobal` | src/Common/Caching/DistributedCache.cs:142-154 | when no configurator answers, the global entry options are the default |
| `DistributedCaches.GetDefaultCacheEntryOptions` | src/Common/Caching/DistributedCache.cs:142-154 | the loop over the configurators returns exactly the first-answer default |
| `DistributedCaches.DistributedCache.constructor` | src/Common/Caching/DistributedCache.cs:31-42 | the default options are fixed once, from the configurators, for the (never set, so empty) cache name; the backend starts empty |
| `DistributedCaches.DistributedCache.Stored` | src/Common/Caching/DistributedCache.cs:44-64 | a non-null read only comes from an entry under the normalised key |
| `DistributedCaches.DistributedCache.Get` | src/Common/Caching/DistributedCache.cs:44-64 | a throwing backend gives null; otherwise the item stored under the normalised key, null when absent |
| `DistributedCaches.DistributedCache.Set` | src/Common/Caching/DistributedCache.cs:92-109 | the item is stored under the normalised key with the given options or the default ones; a throwing backend changes nothing |
| `DistributedCaches.DistributedCache.Refresh` | src/Common/Caching/DistributedCache.cs:111-121 | no stored item changes |
| `DistributedCaches.DistributedCache.Remove` | src/Common/Caching/DistributedCache.cs:123-133 | the normalised key is gone and nothing else changes; a throwing backend changes nothing |
| `DistributedCaches.DistributedCache.GetOrAdd` | src/Common/Caching/DistributedCache.cs:66-90 | the factory is called exactly when the read misses; a hit returns the cached item unchanged; a miss returns the factory's value and stores it (unless the factory throws or the store fails) |
| `DistributedCaches.GetOrAddTwice` | src/Common/Caching/DistributedCache.cs:66-90 | after a miss that stores an item, a second `GetOrAdd` of the key is a hit: the factory is not called again and the same item comes back |
| `CommandBuilders.Keys` | src/Query/InsertCommandBuilder.cs:23 | the dictionary's keys, one per entry, in order |
| `CommandBuilders.AddParameter` | src/Query/DataCommandBuilder.cs:35-42 | a name already present leaves the dictionary as it is; a new name is appended with its value |
| `CommandBuilders.AddParameterKeepsDictionary` | src/Query/DataCommandBuilder.cs:35-42 | adding keeps the keys distinct, the name present, and every earlier entry (so the first value for a name wins) |
| `CommandBuilders.WhereParams` | src/Query/DataCommandBuilder.cs:65-75 | one input parameter per condition, in order, named `@where` + field name and holding the condition's query value |
| `CommandBuilders.ObjectParams` | src/Query/InsertCommandBuilder.cs:29-32 | one object parameter per dictionary entry, in order, with the entry's name and value |
| `CommandBuilders.WhereText` | src/Query/DataCommandBuilder.cs:19 | empty without a where-builder, otherwise ` WHERE ` followed by the builder's text |
| `CommandBuilders.DataCommandBuilder.constructor` | src/Query/DataCommandBuilder.cs:9-26 | no table, no columns, no parameters, no where-builder |
| `CommandBuilders.DataCommandBuilder.From` | src/Query/DataCommandBuilder.cs:28-33 | only the table changes |
| `CommandBuilders.DataCommandBuilder.Column` | src/Query/DataCommandBuilder.cs:35-42 | the name always joins the columns; the value is recorded only for a new name; the parameters stay a dictionary |
| `CommandBuilders.DataCommandBuilder.Where` | src/Query/DataCommandBuilder.cs:44-56 | the given builder replaces any earlier one; nothing else changes |
| `CommandBuilders.DataCommandBuilder.WhereId` | src/Query/DataCommandBuilder.cs:58-63 | a fresh where-builder whose only condition is `id = id` |
| `CommandBuilders.DataCommandBuilder.AddWhereParams` | src/Query/DataCommandBuilder.cs:65-75 | the command gains exactly the where parameters, in condition order; without a where-builder a null dereference is raised and the command is untouched |
| `CommandBuilders.AddObjectParams` | src/Query/InsertCommandBuilder.cs:29-32 | the command gains exactly one parameter per dictionary entry, in order, and nothing else of it changes |
| `CommandBuilders.ColumnTwice` | src/Query/DataCommandBuilder.cs:35-42 | a repeated column name lengthens the columns by two but the dictionary by at most one, keeping the first value |
| `CommandBuilders.SelectSql` | src/Query/SelectCommandBuilder.cs:56 | the select text starts with `SELECT * FROM` and the table and ends with the `LIMIT offset, limit` clause |
| `CommandBuilders.SelectCommandBuilder.constructor` | src/Query/SelectCommandBuilder.cs:8-14 | limit 100, offset 0, no order, an empty builder |
| `CommandBuilders.SelectCommandBuilder.OrderString` | src/Query/SelectCommandBuilder.cs:16 | empty for a null or blank order, otherwise `ORDER BY` and the order |
| `CommandBuilders.SelectCommandBuilder.Limit` | src/Query/SelectCommandBuilder.cs:18-23 | only the limit changes |
| `CommandBuilders.SelectCommandBuilder.Offset` | src/Query/SelectCommandBuilder.cs:25-30 | only the offset changes |
| `CommandBuilders.SelectCommandBuilder.Paging` | src/Query/SelectCommandBuilder.cs:32-38 | the limit is the page size and the offset `pageSize * (page - 1)` in wrapping 32-bit arithmetic: always an `int`, exact when the product fits, and 0 for page 1 |
| `CommandBuilders.PagesAreContiguous` | src/Query/SelectCommandBuilder.cs:32-38 | the next page starts exactly where the previous one ends, the sum wrapping like any C# `int` sum |
| `CommandBuilders.PagingWrapsNegative` | src/Query/SelectCommandBuilder.cs:32-38 | past the `int` range the offset wraps: page 3 of `int.MaxValue` rows starts at -2 |
| `CommandBuilders.Wrap32` | src/Query/SelectCommandBuilder.cs:35 | a C# `int` result always lies in the `int` range and equals the mathematical value when that fits |
| `CommandBuilders.SelectCommandBuilder.OrderBy` | src/Query/SelectCommandBuilder.cs:40-45 | only the order changes |
| `CommandBuilders.SelectCommandBuilder.Build` | src/Query/SelectCommandBuilder.cs:52-61 | a fresh text command of the context's session holding the select text and no parameters |
| `CommandBuilders.AtNames` | src/Query/InsertCommandBuilder.cs:23 | each parameter name made to start with `@`, in order |
| `CommandBuilders.AtNamesNotBlank` | src/Query/InsertCommandBuilder.cs:23 | no `@` name is blank |
| `CommandBuilders.InsertValuesOnePerKey` | src/Query/InsertCommandBuilder.cs:23 | the values list keeps every parameter: it is all the `@` names joined by `, ` |
| `CommandBuilders.BuildInsert` | src/Query/InsertCommandBuilder.cs:19-35 | a fresh text command with the insert text and one parameter per dictionary entry, in order |
| `CommandBuilders.SetItems` | src/Query/UpdateCommandBuilder.cs:23 | one `k = @k` item per parameter name, in order |
| `CommandBuilders.UpdateSetOnePerKey` | src/Query/UpdateCommandBuilder.cs:23 | no item is skipped: the SET list is all items joined by commas |
| `CommandBuilders.BuildUpdate` | src/Query/UpdateCommandBuilder.cs:19-37 | fails with a null dereference exactly when there is no where-builder; otherwise the update text, the where parameters first and then one per dictionary entry |
| `DataCommands.Invoke` | src/Internal/DataCallback.cs:16-23 | the callback receives its parameter's current value, with `DBNull` replaced by the default of its declared type |
| `DataCommands.Deliveries` | src/Internal/DataCommand.cs:163-173 | draining the queue invokes every callback exactly once, in queue order |
| `DataCommands.DeliveriesAppend` | src/Internal/DataCommand.cs:163-173 | one more queued callback adds exactly its own delivery at the end |
| `DataCommands.WithOutputs` | src/Internal/DataCommand.cs:129-156 | after the run the driver has written the values of the non-input parameters it answers; input parameters keep their values |
| `DataCommands.RunFiresOnlyOnSuccess` | src/Internal/DataCommand.cs:129-156 | the callbacks fire exactly when the command succeeds, which needs a live session, an available connection and a successful action; then the action's result is returned |
| `DataCommands.RunReleasesConnection` | src/Internal/DataCommand.cs:129-156 | whatever the action does, the connection request is released in `finally`: the request counter is back where it was and a connection the command opened is closed |
| `DataCommands.RunWrapsFailures` | src/Internal/DataCommand.cs:147-150 | a failing action is rethrown as a `DataException` wrapping it, whose message ends with the command description |
| `DataCommands.DataCommand.constructor` | src/Internal/DataCommand.cs:19-25 | a fresh command on the session with its transaction, no text, no parameters and an empty callback queue |
| `DataCommands.DataCommand.Sql` | src/Internal/DataCommand.cs:29-34 | the text is set and the type is text; nothing else changes |
| `DataCommands.DataCommand.StoredProcedure` | src/Internal/DataCommand.cs:36-41 | the text is the procedure name and the type is stored procedure |
| `DataCommands.DataCommand.CommandTimeout` | src/Internal/DataCommand.cs:43-47 | only the timeout changes |
| `DataCommands.DataCommand.Parameter` | src/Internal/DataCommand.cs:49-56 | a null parameter raises `ArgumentNullException` and adds nothing; otherwise it is appended |
| `DataCommands.DataCommand.RegisterCallback` | src/Internal/DataCommand.cs:58-69 | the callback is queued at the back |
| `DataCommands.DataCommand.TriggerCallbacks` | src/Internal/DataCommand.cs:163-173 | the queue ends empty and every queued callback was invoked once, in order, with its parameter's value |
| `DataCommands.DataCommand.Dispose` | src/Internal/DataCommand.cs:158-161 | the command is disposed; its text, parameters and queue are kept |
| `DataCommands.DataCommand.ExecuteCommand` | src/Internal/DataCommand.cs:129-156 | a disposed command is refused and nothing changes; otherwise the result and the session's connection state are those of the run, the command ends disposed, and the output values are read and the callbacks fired exactly when it succeeds |
| `DataCommands.DataCommand.Execute` | src/Internal/DataCommand.cs:71-74 | the row count of `ExecuteNonQuery` through the same run; a disposed command is refused |
| `DataCommands.DataCommand.Query` | src/Internal/DataCommand.cs:86-108 | a null factory raises `ArgumentNullException` first; a success holds exactly one entity per row, in row order, and happens exactly when the run fires its callbacks |
| `DataCommands.DataCommand.QuerySingle` | src/Internal/DataCommand.cs:110-127 | a null factory raises `ArgumentNullException`; a success holds the entity of the first row, or null when there is no row |
| `DataCommands.DataCommand.QueryValue` | src/Internal/DataCommand.cs:76-84 | a success is the scalar converted by `ConvertValue`; a disposed command is refused |
| `DataCommands.ExecuteTwice` | src/Internal/DataCommand.cs:129-156 | a command runs at most once: executing it again is refused as disposed |
| `DataCommands.CreateCommand` | src/Internal/DataSession.cs:58-61 | a fresh, empty command in the session's current transaction |
| `DataCommands.SessionStoredProcedure` | src/Internal/DataSession.cs:68-71 | a fresh command of the session naming the stored procedure |
| `DataCommands.SessionSql` | src/Internal/DataSession.cs:63-66 | a fresh text command of the session |
| `DataCommands.AddParameters` | src/Internal/DataCommandExtensions.cs:13-19 | succeeds exactly when no parameter is null, adding them all in order; otherwise the parameters before the first null one have been added |
| `DataCommands.AddInput` | src/Internal/DataCommandExtensions.cs:21-36 | exactly one input parameter is appended |
| `DataCommands.AddInputObject` | src/Internal/DataCommandExtensions.cs:38-53 | exactly one object-typed input parameter is appended |
| `DataCommands.ParameterOut` | src/Internal/DataCommandExtensions.cs:55-69 | the callback is queued for the new output parameter, which is appended |
| `DataCommands.ParameterInOut` | src/Internal/DataCommandExtensions.cs:71-85 | the callback is queued for the new input-output parameter, which is appended with its initial value |
| `DataCommands.Return` | src/Internal/DataCommandExtensions.cs:87-100 | the callback is queued for the appended `@ReturnValue` parameter |
| `DataCommands.OutputCallbackReadsItsParameter` | src/Internal/DataCommandExtensions.cs:55-69 | a callback registered by `ParameterOut` receives the value the driver wrote into its own parameter, or the type default for `DBNull` |
| `DataCommandExtensions.ToDbValue` | src/Internal/DataCommandExtensions.cs:31 | a parameter value is never null: null becomes `DBNull`, other values are kept |
| `DataCommandExtensions.InputParameter` | src/Internal/DataCommandExtensions.cs:21-36 | an input parameter with the name and the value; the value's own type decides the database type, and for null the declared type does |
| `DataCommandExtensions.InputObjectParameter` | src/Internal/DataCommandExtensions.cs:38-53 | an input parameter whose database type is `Object` exactly when the value is null |
| `DataCommandExtensions.OutputParameter` | src/Internal/DataCommandExtensions.cs:55-69 | an output parameter of size -1 (MAX), with no value |
| `DataCommandExtensions.InputOutputParameter` | src/Internal/DataCommandExtensions.cs:71-85 | an input-output parameter carrying the initial value |
| `DataCommandExtensions.ReturnParameter` | src/Internal/DataCommandExtensions.cs:87-100 | a return-value parameter named `@ReturnValue` |
| `DataCommandExtensions.ValueText` | src/Internal/DataCommandExtensions.cs:137 | a null value is described as `NULL` |
| `DataCommandExtensions.CommandStringAppend` | src/Internal/DataCommandExtensions.cs:129-141 | each added parameter adds its `name: value` line at the end of the description |
| `DataCommandExtensions.CommandStringShape` | src/Internal/DataCommandExtensions.cs:129-141 | the description is exactly the `Query: [database].[text]` line followed, in parameter order, by one new line `name: value` per parameter, a null value reading `NULL` |
| `DataCommandExtensions.GetCommandString` | src/Internal/DataCommandExtensions.cs:129-141 | the loop builds exactly the description: the query line, then one line per parameter, in order |
| `DataCommandExtensions.IndexOfLineBreak` | src/Internal/DataCommandExtensions.cs:121 | the position of the first `\r` or `\n`, or -1 exactly when there is none |
| `DataCommandExtensions.FirstLine` | src/Internal/DataCommandExtensions.cs:121-122 | a prefix of the message without line breaks, ending just before the first line break if there is one |
| `DataCommandExtensions.CreateDataException` | src/Internal/DataCommandExtensions.cs:107-127 | with no command text the original exception goes on unchanged; otherwise a `DataException` wrapping the original, with the first line of the (aggregate's inner) message followed by the description |
| `DataCommandExtensions.CreateDataExceptionMessage` | src/Internal/DataCommandExtensions.cs:107-127 | the message ends with the description and starts with the cause's first line; a single-line cause is kept whole |
| `DataCommands.DataCommand.ReadOutputs` | src/Internal/DataCommand.cs:137-145 | on success the driver's output values are read into the parameters, then the whole callback queue is drained, each callback invoked once in queue order |
| `DataCommands.DataCommand.Attempt` | src/Internal/DataCommand.cs:135-149 | the connection is ensured and the action taken; a failure of either is wrapped by `CreateDataException`, and only when both succeed are the outputs read and the callbacks fired |
| `DataSessions.Ensure` | src/Internal/DataSession.cs:73-89 | a closed connection is opened and marked as opened by the session (an exception from opening goes on with nothing changed); a session-opened connection counts one more request; a foreign one is not counted |
| `DataSessions.EnsureOutcome` | src/Internal/DataSession.cs:86-88 | `EnsureConnection` succeeds exactly when the connection ends neither closed nor broken, and otherwise reports the state it found |
| `DataSessions.Release` | src/Internal/DataSession.cs:91-109 | a foreign connection is left alone; the counter drops by one, and the connection is closed and forgotten when it reaches zero |
| `DataSessions.StepsKeepValid` | src/Internal/DataSession.cs:73-109 | both steps keep the counter non-negative and positive exactly while the session holds a connection it opened |
| `DataSessions.ForeignConnectionUntouched` | src/Internal/DataSession.cs:24-35 | a connection handed over open is never counted and never closed by the session |
| `DataSessions.EnsureThenRelease` | src/Internal/DataSession.cs:73-109 | a release balances an ensure: the counter is back where it was, and a connection the session had to open is closed again |
| `DataSessions.EnsureTimesCounts` | src/Internal/DataSession.cs:83-84 | every further ensure on a session-opened connection adds one request |
| `DataSessions.ReleaseTimesCounts` | src/Internal/DataSession.cs:98-108 | each release removes one request, and the one that reaches zero closes the connection |
| `DataSessions.ReleaseIdle` | src/Internal/DataSession.cs:95-96 | releasing an idle session changes nothing |
| `DataSessions.NestedUseClosesOnLastRelease` | src/Internal/DataSession.cs:73-109 | with `n` nested users the connection is opened once and closed exactly at the `n`-th release |
| `DataSessions.DataSession.constructor` | src/Internal/DataSession.cs:24-35 | the session keeps the connection, has opened nothing, counts no request and has no transaction |
| `DataSessions.DataSession.BeginTransaction` | src/Internal/DataSession.cs:47-56 | an existing transaction is returned and nothing happens; otherwise the connection is ensured and a transaction begun and kept, and a failure of either leaves no transaction |
| `DataSessions.DataSession.EnsureConnection` | src/Internal/DataSession.cs:73-89 | a disposed session is refused; otherwise the connection state and the outcome are those of `Ensure` |
| `DataSessions.DataSession.ReleaseConnection` | src/Internal/DataSession.cs:91-109 | a disposed session is refused; otherwise the connection state is that of `Release` |
| `DataSessions.DataSession.Dispose` | src/Internal/DataSession.cs:116-141 | the transaction is released without a rollback and cleared; an owned connection is closed if open and disposed; a second call does nothing |
| `DataSessions.NewDataSession` | src/Internal/DataSession.cs:24-35 | a null connection raises `ArgumentNullException`, an empty connection string `ArgumentException`; otherwise a fresh idle session |
| `DataSessions.BeginTwice` | src/Internal/DataSession.cs:47-56 | beginning twice gives the same transaction and begins at most one |
| `DataContexts.DataContext.constructor` | src/DataContext.cs:14-17 | the lazy session is not created yet |
| `DataContexts.DataContext.GetSession` | src/DataContext.cs:12 | reading the session creates it and gives the one session |
| `DataContexts.DataContext.BeginTransaction` | src/DataContext.cs:19-22 | the session is created; an existing transaction is kept; otherwise a success is exactly a begun transaction over an ensured connection; a failed ensure or a failed begin is that failure, with no transaction kept and no transaction event; on a disposed session it throws `ObjectDisposedException` and nothing changes |
| `DataContexts.DataContext.SaveChanges` | src/DataContext.cs:24-44 | without a created session in a transaction nothing happens; otherwise a commit succeeds, or a failed commit is rolled back and reported as `DataUpdateException` (a failing rollback replaces it), and in every case the transaction is released and dropped and the connection request released |
| `DataContexts.DataContext.Dispose` | src/DataContext.cs:46-52 | the session is disposed only if it was created; a second call does nothing |
| `DataContexts.BeginThenSave` | src/DataContext.cs:19-44 | a transaction begun through the context and saved gives its connection request back, leaves the session out of transaction, and saving succeeds exactly when the commit does |
| `DataVaultCommands.DecodeStatusFailsClosed` | src/DataVaultCommand.cs:28 | a null, empty or unknown status decodes to `Failed`; only a status reported as `Success` decodes to success |
| `DataVaultCommands.DecodeStatusByName` | src/DataVaultCommand.cs:28 | the status text `Success` decodes to success |
| `DataVaultCommands.DecodeStatusByNumber` | src/DataVaultCommand.cs:28 | the status text `0` decodes to success |
| `DataVaultCommands.DecodeStatusOfNameList` | src/DataVaultCommand.cs:28 | the status list `Success,Success` decodes to success, the OR of its names |
| `DataVaultCommands.DecodeStatusOverflow` | src/DataVaultCommand.cs:28 | the status is read as a 32-bit enum: the number 2^31 is out of range and decodes to `Failed` |
| `DataVaultCommands.AsText` | src/DataVaultCommand.cs:28-29 | an output callback receives a string exactly when the parameter holds one |
| `DataVaultCommands.ResultOfOutputs` | src/DataVaultCommand.cs:23-32 | once the command has run, its result is exactly the decoded status and the text the driver wrote to the two output parameters, whatever inputs follow them |
| `DataVaultCommands.StringParameter` | src/DataVaultCommand.cs:103-108 | a string input parameter; a null value is passed as `DBNull` |
| `DataVaultCommands.TokenText` | src/DataVaultCommand.cs:152 | a string token gives its text and null gives null; an object or array token fails the cast |
| `DataVaultCommands.ParseMessageCases` | src/DataVaultCommand.cs:141-156 | text that is not JSON is the message itself; a JSON object's `message` property is the message, and without one the whole text is; JSON that is not an object raises a reader error |
| `DataVaultCommands.ParseMessageOfArray` | src/DataVaultCommand.cs:141-156 | a JSON array passes the JSON check but is not an object, so parsing the message fails with a reader error |
| `DataVaultCommands.HandleResultCases` | src/DataVaultCommand.cs:117-132 | success exactly for status `Success`, giving the JSON result; any other status is a business exception carrying the status, the parsed message and the command description |
| `DataVaultCommands.DecodeTyped` | src/DataVaultCommand.cs:134-139 | a result without JSON content gives the default; a value only comes from JSON content |
| `DataVaultCommands.DecodeTypedRenders` | src/DataVaultCommand.cs:138 | JSON content is always nested into a tree before it is deserialised, and decoding succeeds exactly when deserialising the nested text does |
| `DataVaultCommands.DataVaultCommand.constructor` | src/DataVaultCommand.cs:18-21 | the command is wrapped as given |
| `DataVaultCommands.DataVaultCommand.WithParameter` | src/DataVaultCommand.cs:103-108 | exactly one string parameter is appended; nothing else changes |
| `DataVaultCommands.DataVaultCommand.WithJson` | src/DataVaultCommand.cs:40-66 | the payload is appended as its JSON text (null stays null) |
| `DataVaultCommands.DataVaultCommand.WithHubData` | src/DataVaultCommand.cs:40-45 | the payload is appended as `HUB_DATA` JSON |
| `DataVaultCommands.DataVaultCommand.WithSatData` | src/DataVaultCommand.cs:47-52 | the payload is appended as `SAT_DATA` JSON |
| `DataVaultCommands.DataVaultCommand.WithSatQuery` | src/DataVaultCommand.cs:54-59 | the payload is appended as `SAT_QUERY` JSON |
| `DataVaultCommands.DataVaultCommand.WithForeignKeys` | src/DataVaultCommand.cs:61-66 | the payload is appended as `FK` JSON |
| `DataVaultCommands.DataVaultCommand.WithMd` | src/DataVaultCommand.cs:82-87 | the audit information is appended as `MD` JSON |
| `DataVaultCommands.DataVaultCommand.WithHubPk` | src/DataVaultCommand.cs:68-73 | the key is appended as `HUB_PK` |
| `DataVaultCommands.DataVaultCommand.WithLinkPk` | src/DataVaultCommand.cs:75-80 | the key is appended as `LINK_PK` |
| `DataVaultCommands.DataVaultCommand.WithLookupTable` | src/DataVaultCommand.cs:89-94 | the table is appended as `LKP_TABLE` |
| `DataVaultCommands.DataVaultCommand.WithLookupCode` | src/DataVaultCommand.cs:96-101 | the code is appended as `LKP_CODE_VALUE` |
| `DataVaultCommands.DataVaultCommand.Execute` | src/DataVaultCommand.cs:110-115 | succeeds exactly when the underlying run fires its callbacks, and then returns the result those callbacks filled from the driver's output values |
| `DataVaultCommands.DataVaultCommand.ExecuteWithErrorHandling` | src/DataVaultCommand.cs:117-132 | after a successful run the outcome is the handled result, with the command description as it stands after execution; a success needs a successful run |
| `DataVaultCommands.DataVaultCommand.ExecuteWithErrorHandlingOf` | src/DataVaultCommand.cs:134-139 | a handled error propagates; otherwise the JSON result is nested and decoded |
| `DataVaultCommands.ReadOnlyStoredProcedure` | src/DataVaultCommand.cs:23-32 | a fresh stored-procedure command with the status and result output parameters and their two callbacks, before any input; its result starts as the default |
| `DataVaultCommands.UpdateStoredProcedure` | src/DataVaultCommand.cs:34-38 | the session transaction is begun first and the command runs in it; the audit information follows the two outputs; an existing transaction is kept |
| `DataVaultContexts.ProcedureName` | src/DataVaultContext.cs:36 | the procedure name is the operation followed by the entity name |
| `DataVaultContexts.ProcedureNameNamesEntity` | src/DataVaultContext.cs:36 | the entity name is read back from the procedure name of a known operation, so one operation never calls the same procedure for entities of different names |
| `DataVaultContexts.AuditOnlyOnUpdates` | src/DataVaultCommand.cs:23-38 | every update call carries the audit information right after the two outputs; a read-only call carries none |
| `DataVaultContexts.SatSelection` | src/Repositories/DataVaultRepository.cs:103 | the repositories select every satellite column with details, none without |
| `DataVaultContexts.HasSatValues` | src/DataVaultContext.cs:66-68 | true exactly when some satellite property carries a value; null data and data that is not an object throw |
| `DataVaultContexts.OrEmpty` | src/DataVaultContext.cs:117-118 | no content reads as an empty list; a failure propagates |
| `DataVaultContexts.ValidateItems` | src/DataVaultContext.cs:170-175 | a blank value is invalid; a failed read propagates; `Any` on a null list throws |
| `DataVaultContexts.ValidateItemsExactly` | src/DataVaultContext.cs:170-175 | a value is valid exactly when it is not blank and some item read has it as its code |
| `DataVaultContexts.PrepareReadRecord` | src/DataVaultContext.cs:34-42 | the command `ReadRecord` builds has exactly the parameters of the modelled call; a null selection reads every column |
| `DataVaultContexts.PrepareCreateRecord` | src/DataVaultContext.cs:44-52 | once the session transaction is open, the command `CreateRecord` builds has exactly the parameters of the modelled call; a null hub is sent as `{}` |
| `DataVaultContexts.DataVaultContext.constructor` | src/DataVaultContext.cs:24-32 | the context keeps its audit context, cache and `DataContext` part, and has made no call |
| `DataVaultContexts.DataVaultContext.AnswerSucceedsOnlyWhenReported` | src/DataVaultCommand.cs:28 | the answer fails exactly on a driver error; a missing, null or unknown status reads as `Failed`, so `Success` means the procedure wrote that status |
| `DataVaultContexts.DataVaultContext.HandledAtCases` | src/DataVaultCommand.cs:117-132 | a driver error is thrown; otherwise the answer is handled with the description of the command as it stands after execution, its outputs holding what the driver wrote |
| `DataVaultContexts.DataVaultContext.BusinessErrorDescribesOutputs` | src/DataVaultCommand.cs:119-129 | a status other than `Success` throws a business exception with that status, whose description shows the status and result the procedure wrote rather than the nulls bound before execution |
| `DataVaultContexts.DataVaultContext.Typed` | src/DataVaultCommand.cs:134-139 | a handled error propagates; otherwise the JSON text is decoded |
| `DataVaultContexts.DataVaultContext.Executed` | src/DataVaultCommand.cs:110-115 | `Execute()` throws exactly on a driver error |
| `DataVaultContexts.DataVaultContext.ExecutedAt` | src/DataVaultCommand.cs:110-115 | the same for a call made after `n` others: it throws exactly the driver error of that call |
| `DataVaultContexts.DataVaultContext.FailedStatusNeverYields` | src/DataVaultCommand.cs:117-132 | a procedure reporting any status but `Success` never yields a result, typed or not, while `Execute()` lets the status pass |
| `DataVaultContexts.DataVaultContext.EmptyResultIsNull` | src/DataVaultCommand.cs:134-139 | a successful status without JSON content reads as no record |
| `DataVaultContexts.DataVaultContext.ReadRecord` | src/DataVaultContext.cs:34-42 | one `ReadRecord<entity>` call, whose decoded answer is the result |
| `DataVaultContexts.DataVaultContext.CreateRecord` | src/DataVaultContext.cs:44-52 | one `CreateRecord<entity>` update call with the audit information; the handled JSON text (the new id) is the result |
| `DataVaultContexts.DataVaultContext.LinkRecord` | src/DataVaultContext.cs:54-62 | one `LinkRecord<entity>` update call; null foreign keys are sent as `{}` |
| `DataVaultContexts.DataVaultContext.UpdateRecord` | src/DataVaultContext.cs:64-81 | when no satellite property carries a value nothing is sent and the key comes back as given; otherwise one `UpdateRecord<entity>` call whose handled answer is the result |
| `DataVaultContexts.DataVaultContext.UpdateLink` | src/DataVaultContext.cs:83-91 | one `UpdateLink<entity>` call; only a driver error is reported, not the status |
| `DataVaultContexts.DataVaultContext.DeleteRecord` | src/DataVaultContext.cs:93-100 | one `DeleteRecord<entity>` call; only a driver error is reported |
| `DataVaultContexts.DataVaultContext.UnLinkRecord` | src/DataVaultContext.cs:102-109 | one `UnLinkRecord<entity>` call; only a driver error is reported |
| `DataVaultContexts.DataVaultContext.ReadRecords` | src/DataVaultContext.cs:111-119 | one `ReadRecords<entity>` call; no content reads as an empty list |
| `DataVaultContexts.DataVaultContext.ReadLinks` | src/DataVaultContext.cs:121-129 | one `ReadLinks<entity>` call; no content reads as an empty list |
| `DataVaultContexts.DataVaultContext.ReadView` | src/DataVaultContext.cs:138-146 | one `ReadView<view>` call; no content reads as an empty list |
| `DataVaultContexts.DataVaultContext.ReadViewOf` | src/DataVaultContext.cs:131-136 | the view named after the entity is read |
| `DataVaultContexts.DataVaultContext.ReadLookups` | src/DataVaultContext.cs:177-181 | one `ReadLookups` call; no content reads as null |
| `DataVaultContexts.DataVaultContext.ReadLookup` | src/DataVaultContext.cs:195-215 | a list cached under `Lookup:<name>` is returned without a call; otherwise one `ReadLookup` call is made and its list cached for an absolute 60 minutes; a list read and cached is what the next read gives |
| `DataVaultContexts.DataVaultContext.ReadLookupOf` | src/DataVaultContext.cs:183-193 | the table named after the lookup type is read |
| `DataVaultContexts.DataVaultContext.ValidateLookupValue` | src/DataVaultContext.cs:170-175 | the list is read first, then the value must be non-blank and one of its codes |
| `DataVaultContexts.DataVaultContext.ValidateLookupValueOf` | src/DataVaultContext.cs:158-168 | a blank value is invalid without reading anything; otherwise the lookup type's table is validated against |
| `DataVaultContexts.DataVaultContext.CheckLookupValue` | src/DataVaultContext.cs:148-156 | throws `InvalidLookupException`, naming the codes read, exactly when the value is blank or not one of the codes; a failed read propagates |
| `DataVaultContexts.SequenceCallbackReadsReturnValue` | src/DataVaultContext.cs:223-226 | the `Return<string>` callback of the `GetUniqueSequence` call reads the text the driver wrote into its `@ReturnValue` parameter, null when none was written |
| `DataVaultContexts.DataVaultContext.GenerateEntityUniqueSequence` | src/DataVaultContext.cs:217-229 | one `GetUniqueSequence` call with the entity's sequence name and a return parameter; a driver error is thrown; otherwise the result is the text the driver wrote into `@ReturnValue` |
| `DataVaultRepositories.KeysOfExactly` | src/Repositories/DataVaultRepository.cs:130 | the keys are read exactly when no entity's key throws, and then they are exactly the non-null keys of the entities |
| `DataVaultRepositories.DistinctExactly` | src/Repositories/DataVaultRepository.cs:205 | `Distinct()` keeps every element once and adds none |
| `DataVaultRepositories.LinkIds` | src/Repositories/DataVaultRepository.cs:186-189 | one id per link, in order |
| `DataVaultRepositories.LinkIdsFailurePersists` | src/Repositories/DataVaultRepository.cs:186-189 | once the id of some link cannot be read, the ids of the whole list cannot either |
| `DataVaultRepositories.UnLinkCalls` | src/Repositories/DataVaultRepository.cs:186-189 | one `UnLinkRecord` call per link id, in order |
| `DataVaultRepositories.FirstOrNull` | src/Repositories/DataVaultRepository.cs:81 | the first row, or null when there is none |
| `DataVaultRepositories.LinksQueryWithoutIds` | src/Repositories/DataVaultRepository.cs:32-43 | a link query with no ids filters nothing: its filter list is empty |
| `DataVaultRepositories.LinksQueryWithIds` | src/Repositories/DataVaultRepository.cs:32-43 | a link query with ids has exactly one filter group, the entity's |
| `DataVaultRepositories.DataVaultRepository.constructor` | src/Repositories/DataVaultRepository.cs:16-19 | the repository keeps its context and entity type |
| `DataVaultRepositories.DataVaultRepository.GetListFromView` | src/Repositories/DataVaultRepository.cs:21-24 | one read of the view named after the entity; no content reads as empty |
| `DataVaultRepositories.DataVaultRepository.GetLinks` | src/Repositories/DataVaultRepository.cs:32-43 | one `ReadLinks` call filtering the entity's end by the ids |
| `DataVaultRepositories.DataVaultRepository.GetLinksOf` | src/Repositories/DataVaultRepository.cs:26-30 | the same query for a single id |
| `DataVaultRepositories.DataVaultRepository.HasLink` | src/Repositories/DataVaultRepository.cs:45-49 | true exactly when the links read for the id are not empty |
| `DataVaultRepositories.DataVaultRepository.GetLinksBetween` | src/Repositories/DataVaultRepository.cs:51-68 | with no linked ids nothing is read and nothing returned; two ends of the same type throw as a repeated dictionary key; otherwise one read of the links between the id and the linked ids |
| `DataVaultRepositories.DataVaultRepository.GetLink` | src/Repositories/DataVaultRepository.cs:70-82 | the first link between the two ids, or null; two ends of the same type throw |
| `DataVaultRepositories.DataVaultRepository.ExistLink` | src/Repositories/DataVaultRepository.cs:84-89 | two ends of the same type throw before any call; otherwise exactly one `ReadLinks` of the links between the two ids is made; a failed read is its error; otherwise true exactly when the first link found has a non-blank id, and true implies some link was read |
| `DataVaultRepositories.LinkedIdsExactly` | src/Repositories/DataVaultRepository.cs:199-207 | the linked ids are read exactly when no link's key throws, and then they are the other hubs' keys on the links, each exactly once, nulls dropped, and only those |
| `DataVaultRepositories.DataVaultRepository.GetLinkedEntityIds` | src/Repositories/DataVaultRepository.cs:199-207 | one `ReadLinks` of the given ids; a failed read is passed on, otherwise the result is the linked ids of the links read |
| `DataVaultRepositories.DataVaultRepository.LinkedEntitiesCases` | src/Repositories/DataVaultRepository.cs:91-105 | the links of the id are read first; a failed read or an unreadable key is the error, with no other call; no linked ids give an empty list; otherwise one `ReadRecords` of the other hubs by those ids, whose answer (no content reading as empty) is the result |
| `DataVaultRepositories.DataVaultRepository.GetLinkedEntities` | src/Repositories/DataVaultRepository.cs:91-105 | the result and the calls made are exactly those `LinkedEntitiesCases` describes |
| `DataVaultRepositories.DataVaultRepository.LinkToCases` | src/Repositories/DataVaultRepository.cs:135-154 | for a non-blank id of another type the links between the two ids are read first; a failed read is the error; an existing link gives its id with no other call; otherwise a `LinkRecord` holding both ids is made next and its handled answer, the new link id, is the result |
| `DataVaultRepositories.DataVaultRepository.LinkTo` | src/Repositories/DataVaultRepository.cs:135-154 | a blank id makes no call and gives empty text; two ends of the same type throw as a repeated dictionary key; otherwise the read, then either the existing link's id or the handled answer of the new `LinkRecord` call; at most two calls |
| `DataVaultRepositories.StepsElements` | src/Repositories/DataVaultRepository.cs:116-121 | when the loop over ids succeeds, element i is what `LinkTo` gives for id i after the calls made for the ids before it |
| `DataVaultRepositories.StepsFailurePersists` | src/Repositories/DataVaultRepository.cs:116-121 | once an id throws, the loop's outcome is that exception, and the calls made before it stay |
| `DataVaultRepositories.DataVaultRepository.LinkToIdsFacts` | src/Repositories/DataVaultRepository.cs:107-124 | the loop makes at most two calls per id; on success it gives one result per id, blank ids giving empty text, and with the entity's own type on the other end only blank ids succeed |
| `DataVaultRepositories.DataVaultRepository.LinkToIds` | src/Repositories/DataVaultRepository.cs:107-124 | no ids make no call and give an empty list; otherwise the result and the calls are those of `LinkTo` applied to each id in turn, stopping at the first exception |
| `DataVaultRepositories.DataVaultRepository.LinkEach` | src/Repositories/DataVaultRepository.cs:116-121 | the loop's result and calls are exactly those of `LinkTo` applied to each id in turn |
| `DataVaultRepositories.DataVaultRepository.LinkToEntities` | src/Repositories/DataVaultRepository.cs:126-133 | the entities' ids are read first (nulls dropped; an unreadable id fails before any call); then the result and the calls are those of `LinkTo` applied to each id in turn |
| `DataVaultRepositories.DataVaultRepository.UnLinkAtExactly` | src/Repositories/DataVaultRepository.cs:167-170 | the loop over links reports no error exactly when every link's id is read and each `UnLinkRecord`, in order, raises nothing; then it has made exactly one `UnLinkRecord` per link, in order |
| `DataVaultRepositories.DataVaultRepository.UnLinkAtFailurePersists` | src/Repositories/DataVaultRepository.cs:167-170 | once the loop fails on some link, that failure and the calls made before it are the loop's outcome |
| `DataVaultRepositories.DataVaultRepository.UnLinkEach` | src/Repositories/DataVaultRepository.cs:167-170 | the result and the calls made are exactly the loop's outcome `UnLinkAt` |
| `DataVaultRepositories.DataVaultRepository.UnLinkRead` | src/Repositories/DataVaultRepository.cs:165-170 | the links are read with the query, then the loop runs over them; a failed read is its error; the result and the calls are exactly `UnLinkReadAt` |
| `DataVaultRepositories.DataVaultRepository.UnLinkReadAtOf` | src/Repositories/DataVaultRepository.cs:165-170 | a failed read is the error after that one call; otherwise the outcome is the read followed by the loop over the links read |
| `DataVaultRepositories.DataVaultRepository.UnLinkToCases` | src/Repositories/DataVaultRepository.cs:156-171 | no ids remove nothing and read nothing; two ends of the same type throw before any call; otherwise the links between the entity and the ids are read first, a failed read is the error, and the unlink reports no error exactly when every link read was removed, with exactly one `UnLinkRecord` per link after the read |
| `DataVaultRepositories.DataVaultRepository.UnLinkTo` | src/Repositories/DataVaultRepository.cs:156-171 | the result and the calls made are exactly those `UnLinkToCases` describes |
| `DataVaultRepositories.DataVaultRepository.UnLinkToEntities` | src/Repositories/DataVaultRepository.cs:173-179 | an unreadable entity id is the error before any call; null entities remove nothing; otherwise the result and the calls are those of `UnLinkTo` with the entities' ids |
| `DataVaultRepositories.DataVaultRepository.UnLinkAllCases` | src/Repositories/DataVaultRepository.cs:181-190 | every link holding the id is read first, a failed read is the error, and the unlink reports no error exactly when every link read was removed, with exactly one `UnLinkRecord` per link after the read |
| `DataVaultRepositories.DataVaultRepository.UnLinkAll` | src/Repositories/DataVaultRepository.cs:181-190 | the result and the calls made are exactly those `UnLinkAllCases` describes |
| `HubRepositories.ColumnEquals` | src/Repositories/HubRepository.cs:34 | the one-property filter object `EqualsPK`/`EqualsBK` build holds the column with the key as a string, or a JSON null for a null key |
| `HubRepositories.ColumnEqualsKeys` | src/Repositories/HubRepository.cs:87 | for a non-null key that object is exactly the `EqualsPK` and the `EqualsBK` query |
| `HubRepositories.Missing` | src/Repositories/HubRepository.cs:130 | a key is kept exactly when it is requested and not among the keys found |
| `HubRepositories.ExceptExactly` | src/Repositories/HubRepository.cs:130 | `keys.Except(found)` keeps exactly the requested keys not found, each only once |
| `HubRepositories.CheckFoundExactly` | src/Repositories/HubRepository.cs:130-137 | the existence check passes exactly when every requested key is the key of an entity read, and then returns those entities unchanged; a missing key fails with `EntityNotFound` |
| `HubRepositories.HubEntityBk` | src/Repositories/HubRepository.cs:130 | a conventional hub entity's business key is read back from its hub data |
| `HubRepositories.SampleCustomerKeys` | src/Repositories/HubRepository.cs:156 | a customer stored with id `a` and business key `x` reads back that id and that key |
| `HubRepositories.KeyMismatch` | src/Repositories/HubRepository.cs:156-161 | a hub whose business key differs from its id is reported missing when checked by business key and found when checked by id |
| `HubRepositories.IdsComparedWithBusinessKeys` | src/Repositories/HubRepository.cs:156-161 | asking by id for the customer `a` (business key `x`) that was read back throws not-found as written, while comparing ids accepts it |
| `HubRepositories.ClearHub` | src/Repositories/HubRepository.cs:44 | setting the hub property to null fails exactly for a null entity or a missing property; otherwise only that property changes, to null |
| `HubRepositories.ClearHubIdempotent` | src/Repositories/HubRepository.cs:44 | clearing the hub twice gives the same entity as clearing it once |
| `HubRepositories.HubRepository.constructor` | src/Repositories/HubRepository.cs:16-18 | the repository keeps its context and entity type, and its shared part works on the same ones |
| `HubRepositories.HubRepository.Serialized` | src/Repositories/HubRepository.cs:39 | an entity is sent as JSON exactly when it is not null |
| `HubRepositories.HubRepository.Find` | src/Repositories/HubRepository.cs:32-35 | one `ReadRecord` is made, with the PK-equality filter and `*` or no satellite columns, and its typed result is returned |
| `HubRepositories.HubRepository.Get` | src/Repositories/HubRepository.cs:20-30 | succeeds exactly when `Find` finds a hub, which it returns; a null result throws not-found with the id, and a failed read passes its error on |
| `HubRepositories.HubRepository.DeleteCases` | src/Repositories/HubRepository.cs:49-54 | the hub is always read first; the delete is sent exactly when the hub was found; `Delete` succeeds exactly when the hub was found and the delete raised nothing; a failed read is its error and a missing hub throws not-found with the id |
| `HubRepositories.HubRepository.Create` | src/Repositories/HubRepository.cs:37-40 | reading the hub data can fail before anything is sent; otherwise one `CreateRecord` call with the hub data and the entity is made and its answer returned |
| `HubRepositories.HubRepository.Update` | src/Repositories/HubRepository.cs:42-47 | the entity's hub property is cleared in place, then the update is sent only when satellite values remain, and the call's error is the result |
| `HubRepositories.HubRepository.Delete` | src/Repositories/HubRepository.cs:49-54 | the result and the calls made are exactly those `DeleteCases` describes |
| `HubRepositories.HubRepository.DeleteEntity` | src/Repositories/DataVaultRepository.cs:219-224 | an unreadable entity id is the error with nothing called; otherwise the result and the calls are exactly those of `Delete` with the id |
| `HubRepositories.HubRepository.FindByHub` | src/Repositories/HubRepository.cs:68-71 | one `ReadRecord` with the hub data as the filter is made and its typed result returned |
| `HubRepositories.HubRepository.GetByHub` | src/Repositories/HubRepository.cs:56-66 | reads with the default full selection whatever `includeDetails` says; none found throws not-found with the hub data's JSON |
| `HubRepositories.HubRepository.FindByBk` | src/Repositories/HubRepository.cs:85-88 | one `ReadRecord` with the BK-equality filter is made and its typed result returned |
| `HubRepositories.HubRepository.GetByBk` | src/Repositories/HubRepository.cs:73-83 | succeeds exactly when a hub is found whose id is not empty; a null hub or an empty id throws not-found with the key |
| `HubRepositories.HubRepository.GetListByIds` | src/Repositories/HubRepository.cs:95-105 | null or no ids read nothing and give an empty list; otherwise one `ReadRecords` with the `ContainPKs` filter is made |
| `HubRepositories.HubRepository.GetListByBKs` | src/Repositories/HubRepository.cs:107-117 | null or no keys read nothing and give an empty list; otherwise one `ReadRecords` with the `ContainBKs` filter is made |
| `HubRepositories.HubRepository.CheckExistBKsAndGetList` | src/Repositories/HubRepository.cs:119-138 | blank keys are dropped; on success every non-blank key is the business key of a hub returned, otherwise the missing keys are reported |
| `HubRepositories.HubRepository.CheckExistBKsAndGetIds` | src/Repositories/HubRepository.cs:140-143 | the ids returned are exactly the ids of the hubs the business-key check returns |
| `HubRepositories.HubRepository.CheckExistPKsAndGetListAsWritten` | src/Repositories/HubRepository.cs:145-164 | the hubs read by id are checked against the requested ids using their business keys, as the code does |
| `HubRepositories.HubRepository.CheckExistPKsAndGetList` | src/Repositories/HubRepository.cs:145-164 | corrected: on success every non-blank requested id is the id of a hub returned |
| `LinkRepositories.FindQuery` | src/Repositories/LinkRepository.cs:32-36 | the query holds `filterPK` for the id (a null id read as empty text) and `select` of `*` or nothing |
| `LinkRepositories.FindQueryInjective` | src/Repositories/LinkRepository.cs:34 | different link ids give different queries |
| `LinkRepositories.LinkRepository.constructor` | src/Repositories/LinkRepository.cs:14-16 | the repository keeps its context and link type, and its shared part works on the same ones |
| `LinkRepositories.LinkRepository.Serialized` | src/Repositories/LinkRepository.cs:43 | an entity is sent as JSON exactly when it is not null |
| `LinkRepositories.LinkRepository.Find` | src/Repositories/LinkRepository.cs:30-39 | one `ReadLinks` call is made; the first link it gives, or null, is the result |
| `LinkRepositories.LinkRepository.Get` | src/Repositories/LinkRepository.cs:18-28 | the link `Find` gives; none found throws not-found with the id |
| `LinkRepositories.LinkRepository.Create` | src/Repositories/LinkRepository.cs:41-44 | the link data and the entity are sent in one `LinkRecord` call, whose answer is the new id |
| `LinkRepositories.LinkRepository.Update` | src/Repositories/LinkRepository.cs:46-49 | one `UpdateLink` call with the id and the whole entity is made |
| `LinkRepositories.LinkRepository.Delete` | src/Repositories/LinkRepository.cs:51-54 | one `UnLinkRecord` call is made, without reading the link first |
| `LinkRepositories.LinkRepository.DeleteEntity` | src/Repositories/DataVaultRepository.cs:219-224 | the entity's id is read (a failure sends nothing) and the link with that id is removed |
| `UnitsOfWork.UnitOfWork.constructor` | src/UoW/UnitOfWork.cs:17-20 | a new unit holds the context, no repository, and is not completed |
| `UnitsOfWork.UnitOfWork.GetHubRepository` | src/UoW/UnitOfWork.cs:22-36 | the first request for a type makes a fresh hub repository on the current context and stores it; later requests return the stored one, and an entry of the other kind fails the cast |
| `UnitsOfWork.UnitOfWork.GetLinkRepository` | src/UoW/UnitOfWork.cs:38-52 | the same for link repositories |
| `UnitsOfWork.UnitOfWork.SetContext` | src/UoW/UnitOfWork.cs:11 | setting the context keeps the repositories already made; `Complete` and `Dispose` then act on the new context's `DataContext` part |
| `UnitsOfWork.UnitOfWork.Complete` | src/UoW/UnitOfWork.cs:54-58 | the current context's `DataContext` part saves its changes: an open session transaction is committed, and the unit is marked completed exactly when saving succeeds |
| `UnitsOfWork.UnitOfWork.Dispose` | src/UoW/UnitOfWork.cs:60-69 | the first dispose forgets the repositories and disposes the current context's `DataContext` part, closing its session if one was made; a second does nothing |
| `UnitsOfWork.SameHubRepositoryTwice` | src/UoW/UnitOfWork.cs:22-36 | asking twice for the hub repository of one type gives the same object |
| `StringConvert.TryParseBool` | src/Common/Extensions/StringConvertExtensions.cs:17 | `bool.TryParse` succeeds exactly for `true` or `false` in any case, padded with white space or NULs, and reads true exactly for `true` |
| `StringConvert.ToBoolean` | src/Common/Extensions/StringConvertExtensions.cs:11-32 | null is false; text `bool.TryParse` reads gives that value; otherwise true exactly when the trimmed text is one of `t`, `true`, `y`, `yes`, `1`, `x`, `on` ignoring case |
| `StringConvert.ToBooleanUnpadded` | src/Common/Extensions/StringConvertExtensions.cs:11-32 | unpadded text converts to true exactly when it is one of the true words in any case |
| `StringConvert.TryParseIntegral` | src/Common/Extensions/StringConvertExtensions.cs:40 | `T.TryParse` succeeds exactly on an optionally signed run of digits, with white space around, whose value lies in the type's range, and gives that value |
| `StringConvert.ToIntegral` | src/Common/Extensions/StringConvertExtensions.cs:34-54 | `ToByte` and the other integral conversions (lines 122-275) give 0 for null or unparseable text and otherwise a value within the type's range |
| `StringConvert.ToIntegralRoundTrip` | src/Common/Extensions/StringConvertExtensions.cs:144-153 | every in-range integer printed in decimal converts back to itself |
| `StringConvert.ToIntegralOverflow` | src/Common/Extensions/StringConvertExtensions.cs:144-153 | decimal text of an out-of-range integer converts to 0 rather than wrapping |
| `StringConvert.ToDecimal` | src/Common/Extensions/StringConvertExtensions.cs:78-87 | null, unparseable or out-of-range text is 0; parseable text is the number it spells, with one sign before or after the digits; the result always lies within `decimal`'s range |
| `StringConvert.DecimalSignEitherSide` | src/Common/Extensions/StringConvertExtensions.cs:78-87 | for digits within `decimal`'s range, a minus sign after them (`5-`) reads as the negative number just as one before them does; a sign on both sides is refused |
| `StringConvert.ToDecimalOverflow` | src/Common/Extensions/StringConvertExtensions.cs:78-87 | digits spelling a number above `decimal.MaxValue`, with or without a leading minus, fail to parse and convert to 0 |
| `StringConvert.ToDecimalNull` | src/Common/Extensions/StringConvertExtensions.cs:78-87 | null and empty text both convert to 0 |
| `StringConvert.FindMember` | src/Common/Extensions/StringConvertExtensions.cs:312 | a member is found exactly when its name equals the text ignoring case, and its value is returned |
| `StringConvert.ToEnum` | src/Common/Extensions/StringConvertExtensions.cs:298-301 | `Enum.Parse` throws ArgumentNullException for null text, OverflowException exactly for a number outside the underlying type, ArgumentException for anything else it cannot read; when it succeeds it agrees with `ToEnumOrDefault` whatever the default |
| `StringConvert.ToEnumOrDefault` | src/Common/Extensions/StringConvertExtensions.cs:303-313 | null, empty or unparseable text (an unknown name in the list, a number outside the underlying type) gives the default |
| `StringConvert.ToEnumOrDefaultByName` | src/Common/Extensions/StringConvertExtensions.cs:303-313 | a member's name in any case converts to that member when names differ ignoring case and its value fits the underlying type |
| `StringConvert.ToEnumOrDefaultOfPair` | src/Common/Extensions/StringConvertExtensions.cs:303-313 | two comma-separated names convert to the OR of their members' values, computed in the underlying type |
| `StringConvert.ToEnumOrDefaultOfRepeatedName` | src/Common/Extensions/StringConvertExtensions.cs:303-313 | a name given twice in a list converts as the name alone: OR is idempotent |
| `StringConvert.TryConvert` | src/Common/Extensions/StringConvertExtensions.cs:321-422 | always succeeds; a string target gets the input; a null input for a nullable type gets null; a reference type gets the input; an integral type gets the matching `To*` conversion |
| `StringConvert.ConvertValue` | src/Common/Extensions/StringConvertExtensions.cs:435-449 | null or `DBNull` gives the default; a value already of the type is kept; otherwise the caller's converter, or else `Convert.ChangeType`, which may throw |
| `StringConvert.ToEnumOrDefaultOfFound` | src/Common/Extensions/StringConvertExtensions.cs:303-313 | unpadded non-numeric text that names a member, in any case, converts to that member's value |
| `StringConvert.ToEnumOrDefaultOfNumber` | src/Common/Extensions/StringConvertExtensions.cs:303-313 | the decimal text of a number in the underlying type's range converts to that number, whether or not a member has it |
| `StringConvert.ToEnumOrDefaultOverflow` | src/Common/Extensions/StringConvertExtensions.cs:303-313 | the decimal text of a number outside the underlying type's range is an overflow and gives the default |
| `StringConvert.EnumOrInRange` | src/Common/Extensions/StringConvertExtensions.cs:303-313 | OR-ing members' values stays within the underlying type |
| `StringFormat.UnderscoreTail` | src/Common/Extensions/StringFormatExtensions.cs:10 | after the first character, every upper-case character gets one `_` in front, so the length grows by the number of capitals |
| `StringFormat.ToUnderscoreCase` | src/Common/Extensions/StringFormatExtensions.cs:8-11 | the first character is kept and every later capital gains one `_` |
| `StringFormat.UnderscoreTailRoundTrip` | src/Common/Extensions/StringFormatExtensions.cs:10 | removing the inserted underscores gives the input back |
| `StringFormat.UnderscoreCaseInjective` | src/Common/Extensions/StringFormatExtensions.cs:8-11 | different names give different underscore-cased names |
| `StringFormat.UnderscoreCaseUnchanged` | src/Common/Extensions/StringFormatExtensions.cs:8-11 | a name with no capital after its first character is returned unchanged |
| `StringFormat.PascalWord` | src/Common/Extensions/StringFormatExtensions.cs:17-18 | a word keeps its length, with its first character upper-cased and the rest lower-cased |
| `StringFormat.ToPascalCase` | src/Common/Extensions/StringFormatExtensions.cs:13-22 | the result contains no `-` or `_`, and does not start with a lower-case character |
| `StringFormat.PascalWordsAvoid` | src/Common/Extensions/StringFormatExtensions.cs:15-20 | joining words that contain no separator gives text with no separator |
| `StringFormat.PascalCaseOfSeparators` | src/Common/Extensions/StringFormatExtensions.cs:13-22 | empty input, or input made only of separators, gives the empty string |
| `StringFormat.PascalCaseExample` | src/Common/Extensions/StringFormatExtensions.cs:13-22 | the column `CUSTOMER_NUMBER` becomes the property name `CustomerNumber` |
| `StringFormat.WrapCurlyBracket` | src/Common/Extensions/StringFormatExtensions.cs:24-27 | the value wrapped in round parentheses, whatever the name says |
| `StringExtension.LastChars` | src/Common/Extensions/StringExtension.cs:7-11 | succeeds exactly for a non-negative count, giving the whole text when it is no longer than the count and otherwise its last `n` characters |
| `StringExtension.IsNullOrWhiteSpaceCases` | src/Common/Extensions/StringExtension.cs:13-16 | true exactly for null, empty or all-white-space text |
| `StringExtension.EqualsIgnoreCaseSymmetric` | src/Common/Extensions/StringExtension.cs:18-21 | the case-insensitive comparison is symmetric |
| `StringExtension.EqualsIgnoreCaseOfUpper` | src/Common/Extensions/StringExtension.cs:18-21 | a string equals its upper-cased form ignoring case |
| `StringExtension.EnsureEndsWith` | src/Common/Extensions/StringExtension.cs:23-31 | the result ends with the character; input already ending with it is returned unchanged, otherwise the character is appended |
| `StringExtension.EnsureEndsWithIdempotent` | src/Common/Extensions/StringExtension.cs:23-31 | applying it twice is the same as once |
| `StringExtension.EnsureStartsWith` | src/Common/Extensions/StringExtension.cs:33-41 | the result starts with the character; input already starting with it is unchanged, otherwise the character is prepended |
| `StringExtension.EnsureStartsWithIdempotent` | src/Common/Extensions/StringExtension.cs:33-41 | applying it twice is the same as once |
| `EnumerableExtension.SelectNonNull` | src/Common/Extensions/EnumerableExtension.cs:13 | `Select(f).Where(x => x != null)` is no longer than its input, and every element it keeps is the non-null image of some input element |
| `EnumerableExtension.SelectNonNullAppend` | src/Common/Extensions/EnumerableExtension.cs:13 | order is kept: one more element appends its image when that image is not null |
| `EnumerableExtension.SelectNonNullAll` | src/Common/Extensions/EnumerableExtension.cs:13 | when no image is null, every element is converted, in place |
| `EnumerableExtension.ConvertArray` | src/Common/Extensions/EnumerableExtension.cs:11-14 | a null enumerable converts to empty, otherwise to the non-null images in order (`ConvertList`, lines 26-29, gives the same elements) |
| `EnumerableExtension.ConvertOptionalArray` | src/Common/Extensions/EnumerableExtension.cs:16-19 | an undefined or null optional array converts to empty, otherwise as `ConvertArray` (`ConvertList` on `Optional`, lines 21-24, alike) |
| `EnumerableExtension.NonBlank` | src/Common/Extensions/EnumerableExtension.cs:33 | the kept items contain no null, empty or white-space item |
| `EnumerableExtension.NonBlankAppend` | src/Common/Extensions/EnumerableExtension.cs:33 | one more item is appended exactly when it is not blank |
| `EnumerableExtension.JoinNotEmptyAppend` | src/Common/Extensions/EnumerableExtension.cs:31-34 | a blank item changes nothing; the first kept item is the whole result; a later one is joined with the separator |
| `EnumerableExtension.JoinNotEmptyAllBlank` | src/Common/Extensions/EnumerableExtension.cs:31-34 | blank or empty input joins to the empty string |
| `EnumerableExtension.NonBlankNoneBlank` | src/Common/Extensions/EnumerableExtension.cs:33 | with no blank item, every item is kept |
| `EnumerableExtension.JoinNotEmptyConcat` | src/Common/Extensions/EnumerableExtension.cs:36-39 | with no separator the kept items are simply concatenated |
| `EnumerableExtension.EmptyIfNull` | src/Common/Extensions/EnumerableExtension.cs:46-49 | null gives an empty array and anything else its own elements; the result is empty exactly when `IsNullOrEmpty` holds |
| `EnumerableExtension.FirstPerKeyFresh` | src/Common/Extensions/EnumerableExtension.cs:53-60 | no element kept has a key already seen, and no two kept elements share a key |
| `EnumerableExtension.FirstPerKeyFirst` | src/Common/Extensions/EnumerableExtension.cs:53-60 | every kept element is the first in the input with its key |
| `EnumerableExtension.FirstPerKeyCovers` | src/Common/Extensions/EnumerableExtension.cs:53-60 | every key of the input outside the seen set is represented in the output |
| `EnumerableExtension.DistinctBy` | src/Common/Extensions/EnumerableExtension.cs:51-61 | the loop with its set of seen keys yields exactly the first element of each key, in input order |
| `EnumerableExtension.DistinctByProperties` | src/Common/Extensions/EnumerableExtension.cs:51-61 | no two kept elements share a key, every key of the input is kept, and each kept element is its key's first |
| `DictionaryExtensions.TryGetTyped` | src/Common/Extensions/DictionaryExtensions.cs:9-20 | succeeds exactly when the key is present and its value is a `T`, giving that value; otherwise gives the default |
| `DictionaryExtensions.Dictionary.constructor` | src/Common/Extensions/DictionaryExtensions.cs:22 | a dictionary holding the given entries |
| `DictionaryExtensions.Dictionary.GetOrDefault` | src/Common/Extensions/DictionaryExtensions.cs:22-47 | every `GetOrDefault` overload gives the stored value for a present key and `default` otherwise |
| `DictionaryExtensions.Dictionary.GetOr` | src/Common/Extensions/DictionaryExtensions.cs:28-32 | the stored value for a present key and `otherwise` for an absent one |
| `DictionaryExtensions.Dictionary.GetOrAdd` | src/Common/Extensions/DictionaryExtensions.cs:49-58 | a present key returns its value and leaves the dictionary alone; an absent key is stored with `factory(key)` and nothing else changes |
| `DictionaryExtensions.Dictionary.GetOrAddValue` | src/Common/Extensions/DictionaryExtensions.cs:60-63 | the same with a factory that ignores the key |
| `DictionaryExtensions.GetOrAddTwice` | src/Common/Extensions/DictionaryExtensions.cs:49-58 | a second `GetOrAdd` returns the value the first returned, and reading the key gives that value |
| `MoneyFormat.RoundAwayFromZero` | src/Common/Extensions/MoneyFormatExtensions.cs:10 | the whole number is within one half of the input and keeps its sign |
| `MoneyFormat.StandardizeAmount` | src/Common/Extensions/MoneyFormatExtensions.cs:8-11 | the result is a whole number of cents, within half a cent of the input, with the input's sign |
| `MoneyFormat.StandardizeAmountNearest` | src/Common/Extensions/MoneyFormatExtensions.cs:8-11 | no whole number of cents is strictly nearer to the input |
| `MoneyFormat.StandardizeAmountMidpoint` | src/Common/Extensions/MoneyFormatExtensions.cs:10 | a midpoint between two cents goes to the one farther from zero |
| `MoneyFormat.StandardizeAmountExamples` | src/Common/Extensions/MoneyFormatExtensions.cs:10 | 1.005 rounds to 1.01, -1.005 to -1.01 and 2.344 to 2.34 |
| `MoneyFormat.StandardizeAmountOdd` | src/Common/Extensions/MoneyFormatExtensions.cs:10 | rounding is symmetric about zero |
| `MoneyFormat.StandardizeAmountIdempotent` | src/Common/Extensions/MoneyFormatExtensions.cs:8-11 | rounding twice is rounding once |
| `MoneyFormat.CentsKept` | src/Common/Extensions/MoneyFormatExtensions.cs:8-11 | an amount already in whole cents is kept |
| `MoneyFormat.StandardizeAmountText` | src/Common/Extensions/MoneyFormatExtensions.cs:13-18 | null, unparseable or out-of-range text gives 0; otherwise the parsed amount, rounded to cents |
| `MoneyFormat.StandardizeAmountTextOverflow` | src/Common/Extensions/MoneyFormatExtensions.cs:13-18 | an amount beyond `decimal`'s range, such as `100000000000000000000000000000`, standardizes to 0 |
| `Optionals.Create` | src/Common/Optional/Optional.cs:27-31 | the constructor and the implicit conversion give a defined optional holding the value |
| `Optionals.Equals` | src/Common/Optional/Optional.cs:53-59 | two undefined optionals are equal, a defined and an undefined one are not, and two defined ones are equal exactly when their values are |
| `Optionals.NotEquals` | src/Common/Optional/Optional.cs:78-79 | `!=` is the negation of `==` |
| `Optionals.EqualsValue` | src/Common/Optional/Optional.cs:61-64 | an optional equals a bare value exactly when it is defined and holds that value |
| `Optionals.EqualsObject` | src/Common/Optional/Optional.cs:40-51 | a boxed `T` compares as a value, a boxed optional as an optional, anything else is unequal |
| `Optionals.GetHashCode` | src/Common/Optional/Optional.cs:66-67 | undefined hashes to 0, defined to its value's hash |
| `Optionals.EqualsHashCode` | src/Common/Optional/Optional.cs:53-67 | equal optionals have equal hash codes |
| `Optionals.EqualsEquivalence` | src/Common/Optional/Optional.cs:53-59 | equality is reflexive, symmetric and transitive |
| `Optionals.ToString` | src/Common/Optional/Optional.cs:35-38 | undefined renders as `<undefined>`, defined as its value's rendering |
| `Optionals.IfPresent` | src/Common/Optional/Optional.cs:87-90 | a defined optional gives `f(value)`, an undefined one `otherwise` |
| `Optionals.IfPresentOrDefault` | src/Common/Optional/Optional.cs:92-95 | `default` when undefined or holding null, `f(value)` otherwise |
| `Optionals.IfPresentOverloads` | src/Common/Optional/Optional.cs:87-95 | the two overloads agree whenever the held value is not null |
| `Optionals.GetValueOrDefault` | src/Common/Optional/OptionalExtensions.cs:5-8 | the held value when defined, `default(T)` otherwise |
| `Optionals.ToOptional` | src/Common/Optional/OptionalExtensions.cs:10-14 | always defined, equal to the optional built from the value |
| `Optionals.ToOptionalRoundTrip` | src/Common/Optional/OptionalExtensions.cs:5-14 | wrapping a value and reading it back gives the value |
| `Optionals.GetValueRoundTrip` | src/Common/Optional/OptionalExtensions.cs:5-14 | a defined optional is rebuilt from its value |
| `OptionalCollection.DefinedValues` | src/Common/Optional/OptionalCollectionExtension.cs:14-20 | the values kept are exactly those of the defined optionals |
| `OptionalCollection.DefinedValuesConcat` | src/Common/Optional/OptionalCollectionExtension.cs:14-20 | the values of a concatenation are the concatenation of the values, so order is kept |
| `OptionalCollection.DefinedValuesOfDefined` | src/Common/Optional/OptionalCollectionExtension.cs:14-20 | wrapping every element and taking the values back gives the elements |
| `OptionalCollection.Filter` | src/Common/Optional/OptionalCollectionExtension.cs:107-148 | the elements satisfying the predicate, and only those |
| `OptionalCollection.FirstOf` | src/Common/Optional/OptionalCollectionExtension.cs:23-46 | defined exactly for a non-empty sequence, holding its first element |
| `OptionalCollection.LastOf` | src/Common/Optional/OptionalCollectionExtension.cs:64-105 | defined exactly for a non-empty sequence, holding its last element |
| `OptionalCollection.SingleOf` | src/Common/Optional/OptionalCollectionExtension.cs:150-180 | defined exactly for a one-element sequence, holding that element |
| `OptionalCollection.ElementAtOf` | src/Common/Optional/OptionalCollectionExtension.cs:210-241 | defined exactly for an index within bounds, holding the element there |
| `OptionalCollection.FirstLastAreEnds` | src/Common/Optional/OptionalCollectionExtension.cs:23-105 | first and last are the elements at index 0 and at the last index |
| `OptionalCollection.FirstWhere` | src/Common/Optional/OptionalCollectionExtension.cs:48-62 | defined exactly when some element satisfies the predicate, holding the earliest such element |
| `OptionalCollection.LastWhereMeaning` | src/Common/Optional/OptionalCollectionExtension.cs:107-148 | defined exactly when some element satisfies the predicate, holding the latest such element |
| `OptionalCollection.SingleWhereExactlyOne` | src/Common/Optional/OptionalCollectionExtension.cs:182-208 | for a matching position, the result is that element exactly when no other position matches |
| `OptionalCollection.SingleWhereNone` | src/Common/Optional/OptionalCollectionExtension.cs:182-208 | with no match the result is undefined |
| `OptionalCollection.LastWhereIsLastOfFilter` | src/Common/Optional/OptionalCollectionExtension.cs:107-148 | the last match is the last element of the filtered sequence |
| `OptionalCollection.Values` | src/Common/Optional/OptionalCollectionExtension.cs:10-21 | a null source throws; otherwise the loop yields the defined values in order |
| `OptionalCollection.FirstOrNone` | src/Common/Optional/OptionalCollectionExtension.cs:23-46 | a null source throws; otherwise the first element, or undefined for an empty source |
| `OptionalCollection.FirstOrNoneBy` | src/Common/Optional/OptionalCollectionExtension.cs:48-62 | a null source or predicate throws; otherwise the loop gives the first match |
| `OptionalCollection.LastOrNone` | src/Common/Optional/OptionalCollectionExtension.cs:64-105 | a null source throws; both the list path and the enumerator path give the last element |
| `OptionalCollection.LastOrNoneBy` | src/Common/Optional/OptionalCollectionExtension.cs:107-148 | a null source or predicate throws; the backward list walk and the forward enumerator walk both give the last match |
| `OptionalCollection.LastWhereStep` | src/Common/Optional/OptionalCollectionExtension.cs:107-148 | extending a prefix by one element keeps the last match, or replaces it with that element when it matches |
| `OptionalCollection.SingleOrNone` | src/Common/Optional/OptionalCollectionExtension.cs:150-180 | a null source throws; both paths give the element of a one-element source and undefined otherwise |
| `OptionalCollection.SingleOrNoneBy` | src/Common/Optional/OptionalCollectionExtension.cs:182-208 | a null source or predicate throws; the loop gives the match when there is exactly one |
| `OptionalCollection.ElementAtOrNone` | src/Common/Optional/OptionalCollectionExtension.cs:210-241 | a null source throws; both paths give the element at the index, or undefined for an index out of range |
| `Enumerations.AllOptions` | src/Common/Enumeration/Enumeration.cs:32-45 | the declared options, each kept once, ordered by code |
| `Enumerations.ToTable` | src/Common/Enumeration/Enumeration.cs:26-30 | building a code table succeeds exactly when no two codes collide (ordinally, or ignoring case), and otherwise fails with the duplicate-key error |
| `Enumerations.Find` | src/Common/Enumeration/Enumeration.cs:71 | a table lookup finds an option exactly when one is filed under the code's key, and returns that option |
| `Enumerations.GetOrNull` | src/Common/Enumeration/Enumeration.cs:59-77 | a blank code gives null; anything found is one of the declared options |
| `Enumerations.Get` | src/Common/Enumeration/Enumeration.cs:79-97 | a blank code throws `ArgumentException`; colliding codes make the table fail first |
| `Enumerations.GetAgreesWithGetOrNull` | src/Common/Enumeration/Enumeration.cs:59-97 | `Get` returns what `GetOrNull` finds, and throws `ArgumentException` exactly where `GetOrNull` gives null |
| `Enumerations.GetOrNullFindsOption` | src/Common/Enumeration/Enumeration.cs:59-77 | with distinct codes every option is found by its own code, in either table |
| `Enumerations.GetOrNullUnknown` | src/Common/Enumeration/Enumeration.cs:59-77 | a code no option carries gives null |
| `Enumerations.IgnoreCaseLookup` | src/Common/Enumeration/Enumeration.cs:29-30 | the case-insensitive lookup gives the same answer for a code and for its upper- and lower-cased forms |
| `Enumerations.SameKeySameLookup` | src/Common/Enumeration/Enumeration.cs:59-77 | two codes filed under the same key look up alike |
| `Enumerations.List` | src/Common/Enumeration/Enumeration.cs:47 | the options of the ordinal table: the declared ones, each once, in code order; colliding codes throw |
| `Enumerations.Equals` | src/Common/Enumeration/Enumeration.cs:111-123 | a null other is unequal; otherwise equal exactly when the codes are |
| `Enumerations.OpEquals` | src/Common/Enumeration/Enumeration.cs:125-134 | null equals only null; two options are equal exactly when their codes are |
| `Enumerations.OpEqualsEquivalence` | src/Common/Enumeration/Enumeration.cs:125-137 | `==` is reflexive, symmetric and transitive |
| `Enumerations.EqualsHashCode` | src/Common/Enumeration/Enumeration.cs:105-123 | equal options hash alike |
| `Enumerations.CompareOrdinal` | src/Common/Enumeration/Enumeration.cs:141 | ordinal comparison is 0 exactly for equal codes and not positive exactly when the first code is lexicographically no greater |
| `Enumerations.CompareTo` | src/Common/Enumeration/Enumeration.cs:140-141 | a null other throws; otherwise 0 exactly for equal options, and the sign follows the ordinal order of the codes |
| `Enumerations.CompareToAntisymmetric` | src/Common/Enumeration/Enumeration.cs:140-141 | swapping the two options negates the comparison |
| `Enumerations.ToString` | src/Common/Enumeration/Enumeration.cs:99-102 | the rendering is a code equal to the option's own |
| `Enumerations.ToStringRoundTrip` | src/Common/Enumeration/Enumeration.cs:160-165 | converting an option to a string and back with the explicit conversion gives the option |
| `FlatJson.Lookup` | src/Common/Json/FlatJsonExtension.cs:60 | a key is found exactly when some property carries it |
| `FlatJson.SetProp` | src/Common/Json/FlatJsonExtension.cs:56 | after `obj[key] = v` the key reads `v` and every other key reads as before; an existing key is replaced in place and a new one appended |
| `FlatJson.Put` | src/Common/Json/FlatJsonExtension.cs:47-69 | a successful walk leaves the value readable at its dotted path; the only failure is the `(JObject)` cast |
| `FlatJson.PutPreserves` | src/Common/Json/FlatJsonExtension.cs:47-69 | a write leaves unchanged every path that neither leads to nor extends the written one |
| `FlatJson.NestObject` | src/Common/Json/FlatJsonExtension.cs:32-73 | converting an object gives an object |
| `FlatJson.NestArray` | src/Common/Json/FlatJsonExtension.cs:75-93 | converting an array gives an array of the same length |
| `FlatJson.NestItems` | src/Common/Json/FlatJsonExtension.cs:79-90 | elements that are not objects are kept in place, and object elements stay objects |
| `FlatJson.ConvertJObject` | src/Common/Json/FlatJsonExtension.cs:32-73 | the loop over the key-sorted entries, walking a cursor down each dotted path, gives exactly the nested object `NestObject` defines |
| `FlatJson.ConvertArray` | src/Common/Json/FlatJsonExtension.cs:75-93 | the loop over the elements gives exactly the array `NestArray` defines |
| `FlatJson.NestEntriesKeeps` | src/Common/Json/FlatJsonExtension.cs:34-70 | an entry's value can be read back at its path when no later entry's path leads to it or extends it |
| `FlatJson.LastWriteSurvives` | src/Common/Json/FlatJsonExtension.cs:37-70 | a value already at a path survives every later entry whose path is unrelated to it |
| `FlatJson.PutThroughScalarFails` | src/Common/Json/FlatJsonExtension.cs:60-63 | an intermediate segment already holding a non-object makes the cast fail |
| `FlatJson.ToNestedJson` | src/Common/Json/FlatJsonExtension.cs:15-30 | text that does not parse throws; non-container JSON comes back verbatim; an object converts to an object and an array to an array |
| `FlatJson.DottedPath` | src/Common/Json/FlatJsonExtension.cs:47 | splitting `a.b` on dots gives the two segments |
| `FlatJson.NestExample` | src/Common/Json/FlatJsonExtension.cs:32-73 | `{"a.b": 1, "a.c": 2}` nests to `{"a": {"b": 1, "c": 2}}` |
| `FlatJson.NestBlockedExample` | src/Common/Json/FlatJsonExtension.cs:60-63 | `{"a": 1, "a.b": 2}` fails: `a` sorts first and holds a number when `a.b` is placed |
| `FlatJson.JoinPath` | src/Common/Json/FlatJsonExtension.cs:223-226 | an empty prefix gives the name alone; otherwise prefix, dot and name |
| `FlatJson.Add` | src/Common/Json/FlatJsonExtension.cs:218 | `dict.Add` fails exactly when the key is already present, and otherwise appends the entry |
| `FlatJson.AddAllConcat` | src/Common/Json/FlatJsonExtension.cs:218 | adding two runs of pairs is adding the first and then the second, stopping at the first failure |
| `FlatJson.FillIsAddAll` | src/Common/Json/FlatJsonExtension.cs:195-221 | filling adds exactly the leaves of the tree with their dotted paths, in document order, failing at the first repeated path |
| `FlatJson.FillPropsIsAddAll` | src/Common/Json/FlatJsonExtension.cs:199-205 | filling an object's properties adds the leaves of each property in turn |
| `FlatJson.FillItemsIsAddAll` | src/Common/Json/FlatJsonExtension.cs:207-215 | filling an array's elements adds the leaves of each element, named by its index |
| `FlatJson.DeserializeAndFlatten` | src/Common/Json/FlatJsonExtension.cs:165-177 | null or blank text gives an empty dictionary, and unparseable text throws |
| `FlatJson.LeavesAreScalars` | src/Common/Json/FlatJsonExtension.cs:217-219 | only leaves are added: no flattened value is an object or an array |
| `FlatJson.FlattenExample` | src/Common/Json/FlatJsonExtension.cs:195-221 | `{"a": {"b": 1, "c": [true]}}` flattens to `a.b` and `a.c.0` |
| `FlatJson.FlattenDuplicateExample` | src/Common/Json/FlatJsonExtension.cs:218 | `{"": {"x": 1}, "x": 2}` yields the path `x` twice, so flattening throws |
| `FlatJson.AddIfNotContains` | src/Common/Json/FlatJsonExtension.cs:351-365 | a null dictionary throws; a present key leaves it alone and gives false; an absent key is added and gives true |
| `FlatJson.ToDatabaseFormat` | src/Common/Json/FlatJsonExtension.cs:315-324 | one line `key value` per entry, in dictionary order |
| `Json.IsNullOrEmptyCases` | src/Common/Json/JsonSerializeExtensions.cs:109-116 | a container is null-or-empty exactly when it has no child, a number or boolean never is, and a string is exactly when it is empty |
| `Json.ValidJsonNeedsContainerText` | src/Common/Json/JsonSerializeExtensions.cs:73-78 | whatever the parser, non-blank text that does not open with `{` or `[` after trimming is not valid JSON |
| `Json.HasJsonValueNotEmpty` | src/Common/Json/JsonSerializeExtensions.cs:95-116 | text with a JSON value never parses to a null-or-empty token |
| `Json.ToJsonString` | src/Common/Json/JsonSerializeExtensions.cs:27-32 | null serialises to null, and anything else to some text |
| `Json.FromJsonString` | src/Common/Json/JsonSerializeExtensions.cs:59-64 | null text gives `default`; otherwise the deserialised value, or the deserialiser's failure |
| `Json.EscapeChar` | src/Common/Json/JsonSerializeExtensions.cs:30 | a character is written with a backslash exactly when it is a quote, a backslash, one of the short control escapes or a character escaped as `\\uXXXX` |
| `Json.Quote` | src/Common/Json/JsonSerializeExtensions.cs:30 | a string is written between double quotes |
| `Json.Serialize` | src/Common/Json/JsonSerializeExtensions.cs:30 | the text has no surrounding white space; an object is written between braces and an array between brackets |
| `Json.SerializedContainer` | src/Common/Json/JsonSerializeExtensions.cs:66-107 | a serialised container is valid JSON for a parser that reads it back, and has a JSON value exactly when it has children |
| `EntityHelper.GetEntityName` | src/Entities/EntityHelper.cs:37-45 | empty for a type that is not an entity; otherwise the type name with `Dv` removed, which is the name itself when it holds no `Dv` and is never longer |
| `EntityHelper.EntityNameRemovesEveryDv` | src/Entities/EntityHelper.cs:42-45 | every `Dv` is removed, not only the prefix: `DvOrderDvItem` gives `OrderItem` |
| `EntityHelper.GetDbEntityName` | src/Entities/EntityHelper.cs:47-55 | the underscore-cased, upper-cased entity name: no lower-case letter, and never shorter than the entity name |
| `EntityHelper.GetEntityUniqueSequenceName` | src/Entities/EntityHelper.cs:57-60 | `SEQ-` followed by the upper-cased entity name, with no underscores inserted |
| `EntityHelper.GetDbTableName` | src/Entities/EntityHelper.cs:62-91 | `HUB_` plus the database name for a hub (tested first), `LNK_` plus it for a link, empty otherwise |
| `EntityHelper.GetPKColumnName` | src/Entities/EntityHelper.cs:93-101 | `PK_`, the database entity name, then `_ID` |
| `EntityHelper.GetBKColumnName` | src/Entities/EntityHelper.cs:103-111 | `BK_`, the database entity name, then `_NUMBER` |
| `EntityHelper.GetHubPropertyName` | src/Entities/EntityHelper.cs:113-116 | `Hub` followed by the entity name |
| `EntityHelper.NormalizeTableName` | src/Entities/EntityHelper.cs:118-121 | null or blank gives empty text; anything else is upper-cased and stays non-blank |
| `EntityHelper.NormalizeTableNameIdempotent` | src/Entities/EntityHelper.cs:118-121 | normalising twice is normalising once |
| `EntityHelper.GetLookupTableName` | src/Entities/EntityHelper.cs:123-131 | the raw type name underscore-cased and upper-cased: no lower-case letter, and the database entity name when the name holds no `Dv` |
| `EntityHelper.DbNameInjectiveOnPascalNames` | src/Entities/EntityHelper.cs:52-55 | two conventional (Pascal-case) type names with the same database name are the same name |
| `EntityHelper.DbNameCollision` | src/Entities/EntityHelper.cs:52-55 | outside that shape the database name is not injective: `AB` and `A_b` both give `A_B` |
| `EntityExtensions.GetPropertyValue` | src/Entities/EntityExtensions.cs:42 | a null instance gives null; otherwise the value reached along the dotted path |
| `EntityExtensions.GetHubId` | src/Entities/EntityExtensions.cs:34-42 | a null hub has a null id; otherwise the id is read at `<Name>Id.Value` (read back by `HubEntityId`) |
| `EntityExtensions.GetLinkId` | src/Entities/EntityExtensions.cs:44-52 | a null link has a null id; otherwise the id is read at `<Name>Id.Value` (read back by `LinkEntityId`) |
| `EntityExtensions.GetHubData` | src/Entities/EntityExtensions.cs:97-105 | a null entity has no hub data; otherwise it is read at `Hub<Name>.Value` |
| `EntityExtensions.GetLinkData` | src/Entities/EntityExtensions.cs:107-115 | a null entity has no link data; otherwise it is read at `Lnk<Name>.Value` |
| `EntityExtensions.GetId` | src/Entities/EntityExtensions.cs:12-32 | null for a null entity; a hub's id comes from its hub data, tested first, then a link's from its link data; any other entity type throws |
| `EntityExtensions.Exist` | src/Entities/EntityExtensions.cs:58-62 | false for null; otherwise true exactly when the id is not blank, and an entity without an id throws |
| `EntityExtensions.ExistHubEntity` | src/Entities/EntityExtensions.cs:64-67 | false for null; otherwise whether hub data is present, whatever its id |
| `EntityExtensions.ExistLinkEntity` | src/Entities/EntityExtensions.cs:69-72 | false for null; otherwise whether link data is present, whatever its id |
| `EntityExtensions.ExistHub` | src/Entities/EntityExtensions.cs:74-78 | false for a null entity; otherwise whether the hub property's id is not blank |
| `EntityExtensions.ExistHubData` | src/Entities/EntityExtensions.cs:80-83 | a null hub does not exist; otherwise whether its id is not blank |
| `EntityExtensions.GetBk` | src/Entities/EntityExtensions.cs:85-95 | a null entity has a null business key; otherwise it is read from the hub data at the BK property |
| `EntityExtensions.BkPropertyNameOfCustomer` | src/Entities/EntityExtensions.cs:92 | the business-key property of the `Customer` hub is `CustomerNumber` |
| `EntityExtensions.HubEntityId` | src/Entities/EntityExtensions.cs:12-42 | for a hub entity laid out by convention, the hub data is found at the hub property and `GetId` returns the id stored in it |
| `EntityExtensions.LinkEntityId` | src/Entities/EntityExtensions.cs:12-52 | the same for links: `GetId` returns the id stored in the link data |
| `EntityExtensions.PlainEntityHasNoId` | src/Entities/EntityExtensions.cs:31 | an entity that is neither hub nor link throws from `GetId`, and so from `Exist` |
| `DataVaultQueries.UnhexTermCarriesId` | src/DataVaultQueryOfT.cs:25 | each `UNHEX` term holds its id, unescaped, between a fixed head and the closing `')` |
| `DataVaultQueries.UnhexTermNotBlank` | src/DataVaultQueryOfT.cs:25 | no `UNHEX` term is blank, so `JoinNotEmpty` never drops one |
| `DataVaultQueries.PKTerms` | src/DataVaultQueryOfT.cs:25 | one `TABLE.PK_COLUMN=UNHEX('id')` term per id, in order |
| `DataVaultQueries.ContainPKsOnePerId` | src/DataVaultQueryOfT.cs:23-26 | `ContainPKs` joins every id's term with ` OR `: no ids give the empty filter and one id gives its term alone |
| `DataVaultQueries.Comparison` | src/DataVaultQueryOfT.cs:30 | a `COLUMN='value'` comparison is never blank |
| `DataVaultQueries.BKTerms` | src/DataVaultQueryOfT.cs:30 | one quoted comparison on the qualified BK column per key, in order |
| `DataVaultQueries.ContainBKsOnePerKey` | src/DataVaultQueryOfT.cs:28-31 | `ContainBKs` joins every key's term with ` OR `, none skipped; no keys give the empty filter |
| `DataVaultQueries.QuoteSplice` | src/DataVaultQueryOfT.cs:30 | a value that closes the quote and adds ` OR ` with a second comparison reads as two comparisons |
| `DataVaultQueries.ContainBKsUnescaped` | src/DataVaultQueryOfT.cs:28-31 | keys are not escaped: one key holding a quote can give exactly the filter of two keys |
| `DataVaultQueries.EqualsPK` | src/DataVaultQueryOfT.cs:33-39 | an object with the PK column as its only property, holding the value |
| `DataVaultQueries.EqualsBK` | src/DataVaultQueryOfT.cs:50-56 | an object with the BK column as its only property, holding the value |
| `DataVaultQueries.LinkObject` | src/DataVaultQueryOfT.cs:41-48 | the other type's PK column always holds the linked id; the owner's PK column holds the entity id unless the two columns coincide, when the second write wins |
| `DataVaultQueries.FilterPK` | src/DataVaultQueryOfT.cs:87-90 | a one-element array comparing the PK column to the quoted id, without `UNHEX` |
| `DataVaultQueries.Select` | src/DataVaultQueryOfT.cs:63 | the `select` entry is `["*"]` exactly when details are wanted, and `[]` exactly when not |
| `DataVaultQueries.LinkGroup` | src/DataVaultQueryOfT.cs:100-103 | one group is wrapped in parentheses |
| `DataVaultQueries.LinkGroupJoinsNotEmpty` | src/DataVaultQueryOfT.cs:100-103 | a group's terms, one per id on the other type's key column, joined by ` OR ` are exactly what `JoinNotEmpty` gives, since no term is blank |
| `DataVaultQueries.LinkGroups` | src/DataVaultQueryOfT.cs:96-103 | at most one group per type |
| `DataVaultQueries.LinkGroupsOfEmpty` | src/DataVaultQueryOfT.cs:98 | types whose id array is null or empty add no group |
| `DataVaultQueries.LinkGroupsBracketed` | src/DataVaultQueryOfT.cs:100-103 | every group is parenthesised |
| `DataVaultQueries.LinkGroupsOnePerType` | src/DataVaultQueryOfT.cs:96-103 | with every id array non-empty there is exactly one group per type, in dictionary order |
| `DataVaultQueries.FilterLinksWithPKs` | src/DataVaultQueryOfT.cs:92-106 | an object with `filter`, the array of groups, then `select` |
| `DataVaultQueries.RelatedHub` | src/DataVaultQueryOfT.cs:67-76 | `filterPK` then `select`; the filter compares the hub's entity name and PK column with each unquoted id, and no ids give an empty filter |
| `DataVaultQueryBuilders.DirectionName` | src/DataVaultQueryBuilder.cs:71 | the direction's name upper-cased: `ASC` or `DESC` |
| `DataVaultQueryBuilders.SortStringParts` | src/DataVaultQueryBuilder.cs:68-71 | a sort string is the column between back-quotes, a space, then the direction |
| `DataVaultQueryBuilders.SortStringInjective` | src/DataVaultQueryBuilder.cs:66-88 | equal sort strings have the same column and the same direction |
| `DataVaultQueryBuilders.BuildsOf` | src/DataVaultQueryBuilder.cs:59 | each filter's built text, in order |
| `DataVaultQueryBuilders.ViewFilterAppend` | src/DataVaultQueryBuilder.cs:59 | a filter added last: a blank one changes nothing, the first non-blank one is the whole filter, and a later one follows `, ` |
| `Json.JStrs` | src/DataVaultQueryBuilder.cs:60 | each string of an array becomes a JSON string, in order |
| `DataVaultQueryBuilders.ViewQueryLookups` | src/DataVaultQueryBuilder.cs:57-63 | the four properties of a view query are found under their names |
| `DataVaultQueryBuilders.DataVaultQueryBuilder.constructor` | src/DataVaultQueryBuilder.cs:23-32 | `New()`: no filters, no sorts, 100 rows from row 0 |
| `DataVaultQueryBuilders.DataVaultQueryBuilder.Filter` | src/DataVaultQueryBuilder.cs:34-39 | the filter is appended after the earlier ones, nothing else changes, and the builder itself is returned |
| `DataVaultQueryBuilders.DataVaultQueryBuilder.SetRowCount` | src/DataVaultQueryBuilder.cs:41-46 | only the row count changes |
| `DataVaultQueryBuilders.DataVaultQueryBuilder.SetRowNumber` | src/DataVaultQueryBuilder.cs:48-53 | only the starting row changes |
| `DataVaultQueryBuilders.DataVaultQueryBuilder.SortAscending` | src/DataVaultQueryBuilder.cs:66-76 | an ascending sort string is appended after the earlier sorts; nothing else changes |
| `DataVaultQueryBuilders.DataVaultQueryBuilder.SortDescending` | src/DataVaultQueryBuilder.cs:78-88 | a descending sort string is appended after the earlier sorts; nothing else changes |
| `DataVaultQueryBuilders.DataVaultQueryBuilder.BuildViewQuery` | src/DataVaultQueryBuilder.cs:55-64 | `filter` is a one-element array of the non-blank predicate texts joined by `, `, `order` the sort strings in call order, and the row window the current fields |
| `QueryPredicates.RenderEntry` | src/Query/PredicateBuilder.cs:52 | one chain element, keyword, space, condition and two spaces, is never blank |
| `QueryPredicates.RenderEntries` | src/Query/PredicateBuilder.cs:52 | each chain element rendered, in insertion order |
| `QueryPredicates.BuildChainIsConcat` | src/Query/PredicateBuilder.cs:50-53 | no element is dropped: `Build` is every element's rendering concatenated in order, with no separator and no parentheses |
| `QueryPredicates.BuildChainAppend` | src/Query/PredicateBuilder.cs:32-53 | appending a condition appends exactly its rendering to what `Build` gives |
| `QueryPredicates.BuildQueryCondition` | src/Query/PredicateBuilder.cs:55-69 | fails exactly for a null value; otherwise the condition on the upper-cased underscore table name and the given field, with the operator and value |
| `QueryPredicates.PredicateBuilder.constructor` | src/Query/PredicateBuilder.cs:16-19 | the builder holds the given conditions |
| `QueryPredicates.PredicateBuilder.New` | src/Query/PredicateBuilder.cs:21-30 | a fresh builder holding the one condition with no keyword; a null value throws |
| `QueryPredicates.PredicateBuilder.And` | src/Query/PredicateBuilder.cs:32-39 | one `And` condition is appended after all existing ones and the builder returned; a null value throws and leaves the chain alone |
| `QueryPredicates.PredicateBuilder.Or` | src/Query/PredicateBuilder.cs:41-48 | one `Or` condition is appended after all existing ones and the builder returned; a null value throws and leaves the chain alone |
| `QueryPredicates.BuildOfChain` | src/Query/PredicateBuilder.cs:21-53 | a chain made by `New` then `And`/`Or` renders the first condition with an empty keyword, then one element per call |
| `QueryPredicates.PredicateBuilder.Build` | src/Query/PredicateBuilder.cs:50-53 | every condition of the chain rendered and concatenated in insertion order, none dropped |
| `QueryWhere.WhereCondition` | src/Query/WhereBuilder.cs:51-64 | fails exactly for a null value; otherwise the condition on the bare field name, with no table name, and the given operator and value |
| `QueryWhere.WhereFieldUnqualified` | src/Query/WhereBuilder.cs:51-64 | a field with no table name renders as the back-quoted field name alone |
| `QueryWhere.WhereBuilder.constructor` | src/Query/WhereBuilder.cs:12-15 | the builder holds the given conditions |
| `QueryWhere.WhereBuilder.New` | src/Query/WhereBuilder.cs:17-26 | a fresh builder holding the one condition with no keyword; a null value throws |
| `QueryWhere.WhereBuilder.And` | src/Query/WhereBuilder.cs:28-35 | one `And` condition is appended after all existing ones and the builder returned; a null value throws and leaves the chain alone |
| `QueryWhere.WhereBuilder.Or` | src/Query/WhereBuilder.cs:37-44 | one `Or` condition is appended after all existing ones and the builder returned; a null value throws and leaves the chain alone |
| `QueryWhere.AndKeepsAndChain` | src/Query/WhereBuilder.cs:17-35 | through `New` and `And` a chain keeps its shape: no keyword first, `And` on every later condition |
| `QueryWhere.WhereBuilder.Build` | src/Query/WhereBuilder.cs:46-49 | every condition of the chain rendered and concatenated in insertion order, none dropped |
| `SqlExpression.SqlOperator` | src/Query/SqlExpressionBuilder.cs:13-23 | every operator has an SQL spelling except `Null`, which has none |
| `SqlExpression.OperatorText` | src/Query/SqlExpressionBuilder.cs:28 | the operator slot is empty exactly for the `Null` operator, whose missing entry reads as null |
| `SqlExpression.BuildField` | src/Query/SqlExpressionBuilder.cs:69-72 | a back-quoted identifier: the field name alone when the table name is blank, otherwise `table.field` |
| `SqlExpression.BuildStringValue` | src/Query/SqlExpressionBuilder.cs:59-67 | a string value never renders blank (corrected escaping, see Findings) |
| `SqlExpression.EscapeBothOfReplaced` | src/Query/SqlExpressionBuilder.cs:66 | escaping backslashes and then quotes by two replacements is the one-pass escaping of both |
| `SqlExpression.EscapeLiteralIsEscapeBoth` | src/Query/SqlExpressionBuilder.cs:66 | the corrected escaping equals the one-pass escaping of backslash and quote |
| `SqlExpression.ReadQuotedEscapeBoth` | src/Query/SqlExpressionBuilder.cs:66 | a MySQL reader reads an escaped literal back as the original value and stops exactly at its closing quote |
| `SqlExpression.StringLiteralRoundTrip` | src/Query/SqlExpressionBuilder.cs:59-67 | a value without `UNHEX` is quoted, and read back by MySQL as exactly that value whatever quotes or backslashes it holds |
| `SqlExpression.UnHexPassThrough` | src/Query/SqlExpressionBuilder.cs:61-64 | a value holding `UNHEX` is emitted unchanged |
| `SqlExpression.AsWrittenBackslashLiteral` | src/Query/SqlExpressionBuilder.cs:66 | with only quotes escaped, the value `\` leaves its closing quote escaped so the literal swallows the text after it; the corrected escaping reads it back |
| `SqlExpression.StringsOf` | src/Query/SqlExpressionBuilder.cs:56 | only the string elements of a list are kept |
| `SqlExpression.BuildStringValues` | src/Query/SqlExpressionBuilder.cs:56 | each string element rendered as a string value (corrected escaping), in order |
| `SqlExpression.ListValueKeepsEveryString` | src/Query/SqlExpressionBuilder.cs:54-57 | no string element of a list is dropped: the list is every rendered string, comma-separated in order, in parentheses |
| `SqlExpression.BuildValue` | src/Query/SqlExpressionBuilder.cs:34-52 | null renders as the keyword `NULL`, a string as its literal (corrected escaping) and a list as its parenthesised list |
| `SqlExpression.BuildCondition` | src/Query/SqlExpressionBuilder.cs:25-32 | the condition starts with the back-quoted field and a space, and is never blank; its value slot uses the corrected escaping |
| `Sorting.SortBy` | src/Common/Enumeration/Enumeration.cs:44 | `OrderBy` on a string key returns a permutation of its input |
| `Sorting.InsertSorted` | src/Common/Json/FlatJsonExtension.cs:34 | inserting into a sequence ordered by key keeps it ordered by key |
| `Sorting.SortBySorted` | src/Common/Enumeration/Enumeration.cs:44 | the result of `OrderBy` is ordered by key |
| `Sorting.SortByMembers` | src/Common/Json/FlatJsonExtension.cs:34 | an element is in the sorted result exactly when it is in the input |
| `Values.NewQueryValue` | src/Query/QueryValue.cs:11-15 | a query value keeps the value and records its runtime type; a null value fails |
| `Values.UnHex` | src/Query/QueryValue.cs:17-20 | the value wrapped as `UNHEX('…')`, recoverable from between the markers |
| `Values.UnHexContainsMarker` | src/Query/QueryValue.cs:17-20 | every `UnHex` result contains the `UNHEX` marker the string renderer passes through |

## Left out

- I/O. Connections, the database, stored procedures, the driver and the clock are not executed. Each is a parameter: connection-open and transaction outcomes, the database's answer to the n-th call, and the values in output parameters.
- Concurrency. The cache's `AsyncLock` and the double-checked `GetOrAdd` become one sequential step. The async overloads are the same as their synchronous forms.
- `DisposableBase` is not part of this model. The dispose-once guard it provides is modelled on each class that uses it.
- Logging and `Stopwatch` timing are left out, including the log calls in the cache and command error paths.
- JSON serialisation and deserialisation (Newtonsoft, the `Utf8Json` cache serializer) are parameters. Deserialising a serialised item is taken to give the item back. The indentation `JToken.ToString` produces is not modelled.
- Culture. Casing is ASCII (`ToUpper`, `ToLower`, `EqualsIgnoreCase`, `ToPascalCase`). `Environment.NewLine` is `"\n"`. `OrderBy` on strings compares ordinally; .NET's default comparer is culture-sensitive.
- Reflection. Entities are records of named properties with a type name. The reflection-based builders are not modelled:
  - `FilterSat`, `FilterPK(object)`, `FilterLink`, `FromObjectToFilterConditions`;
  - `HubRepository.GetList<TSat>` (src/Repositories/HubRepository.cs:90-93);
  - `LinkRepository.GetListByLink`, `GetListBySat` and `GetList` (src/Repositories/LinkRepository.cs:61-76).
- The CLR-to-`DbType` mapping is abstract: a parameter records the CLR type it was given.
- Dates, times, floating point and GUIDs. `ToDateTime`, `ToDouble`, `ToSingle`, `ToTimeSpan` and `ToGuid` are not modelled. `TryConvert` records such a conversion with its input and does not compute it.
- The driver is a parameter: the values it writes into output and return parameters, such as the `@ReturnValue` that `GenerateEntityUniqueSequence` reads, are part of its answer. Lookup items are decoded by a parameter.
- `EntityNotFoundException` is not part of this model. Its message is taken to be the key that was not found.
- Composition replaces inheritance:
  - the hub and link repositories hold the shared repository as `base`;
  - a data-vault context holds its `DataContext` part as `store`;
  - a null repository dictionary in the unit of work is an empty map.
- The condition dictionaries of `PredicateBuilder` and `WhereBuilder` are sequences. Their keys are fresh `QueryCondition` objects compared by reference, so `Add` never meets a duplicate, and entries enumerate in insertion order.
- DistributedCaches.DistributedCache.Refresh: the sliding expiry it renews is not modelled; the stored items are unchanged. The cache name is never assigned in the source and is the empty string.
- HubRepositories.HubRepository.Update: a hub property name containing a dot would be set along a nested path; the model clears a single property.
- HubRepositories.HubRepository.GetByHub: `includeDetails` is ignored, as in the source.
- Enumerations.AllOptions: the model does not state that `OrderBy` is stable between equal codes. The `<`, `<=`, `>` and `>=` operators are `CompareTo` compared with 0 and are not modelled separately.
- Optionals.Equals: a defined optional holding null throws `NullReferenceException` in the source; the model compares values structurally. The mutable `Value` setter of the struct is not modelled.
- OptionalCollection.Values: the source is an iterator whose null check runs at the first enumeration; the model reports the null source at the call.
- StringConvert.ToDecimal: text with more significant digits than `decimal` holds (28 or 29) is taken exactly and not rounded, so text just above `decimal.MaxValue` that .NET would round down to it is refused instead. The source parses with the current culture's symbols; the model uses the invariant culture's `.` and `,`.
- MoneyFormat.StandardizeAmountText: reads text through `StringConvert.ToDecimal` and so shares its two gaps, the rounding of excess significant digits and the current culture.
- MoneyFormat: `ToStandardizeAmountString` is not modelled, because decimal text depends on the decimal's scale, which a real number does not carry.
- StringExtension.LastChars: extension methods called on a null string throw `NullReferenceException`; this one and the other string extensions are modelled on non-null strings.
- StringExtension.EnsureEndsWith: modelled with the default ordinal comparison only, not with a caller-supplied `StringComparison`.
- StringExtension.EnsureStartsWith: modelled with the default ordinal comparison only, not with a caller-supplied `StringComparison`.
- FlatJson: `ToJsonFormat`, `GetValue`, `DictionaryToJson`, `ToArrayJson`, `GetClonePropertes`, `GetPropertiesName`, `MappingFilterData` and `MappingSortData` are not modelled. They work on dynamic objects, reflection or runtime types.
- FlatJson.AddIfNotContains: returns the new dictionary instead of changing the given one in place.
- Json: `ParseFromJsonPath` and `ParseFromJsonPathAsync` select by JSON path and are not modelled.
- SqlExpression.BuildStringValue: a string literal escapes backslashes as well as quotes, which is the corrected half of the escaping finding below. The source escapes quotes only (src/Query/SqlExpressionBuilder.cs:66), so for a value holding a backslash the model's text differs: `a\b` gives `'a\\b'` where the source writes `'a\b'`. `BuildStringValueAsWritten` is the source's form.
- SqlExpression.BuildStringValues: every element goes through the corrected escaping of `BuildStringValue`, not the source's quote-only escaping.
- SqlExpression.BuildValue: a string value takes the corrected escaping, so its literal differs from the source's for any value holding a backslash.
- SqlExpression.BuildCondition: the value slot takes the corrected escaping. The predicate, where, select, update and view-query texts built from conditions differ from the source's in the same way, for values holding a backslash.
- UnitsOfWork.UnitOfWork.Complete: commits the transaction of the current context's `DataContext` part, but the data-vault context's update calls (`CreateRecord`, `UpdateRecord` and the others) are logged as calls and do not themselves begin that transaction; `PrepareCreateRecord` shows how the source's update command begins it on a session.
- DataVaultCommands.AsText: an output that is not a string reads as no text, so the status decodes as `Failed`; the source's cast to `string` in the output callback would throw instead.
- QueryWhere.WhereBuilder.Or: private in the source and never called there; it is modelled but nothing uses it.

## Findings

| source | as written | input that shows it | evidently intended | confidence | as-written member | corrected member |
|---|---|---|---|---|---|---|
| src/Repositories/HubRepository.cs:156 | `CheckExistPKsAndGetList` computes the missing ids as `ids.Except(entities.ConvertArray(x => x.GetBk()))`, comparing requested ids with the business keys of the hubs found | a Customer hub with id `a` and business key `x`, requested as ids `["a"]`: it is found, yet `a` is reported missing and the call throws | compare the requested ids with the ids of the hubs found (`GetId`) | high, not executed | `HubRepositories.HubRepository.CheckExistPKsAndGetListAsWritten`, `HubRepositories.IdsComparedWithBusinessKeys` | `HubRepositories.HubRepository.CheckExistPKsAndGetList` |
| src/Query/SqlExpressionBuilder.cs:59-67 | a string literal escapes only quotes (`value.Replace(@"'", @"\'")`) | the value `\` renders as `'\'`; MySQL reads `\'` as an escaped quote, so the literal is never closed and swallows the text after it | escape backslashes before quotes, so that MySQL reads back the original value | high, not executed | `SqlExpression.AsWrittenBackslashLiteral` | `SqlExpression.StringLiteralRoundTrip` |
