# PostLog in Dafny

A model of the core of PostLog, a small C++ logging facade. A `Logger` holds an
ordered list of non-owning sink handles. One log call decodes the level token
and builds one `Log` entry with the time read once. It then hands that entry to
every registered sink in registration order. There are two sinks:

- the console sink prints `[token] timestamp: message`;
- the database sink appends a row to a table. Its `setup` creates the table and
  seeds it once.

Modules, leaf first:

- `Wrappers` (`wrappers.dfy`): `Option` and `Result`.
- `LogLevels` (`levels.dfy`): the nine-variant `LogLevel` and its declaration
  order, the encoder `ToToken` (`logLevelToString`) and the lossy, case-sensitive
  decoder `FromToken` (`logLevelFromString`).
- `Decimal` (`decimal.dfy`): `std::to_string` of the time value (`IntToString`)
  and its exact inverse `ParseInt`, which accepts only what `IntToString` writes.
- `LogEntries` (`entries.dfy`): the `Log` record, its constructor `MakeLog`, the
  console line `ConsoleLine` and a parser `ParseConsoleLine` that inverts it.
- `Dispatcher` (`dispatcher.dfy`): the handle registry (`AddSink`, `RemoveSink`)
  and `LogCall` (`Logger::log`), whose result is the delivery trace, the sequence of
  (handle, entry) pairs in invocation order. `FailFast` is dispatch when sinks
  can raise: the first raising sink ends the call, because the dispatch loop
  has no `try`.
- `DatabaseStore` (`store.dfy`): the table as `Option<seq<Row>>`, where `None`
  means the table does not exist. `Setup` and `Insert` are each one atomic
  transition of that state. Inserting into a missing table is the error
  `MissingTable`.
- `SinkWorld` (`world.dfy`): concrete sinks behind handles, run against the
  console output and the database tables. A database sink designates a
  `TableRef`: the database its connection reaches and the table's name there,
  so sinks on different databases never share a table. `RunIsFailFast` shows that running a
  log call against this state is `FailFast` with "database sink whose table is
  missing" as the failing set. `RunWrites` states what the call writes: one
  console line per console handle it completed, and one row per completed
  handle of a database sink on that table.

The clock is a parameter (`now`) of every operation that reads it. Handles are
`nat` ids compared by equality, as the source compares pointers.

## Model

| member | source | states |
|---|---|---|
| LogLevels.Ordinal | PostLog.h:40-50 | each severity has a position below nine, and the declaration-order list holds that severity at that position |
| LogLevels.AllLevelsEnumerate | PostLog.h:40-50 | there are exactly nine severities, every one appears in the declaration order, and none appears twice |
| LogLevels.DeclarationOrder | PostLog.h:40-50 | the declaration order runs from most severe (Emergency) to least severe (Debug) |
| LogLevels.MoreSevereIsStrictTotalOrder | PostLog.h:40-50 | "more severe" is irreflexive, transitive and total on distinct severities |
| LogLevels.ToToken | PostLog.cpp:47-60 | the encoder returns the canonical token listed at the severity's position and never the "unknown" fallback |
| LogLevels.FromToken | PostLog.cpp:62-73 | a canonical token decodes to the severity whose token it is; every other string, case variants included, decodes to Info |
| LogLevels.CanonicalTokensDistinct | PostLog.cpp:48-57 | the nine tokens are pairwise distinct, one per severity |
| LogLevels.DecodeEncode | PostLog.cpp:47-73 | decoding the encoding of any severity gives that severity back |
| LogLevels.ToTokenInjective | PostLog.cpp:48-59 | two severities share a token exactly when they are equal |
| LogLevels.EncodeDecode | PostLog.cpp:62-73 | re-encoding a decoded string reproduces it exactly when it is canonical; any other string becomes Info |
| LogLevels.CaseVariantsFallBack | PostLog.cpp:62-73 | upper-case "INFO" and other case variants such as "Error" decode to Info |
| Decimal.NatToString | PostLog.cpp:76 | the rendering of a natural number is a non-empty run of digits with no leading zero |
| Decimal.IntToString | PostLog.cpp:76 | the rendering of a time value starts with '-' exactly when the value is negative, followed by canonical digits, and never reads "-0" |
| Decimal.CanonicalDigitsRender | PostLog.cpp:76 | a run of digits with no leading zero is the rendering of its own value, so no other spelling of a number is canonical |
| Decimal.ParseIntInverse | PostLog.cpp:76 | a string parses to a value exactly when it is that value's rendering |
| Decimal.NatRoundTrip | PostLog.cpp:76 | the decimal digits of a natural number read back as that number |
| Decimal.IntRoundTrip | PostLog.cpp:75-77 | the decimal rendering of any time value, negative ones included, parses back to that value |
| Decimal.IntToStringInjective | PostLog.cpp:76 | two time values render to the same string exactly when they are equal |
| LogEntries.MakeLog | PostLog.cpp:75-77 | the entry keeps message and level unchanged, and its timestamp string parses back to the time given, which fixes it as exactly the decimal rendering of that time |
| LogEntries.ConsoleLine | PostLog.cpp:85-86 | the console line is "[", the level token and "] ", then the timestamp, then ": ", then the message, with nothing else |
| LogEntries.ConsoleLineRoundTrip | PostLog.cpp:84-87 | the console line of an entry splits back into its level token, timestamp and message |
| LogEntries.ConsoleLineInjective | PostLog.cpp:85-86 | two constructed entries print the same console line exactly when they are the same entry |
| Dispatcher.AddSink | PostLog.cpp:21-23 | the handle is appended, the old list is an unchanged prefix, and the handle's registration count rises by one with no uniqueness check |
| Dispatcher.RemoveAll | PostLog.cpp:29-31 | the handle no longer occurs in the result, which is no longer than the input |
| Dispatcher.RemoveAllKeepsOthers | PostLog.cpp:29-31 | every other handle keeps its count, the length drops by exactly the removed handle's count, and the result is an order-preserving subsequence of the input |
| Dispatcher.RemoveSink | PostLog.cpp:29-31 | unregistering removes every registration of the handle and keeps the other handles, with their counts, in their order |
| Dispatcher.RemoveAbsentIsNoop | PostLog.cpp:29-31 | removing a handle that is not registered leaves the list unchanged |
| Dispatcher.RemoveIdempotent | PostLog.cpp:29-31 | removing a handle twice is the same as removing it once |
| Dispatcher.RemoveAllAppend | PostLog.cpp:29-31 | removal distributes over concatenation, so it treats each position on its own |
| Dispatcher.RemoveAfterAdd | PostLog.cpp:21-31 | adding then removing the same handle also removes its earlier registrations; removing a different handle commutes with the add |
| Dispatcher.RemoveAllCommutes | PostLog.cpp:29-31 | removals of two handles commute |
| Dispatcher.Entry | PostLog.cpp:39-40 | the entry of a log call carries the message, the level decoded from the token (Info for an unrecognised one) and a timestamp that parses back to the time read |
| Dispatcher.LogCall | PostLog.cpp:38-44 | a log call makes exactly one delivery per list position, in list order, and every delivery carries the same single entry; the trace is the reference broadcast |
| Dispatcher.LogWithDefaultLevel | PostLog.h:118 | a log call using the default level argument delivers entries whose level is Info |
| Dispatcher.BroadcastCount | PostLog.cpp:41-43 | a handle registered k times receives the entry k times |
| Dispatcher.RemovedSinkReceivesNothing | PostLog.cpp:29-31 | after removing a handle, a log call delivers to it zero times |
| Dispatcher.Broadcast | PostLog.cpp:41-43 | the reference trace hands the entry to each list position exactly once, in list order |
| Dispatcher.DispatchOrder | PostLog.cpp:21-23 | after adding A then B to any dispatcher, the broadcast is the old one followed by a delivery to A and then one to B |
| Dispatcher.FailFast | PostLog.cpp:41-43 | dispatch stops at the first raising sink in list order: deliveries before it succeed, it is the last one invoked, and it is reported; with no raising sink every position is delivered to |
| Dispatcher.NoFailureIsBroadcast | PostLog.cpp:41-43 | with no raising sink, fail-fast dispatch reports no failure and its trace is the reference broadcast |
| Dispatcher.LaterSinksSuppressed | PostLog.cpp:41-43 | if the sink at position k raises, the call fails and no position after k is invoked |
| Dispatcher.FailingFirstSinkSuppressesSecond | PostLog.cpp:41-43 | with sinks [A, B] and A raising, A is invoked once and B never |
| DatabaseStore.SeedRow | PostLog.cpp:115-118 | the seed row has level notice, a timestamp that parses back to the current time, and the fixed setup message |
| DatabaseStore.RowOf | PostLog.cpp:95-98 | the row for an entry has a canonical level token that decodes to the entry's level (so it is that level's token), and the entry's timestamp and message |
| DatabaseStore.Setup | PostLog.cpp:105-121 | setup leaves the table present and keeps existing rows as a prefix; it adds the single seed row exactly when the table was absent or empty, and otherwise leaves the rows unchanged |
| DatabaseStore.Insert | PostLog.cpp:93-100 | logging fails exactly when the table is absent; otherwise it appends exactly one row built from the entry and leaves all earlier rows unchanged |
| DatabaseStore.SetupIdempotent | PostLog.cpp:105-121 | a second setup, at any time, changes nothing |
| DatabaseStore.SetupKeepsNonEmptyTable | PostLog.cpp:113-114 | setup on a table that already has rows never inserts a seed row |
| DatabaseStore.RepeatedSetupSeedsOnce | PostLog.cpp:112-119 | any number of setups on an absent or empty table leave exactly one seed row, stamped by the first call |
| DatabaseStore.SetupAfterInsert | PostLog.cpp:93-121 | logging into an existing table succeeds, and a later setup leaves the logged rows alone |
| DatabaseStore.InsertNeedsSetup | PostLog.h:94-97 | logging before setup raises the missing-table error; after setup it succeeds |
| DatabaseStore.SetupThenLogScenario | PostLog.cpp:93-121 | a fresh store after setup and one log of "hello world" at "info" holds two rows: the notice seed row, then the logged row |
| DatabaseStore.UnknownLevelStoredAsInfo | PostLog.cpp:62-72 | an entry logged with an unrecognised level token is stored with level "info", not rejected |
| SinkWorld.Deliver | PostLog.cpp:84-100 | a console delivery appends the entry's line; a database delivery appends the entry's row to its table and touches nothing else, and fails exactly when the table is missing; no table is created |
| SinkWorld.SetupSink | PostLog.cpp:105-121 | the database sink's setup makes its table exist, with the table's rows as setup defines them, and leaves the console and every other table unchanged |
| SinkWorld.Run | PostLog.cpp:38-44 | a log call run against the sinks creates no table, only extends the console output, attempts at most one delivery per handle, and reports a failure only after attempting a delivery |
| SinkWorld.RunCompletes | PostLog.cpp:41-43 | the deliveries a log call completes cover a prefix of the handle list, the whole list when nothing raised |
| SinkWorld.RunConsole | PostLog.cpp:84-87 | the console gains one line for the entry per console handle in the completed prefix, in list order |
| SinkWorld.RunTable | PostLog.cpp:93-100 | each existing table gains one row for the entry per handle of a database sink on it in the completed prefix, in list order |
| SinkWorld.RunWrites | PostLog.cpp:38-44 | a log call writes exactly the console lines and table rows of the handles it completed, and nothing else |
| SinkWorld.RunIsFailFast | PostLog.cpp:41-43 | the deliveries attempted, and the failure reported, are those of fail-fast dispatch where the raising sinks are the database sinks whose table is missing |
| SinkWorld.FailureStopsAtFailingSink | PostLog.cpp:93-100 | with a database sink on a missing table before a console sink, the call fails at the database sink, nothing is printed and no state changes |
| SinkWorld.TablesAreSeparatePerDatabase | PostLog.cpp:93-100 | two database sinks with the same table name on different databases each get their own row from one log call; on the same database both rows land in the one table |
| SinkWorld.EndToEndScenario | PostLog.cpp:38-44 | setup, then a log of "hello world" at "info" through a dispatcher holding the database sink, succeeds, and the table holds the seed row followed by the logged row |
| SinkWorld.DriverSequence | tests.cpp:39-45 | setup of "test_logs" on a fresh database, then an Info entry "Test message" handed straight to the database sink, succeeds and leaves the seed row followed by the entry's row |

## Left out

- A database sink's connection is modelled only by the database it reaches (`TableRef.db`); connections to one database share its tables. A table is identified by its exact name string within that database: PostgreSQL's lower-case folding of the unquoted name spliced into the SQL (so "Logs" and "logs" are one table on the server but two in the model), quoted identifiers and schema qualification are not modelled.
- The PostgreSQL client. The SQL text, `txn.quote` escaping and commit/rollback are left out. Each `setup` and `log` is one atomic transition of the abstract table. The only database failure modelled is inserting into a table that `setup` never created. Lost connections and other server errors are not modelled.
- The `id SERIAL` column is not stored. A row's position in the sequence stands for its id.
- Column typing is left out. The `timestamp BIGINT` column receives a numeric literal from `setup` and a quoted string from `log`. Both are modelled as the decimal string of the time value, so the two literal shapes are not distinguished.
- The wall clock `time(nullptr)` becomes the parameter `now`. `time_t` is an unbounded `int`, not a 64-bit integer. No value is near the limits of that type.
- Console output. `std::cout` and `std::endl` are I/O. Only the line content (`ConsoleLine`) is modelled; the line terminator is not.
- `Log() = default` (the empty entry with an unspecified level) is left out. No code in the core builds one.
- The dispatcher's trace in `Dispatcher.LogCall` and `Dispatcher.FailFast` treats sinks as opaque. Which sinks raise is a parameter (`failing`). `SinkWorld` makes it concrete for the two sinks the library ships.
- `hello`, `isConnected` and `createTable` are declared in `PostLog.h` but have no definition in the source, so they are not modelled.
- `tests.cpp` is a driver program that needs a live server. Only its setup-then-log sequence is mirrored, in `SinkWorld.DriverSequence`; its connection and printing are not.
- C++ exceptions are modelled as `Result`/`Outcome` values. Concurrency does not arise: the library is single-threaded.
- Calling a sink whose handle is dangling is undefined behaviour in the source. `SinkWorld.Run` therefore requires every handle in the list to be registered.
