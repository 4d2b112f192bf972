/**
  The database sink's table, abstracted as its state: `None` while the table does
  not exist, `Some(rows)` once it does.  `Setup` and `Insert` are each one
  transaction, modelled as one atomic transition of that state.
 */
module DatabaseStore {
  import opened Wrappers
  import opened LogLevels
  import opened Decimal
  import opened LogEntries

  /** One stored row: the level token, the timestamp as written, the message. */
  datatype Row = Row(level: string, timestamp: string, message: string)

  /** The table state. */
  type Table = Option<seq<Row>>

  /** Why a database sink operation raises. */
  datatype StoreError = MissingTable

  /** The message of the seed row written by the first setup. */
  const SeedMessage: string := "Initial setup complete."

  /** The seed row: level `notice`, the current time, the fixed message. */
  function SeedRow(now: int): (r: Row)
    ensures FromToken(r.level) == Notice
    ensures ParseInt(r.timestamp) == Some(now)
    ensures r.message == SeedMessage
  {
    IntRoundTrip(now);
    Row(ToToken(Notice), IntToString(now), SeedMessage)
  }

  /** The row the sink writes for an entry. */
  function RowOf(e: Log): (r: Row)
    ensures r.level in CanonicalTokens && FromToken(r.level) == e.level
    ensures r.timestamp == e.timestamp && r.message == e.message
  {
    DecodeEncode(e.level);
    Row(ToToken(e.level), e.timestamp, e.message)
  }

  function RowCount(t: Table): nat {
    if t.Some? then |t.value| else 0
  }

  /** Schema provisioning: create the table if it is absent, count its rows, and
      add the seed row only when the count is zero. */
  function Setup(t: Table, now: int): (r: Table)
    ensures r.Some?
    ensures t.Some? ==> t.value <= r.value
    ensures RowCount(t) == 0 ==> r.value == [SeedRow(now)]
    ensures RowCount(t) > 0 ==> r == t
    ensures RowCount(r) == RowCount(t) + 1 <==> RowCount(t) == 0
  {
    var rows := if t.Some? then t.value else [];
    if |rows| == 0 then Some(rows + [SeedRow(now)]) else Some(rows)
  }

  /** The database sink's `log`: append exactly one row built from the entry to an
      existing table; with no table, the insert raises and nothing changes. */
  function Insert(t: Table, e: Log): (r: Result<Table, StoreError>)
    ensures r.Success? <==> t.Some?
    ensures r.Success? ==> r.value.Some? && |r.value.value| == |t.value| + 1
    ensures r.Success? ==> r.value.value[..|t.value|] == t.value
    ensures r.Success? ==> r.value.value[|t.value|] == RowOf(e)
  {
    match t
    case None => Failure(MissingTable)
    case Some(rows) => Success(Some(rows + [RowOf(e)]))
  }

  /** How many seed rows a row list holds. */
  function SeedRows(rows: seq<Row>): nat
    decreases |rows|
  {
    if |rows| == 0 then 0
    else (if rows[0].message == SeedMessage then 1 else 0) + SeedRows(rows[1..])
  }

  /** Setup is idempotent: a second call, at any later time, changes nothing. */
  lemma SetupIdempotent(t: Table, now1: int, now2: int)
    ensures Setup(Setup(t, now1), now2) == Setup(t, now1)
  {
  }

  /** Setup on a table that already holds rows never seeds it. */
  lemma SetupKeepsNonEmptyTable(rows: seq<Row>, now: int)
    requires |rows| > 0
    ensures Setup(Some(rows), now) == Some(rows)
  {
  }

  /** Setup called any number of times on an absent or empty table leaves exactly
      one seed row, written by the first call. */
  lemma {:induction false} RepeatedSetupSeedsOnce(t: Table, times: seq<int>)
    requires RowCount(t) == 0 && |times| > 0
    ensures RepeatSetup(t, times) == Some([SeedRow(times[0])])
    ensures SeedRows(RepeatSetup(t, times).value) == 1
    decreases |times|
  {
    if |times| > 1 {
      RepeatedSetupSeedsOnce(t, times[..|times| - 1]);
    }
    assert SeedRows([SeedRow(times[0])][1..]) == 0;
  }

  /** `Setup` called once per time in `times`, in order. */
  function RepeatSetup(t: Table, times: seq<int>): Table
    decreases |times|
  {
    if |times| == 0 then t else Setup(RepeatSetup(t, times[..|times| - 1]), times[|times| - 1])
  }

  /** Logging into a table that exists never fails, and a later setup leaves the
      logged rows alone. */
  lemma SetupAfterInsert(t: Table, e: Log, now: int)
    requires t.Some?
    ensures Insert(t, e).Success?
    ensures Setup(Insert(t, e).value, now) == Insert(t, e).value
  {
  }

  /** Logging before setup raises; after setup it succeeds. */
  lemma InsertNeedsSetup(e: Log, now: int)
    ensures Insert(None, e) == Failure(MissingTable)
    ensures Insert(Setup(None, now), e).Success?
  {
  }

  /** Fresh store, then setup, then a log call with message "hello world" and level
      "info": two rows, the seed row first and the logged row last. */
  lemma SetupThenLogScenario(now: int, later: int)
    ensures var e := MakeLog("hello world", FromToken("info"), later);
            var r := Insert(Setup(None, now), e);
            && r.Success?
            && RowCount(r.value) == 2
            && r.value.value[0].level == "notice"
            && r.value.value[1] == Row("info", IntToString(later), "hello world")
  {
  }

  /** An unknown level token is stored as `info`, not rejected. */
  lemma UnknownLevelStoredAsInfo(rows: seq<Row>, now: int)
    ensures var r := Insert(Some(rows), MakeLog("x", FromToken("unknown-token"), now));
            r.Success? && r.value.value[|rows|].level == "info"
  {
    EncodeDecode("unknown-token");
  }
}
