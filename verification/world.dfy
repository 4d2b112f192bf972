/**
  The two concrete sinks of PostLog behind their handles, and a log call run
  against the state they write to: the lines printed so far and the tables of
  the database.  A console delivery cannot fail; a database delivery raises when
  its table was never set up, and the dispatcher does not catch it.
 */
module SinkWorld {
  import opened Wrappers
  import opened LogLevels
  import opened Decimal
  import opened LogEntries
  import opened DatabaseStore
  import opened Dispatcher

  /** A database server, as reached through a sink's connection.  Two connections
      to the same database see the same tables. */
  type DatabaseId = nat

  /** The physical table a database sink writes to: the database its connection
      reaches, and the table name exactly as the sink holds it. */
  datatype TableRef = TableRef(db: DatabaseId, name: string)

  /** What a handle designates: the console sink, or a database sink holding a
      connection and a table name. */
  datatype Sink = ConsoleSink | DatabaseSink(table: TableRef)

  /** Everything the sinks write: the console lines, and each existing table of
      every database. */
  datatype World = World(console: seq<string>, tables: map<TableRef, seq<Row>>)

  /** The state of one table; absent when it was never created. */
  function TableOf(w: World, name: TableRef): (t: Table)
    ensures t.Some? <==> name in w.tables
  {
    if name in w.tables then Some(w.tables[name]) else None
  }

  /** The sink's `log` for one entry. */
  function Deliver(w: World, sink: Sink, e: Log): (r: Result<World, StoreError>)
    ensures r.Failure? <==> sink.DatabaseSink? && sink.table !in w.tables
    ensures r.Success? ==> r.value.tables.Keys == w.tables.Keys
    ensures r.Success? && sink.ConsoleSink? ==> r.value == w.(console := w.console + [ConsoleLine(e)])
    ensures r.Success? && sink.DatabaseSink? ==>
              && r.value.console == w.console
              && r.value.tables[sink.table] == w.tables[sink.table] + [RowOf(e)]
              && forall n :: n in w.tables && n != sink.table ==> r.value.tables[n] == w.tables[n]
  {
    match sink
    case ConsoleSink => Success(w.(console := w.console + [ConsoleLine(e)]))
    case DatabaseSink(name) =>
      match Insert(TableOf(w, name), e)
      case Failure(err) => Failure(err)
      case Success(t) => Success(w.(tables := w.tables[name := t.value]))
  }

  /** The database sink's `setup` on its table. */
  function SetupSink(w: World, name: TableRef, now: int): (r: World)
    ensures name in r.tables && r.console == w.console
    ensures r.tables.Keys == w.tables.Keys + {name}
    ensures Some(r.tables[name]) == Setup(TableOf(w, name), now)
    ensures forall n :: n in w.tables && n != name ==> r.tables[n] == w.tables[n]
  {
    w.(tables := w.tables[name := Setup(TableOf(w, name), now).value])
  }

  /** Every handle in the list designates a live sink. */
  predicate Registered(registry: map<SinkId, Sink>, sinks: seq<SinkId>) {
    forall i :: 0 <= i < |sinks| ==> sinks[i] in registry
  }

  /** The handles whose delivery raises in `w`: database sinks whose table is absent. */
  function MissingTableSinks(w: World, registry: map<SinkId, Sink>): set<SinkId> {
    set id | id in registry && registry[id].DatabaseSink? && registry[id].table !in w.tables
  }

  /** A log call run against the world: deliver to each handle in order, stopping at
      the first delivery that raises.  Returns the final world and what was
      attempted. */
  function Run(w: World, registry: map<SinkId, Sink>, sinks: seq<SinkId>, e: Log): (r: (World, Outcome))
    requires Registered(registry, sinks)
    ensures r.0.tables.Keys == w.tables.Keys
    ensures w.console <= r.0.console
    ensures |r.1.trace| <= |sinks|
    ensures r.1.failed.Some? ==> |r.1.trace| > 0
    decreases |sinks|
  {
    if |sinks| == 0 then (w, Outcome([], None))
    else
      match Deliver(w, registry[sinks[0]], e)
      case Failure(_) => (w, Outcome([(sinks[0], e)], Some(sinks[0])))
      case Success(w') =>
        var rest := Run(w', registry, sinks[1..], e);
        (rest.0, Outcome([(sinks[0], e)] + rest.1.trace, rest.1.failed))
  }

  /** Run against the world, a log call does exactly what the fail-fast dispatcher
      says: the failing sinks are the database sinks whose table is missing, and
      they stay the same throughout the call. */
  lemma {:induction false} RunIsFailFast(w: World, registry: map<SinkId, Sink>, sinks: seq<SinkId>, e: Log)
    requires Registered(registry, sinks)
    ensures Run(w, registry, sinks, e).1 == FailFast(sinks, e, MissingTableSinks(w, registry))
    decreases |sinks|
  {
    if |sinks| > 0 {
      match Deliver(w, registry[sinks[0]], e)
      case Failure(_) =>
      case Success(w') =>
        assert MissingTableSinks(w', registry) == MissingTableSinks(w, registry);
        RunIsFailFast(w', registry, sinks[1..], e);
    }
  }

  /** How many deliveries of a dispatch completed: all attempted ones, less the
      one that raised. */
  function Completed(o: Outcome): nat {
    if o.failed.Some? && |o.trace| > 0 then |o.trace| - 1 else |o.trace|
  }

  /** The lines the console sinks among `sinks` print for `e`, in list order: one
      per registration of a console sink. */
  function ConsoleOutput(registry: map<SinkId, Sink>, sinks: seq<SinkId>, e: Log): seq<string>
    requires Registered(registry, sinks)
    decreases |sinks|
  {
    if |sinks| == 0 then []
    else (if registry[sinks[0]] == ConsoleSink then [ConsoleLine(e)] else []) + ConsoleOutput(registry, sinks[1..], e)
  }

  /** The rows the database sinks on table `name` among `sinks` insert for `e`:
      one per registration of such a sink. */
  function RowsFor(registry: map<SinkId, Sink>, sinks: seq<SinkId>, name: TableRef, e: Log): seq<Row>
    requires Registered(registry, sinks)
    decreases |sinks|
  {
    if |sinks| == 0 then []
    else (if registry[sinks[0]] == DatabaseSink(name) then [RowOf(e)] else []) + RowsFor(registry, sinks[1..], name, e)
  }

  /** The handles a log call completed form a prefix of the list, all of it when
      nothing raised. */
  lemma {:induction false} RunCompletes(w: World, registry: map<SinkId, Sink>, sinks: seq<SinkId>, e: Log)
    requires Registered(registry, sinks)
    ensures Completed(Run(w, registry, sinks, e).1) <= |sinks|
    ensures Run(w, registry, sinks, e).1.failed.None? ==> Completed(Run(w, registry, sinks, e).1) == |sinks|
    decreases |sinks|
  {
    if |sinks| > 0 {
      match Deliver(w, registry[sinks[0]], e)
      case Failure(_) =>
      case Success(w') =>
        RunCompletes(w', registry, sinks[1..], e);
    }
  }

  lemma AppendAssoc<T>(a: seq<T>, b: seq<T>, c: seq<T>)
    ensures (a + b) + c == a + (b + c)
  {
  }

  /** Splitting off the first handle of a completed prefix. */
  lemma PrefixStep(sinks: seq<SinkId>, k: nat)
    requires k < |sinks|
    ensures sinks[..k + 1] == [sinks[0]] + sinks[1..][..k]
  {
  }

  /** One step of `Run` past a delivery that succeeded. */
  lemma RunStep(w: World, registry: map<SinkId, Sink>, sinks: seq<SinkId>, e: Log)
    requires Registered(registry, sinks) && |sinks| > 0
    requires Deliver(w, registry[sinks[0]], e).Success?
    ensures var rest := Run(Deliver(w, registry[sinks[0]], e).value, registry, sinks[1..], e);
            && Run(w, registry, sinks, e).0 == rest.0
            && Completed(Run(w, registry, sinks, e).1) == Completed(rest.1) + 1
  {
  }

  /** `Run` stops without writing when the first delivery raises. */
  lemma RunStops(w: World, registry: map<SinkId, Sink>, sinks: seq<SinkId>, e: Log)
    requires Registered(registry, sinks) && |sinks| > 0
    requires Deliver(w, registry[sinks[0]], e).Failure?
    ensures Run(w, registry, sinks, e).0 == w
    ensures Completed(Run(w, registry, sinks, e).1) == 0
  {
  }

  /** The console gains one line per console handle the call completed. */
  lemma {:induction false} RunConsole(w: World, registry: map<SinkId, Sink>, sinks: seq<SinkId>, e: Log)
    requires Registered(registry, sinks)
    ensures Completed(Run(w, registry, sinks, e).1) <= |sinks|
    ensures Run(w, registry, sinks, e).0.console
            == w.console + ConsoleOutput(registry, sinks[..Completed(Run(w, registry, sinks, e).1)], e)
    decreases |sinks|
  {
    RunCompletes(w, registry, sinks, e);
    if |sinks| == 0 {
      assert sinks[..0] == [];
    } else if Deliver(w, registry[sinks[0]], e).Failure? {
      RunStops(w, registry, sinks, e);
      assert sinks[..0] == [];
    } else {
      var w' := Deliver(w, registry[sinks[0]], e).value;
      RunStep(w, registry, sinks, e);
      RunConsole(w', registry, sinks[1..], e);
      var k' := Completed(Run(w', registry, sinks[1..], e).1);
      PrefixStep(sinks, k');
      var head := if registry[sinks[0]] == ConsoleSink then [ConsoleLine(e)] else [];
      var tail := ConsoleOutput(registry, sinks[1..][..k'], e);
      assert w'.console == w.console + head;
      assert ConsoleOutput(registry, sinks[..k' + 1], e) == head + tail;
      var r := Run(w, registry, sinks, e);
      assert r.0.console == w'.console + tail;
      assert Completed(r.1) == k' + 1;
      AppendAssoc(w.console, head, tail);
    }
  }

  /** Each existing table gains one row per handle of a database sink on it that
      the call completed. */
  lemma {:induction false} RunTable(w: World, registry: map<SinkId, Sink>, sinks: seq<SinkId>, e: Log, n: TableRef)
    requires Registered(registry, sinks) && n in w.tables
    ensures Completed(Run(w, registry, sinks, e).1) <= |sinks|
    ensures Run(w, registry, sinks, e).0.tables[n]
            == w.tables[n] + RowsFor(registry, sinks[..Completed(Run(w, registry, sinks, e).1)], n, e)
    decreases |sinks|
  {
    RunCompletes(w, registry, sinks, e);
    if |sinks| == 0 {
      assert sinks[..0] == [];
    } else if Deliver(w, registry[sinks[0]], e).Failure? {
      RunStops(w, registry, sinks, e);
      assert sinks[..0] == [];
    } else {
      var w' := Deliver(w, registry[sinks[0]], e).value;
      RunStep(w, registry, sinks, e);
      assert n in w'.tables;
      RunTable(w', registry, sinks[1..], e, n);
      var k' := Completed(Run(w', registry, sinks[1..], e).1);
      PrefixStep(sinks, k');
      var head := if registry[sinks[0]] == DatabaseSink(n) then [RowOf(e)] else [];
      var tail := RowsFor(registry, sinks[1..][..k'], n, e);
      assert w'.tables[n] == w.tables[n] + head;
      assert RowsFor(registry, sinks[..k' + 1], n, e) == head + tail;
      var r := Run(w, registry, sinks, e);
      assert r.0.tables[n] == w'.tables[n] + tail;
      assert Completed(r.1) == k' + 1;
      AppendAssoc(w.tables[n], head, tail);
    }
  }

  /** What a log call writes: the handles it completed form a prefix of the list,
      all of it when nothing raised; the console gains one line per console
      handle in that prefix, and each table one row per handle of a database sink
      on it, in list order.  Nothing else is written. */
  lemma RunWrites(w: World, registry: map<SinkId, Sink>, sinks: seq<SinkId>, e: Log)
    requires Registered(registry, sinks)
    ensures var r := Run(w, registry, sinks, e);
            && Completed(r.1) <= |sinks|
            && (r.1.failed.None? ==> Completed(r.1) == |sinks|)
            && r.0.console == w.console + ConsoleOutput(registry, sinks[..Completed(r.1)], e)
            && forall n :: n in w.tables ==>
                 r.0.tables[n] == w.tables[n] + RowsFor(registry, sinks[..Completed(r.1)], n, e)
  {
    RunCompletes(w, registry, sinks, e);
    RunConsole(w, registry, sinks, e);
    forall n | n in w.tables
      ensures Run(w, registry, sinks, e).0.tables[n]
              == w.tables[n] + RowsFor(registry, sinks[..Completed(Run(w, registry, sinks, e).1)], n, e)
    {
      RunTable(w, registry, sinks, e, n);
    }
  }

  /** A failed call leaves the world as it was just before the failing sink: the
      raising insert changes nothing, and later sinks are not reached. */
  lemma FailureStopsAtFailingSink(w: World, registry: map<SinkId, Sink>, a: SinkId, b: SinkId, e: Log)
    requires a in registry && b in registry && a != b
    requires registry[a].DatabaseSink? && registry[a].table !in w.tables
    requires registry[b] == ConsoleSink
    ensures Run(w, registry, [a, b], e) == (w, Outcome([(a, e)], Some(a)))
  {
  }

  /** Two database sinks on the same table name but different databases write to
      two different tables: one log call leaves one row in each.  Two sinks on the
      same table of the same database both append to it. */
  lemma TablesAreSeparatePerDatabase(a: SinkId, b: SinkId, d1: DatabaseId, d2: DatabaseId, name: string, e: Log)
    requires a != b
    ensures var t1 := TableRef(d1, name);
            var t2 := TableRef(d2, name);
            var registry := map[a := DatabaseSink(t1), b := DatabaseSink(t2)];
            var r := Run(World([], map[t1 := [], t2 := []]), registry, [a, b], e);
            && r.1.failed.None?
            && (d1 != d2 ==> r.0.tables[t1] == [RowOf(e)] && r.0.tables[t2] == [RowOf(e)])
            && (d1 == d2 ==> r.0.tables[t1] == [RowOf(e), RowOf(e)])
  {
    var t1 := TableRef(d1, name);
    var t2 := TableRef(d2, name);
    var registry := map[a := DatabaseSink(t1), b := DatabaseSink(t2)];
    var w := World([], map[t1 := [], t2 := []]);
    var w1 := Deliver(w, DatabaseSink(t1), e).value;
    assert w1.tables[t1] == [RowOf(e)];
    var w2 := Deliver(w1, DatabaseSink(t2), e).value;
    assert [a, b][1..] == [b] && [b][1..] == [];
    assert Run(w2, registry, [], e).0 == w2;
    assert Run(w1, registry, [b], e).0 == w2;
    assert Run(w, registry, [a, b], e).0 == w2;
    assert Run(w, registry, [a, b], e).1.failed.None?;
  }

  /** Fresh database, `setup()`, then `log("hello world", "info")` through a
      dispatcher holding the sink: the table holds the seed row and then the new
      row, and nothing fails. */
  lemma EndToEndScenario(registry: map<SinkId, Sink>, db: SinkId, name: TableRef, now: int, later: int)
    requires db in registry && registry[db] == DatabaseSink(name)
    ensures var w := SetupSink(World([], map[]), name, now);
            var e := Entry("hello world", "info", later);
            var r := Run(w, registry, AddSink(Logger([]), db).sinks, e);
            && r.1.failed.None?
            && r.0.tables[name] == [SeedRow(now), Row("info", e.timestamp, "hello world")]
  {
    var w := SetupSink(World([], map[]), name, now);
    var e := Entry("hello world", "info", later);
    assert AddSink(Logger([]), db).sinks == [db];
    assert Setup(None, now) == Some([SeedRow(now)]);
    assert w.tables[name] == [SeedRow(now)];
  }

  /** The library's own driver sequence on a fresh database: set up the table
      "test_logs", then hand a directly built `Info` entry "Test message" to the
      database sink.  The insert succeeds and the table holds the seed row followed
      by the entry's row. */
  lemma DriverSequence(db: DatabaseId, now: int, later: int)
    ensures var t := TableRef(db, "test_logs");
            var w := SetupSink(World([], map[]), t, now);
            var d := Deliver(w, DatabaseSink(t), MakeLog("Test message", Info, later));
            && d.Success?
            && d.value.tables[t] == [SeedRow(now), Row("info", IntToString(later), "Test message")]
  {
    assert Setup(None, now) == Some([SeedRow(now)]);
  }
}
