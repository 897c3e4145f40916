/**
 Writes meet reads: rows enter over ILP, are placed by the shard-key tag, and are found
 again by a WHERE clause. The reference is a single database holding every accepted row.
 */
module EndToEnd {
  import opened Bytes
  import opened Utf8
  import opened Ring
  import opened Cluster
  import opened IlpLine
  import opened Forward
  import opened Sql
  import Inline = InlineParams

  // ---------------------------------------------------------------------------
  // Runs
  // ---------------------------------------------------------------------------

  datatype Event = Write(line: Text) | Health(report: Report)

  /** A line accepted on a shard. */
  datatype Placed = Placed(shard: u32, line: Text)

  datatype World = World(snap: Snapshot, placed: seq<Placed>)

  /** What one event places: a line of content that can be routed. */
  function PlacedBy(route: Route, e: Event): seq<Placed> {
    if e.Health? || Blank(e.line) then []
    else
      match route(e.line)
      case Ok(shard) => [Placed(shard.id, e.line)]
      case Err(_) => []
  }

  function Step(w: World, defaultKey: Text, e: Event): World {
    World(
      if e.Health? then ApplyHealth(w.snap, e.report) else w.snap,
      w.placed + PlacedBy(Router(w.snap, defaultKey), e))
  }

  function Run(initial: Snapshot, defaultKey: Text, events: seq<Event>): World {
    if events == [] then World(initial, [])
    else Step(Run(initial, defaultKey, events[..|events| - 1]), defaultKey, Last(events))
  }

  function Reports(events: seq<Event>): seq<Report> {
    FlatMap(events, (e: Event) => if e.Health? then [e.report] else [])
  }

  /** The shards' ILP ingestion: the row a line becomes, if any. */
  type Backend = Text -> Option<Row>

  function RowsOf(backend: Backend, line: Text): seq<Row> {
    match backend(line)
    case Some(row) => [row]
    case None => []
  }

  function RowsOn(placed: seq<Placed>, backend: Backend, s: u32): seq<Row> {
    FlatMap(placed, (p: Placed) => if p.shard == s then RowsOf(backend, p.line) else [])
  }

  /** The one database: every accepted row, in order of arrival. */
  function AllRows(placed: seq<Placed>, backend: Backend): seq<Row> {
    FlatMap(placed, (p: Placed) => RowsOf(backend, p.line))
  }

  /**
   A query: its WHERE clause, the other tokens of the statement, and the bound parameters.
   `garbled` is whatever the shard makes of the statement when inlining changes it otherwise.
   */
  datatype Query = Query(table: Text, where_: Expr, rest: seq<Text>, params: seq<Text>, garbled: Expr, env: Env)

  /** The query as its client means it: with the parameters bound. */
  predicate Selects(q: Query, row: Row) {
    EqIgnoreCase(row.table, q.table) && Eval(Bind(q.where_, q.params), row, q.env) == True
  }

  /** Inlining the parameters leaves every token of the statement as it should be. */
  ghost predicate InlinesCleanly(q: Query) {
    Intact(q.where_, q.params) && Inline.AllIntact(q.rest, q.params)
  }

  /** The rows a single shard answers with, to the text it is sent. */
  ghost function Answer(q: Query, rows: seq<Row>): seq<Row> {
    var clause := if InlinesCleanly(q) then Bind(q.where_, q.params) else q.garbled;
    FlatMap(rows, (row: Row) =>
      if EqIgnoreCase(row.table, q.table) && Eval(clause, row, q.env) == True then [row] else [])
  }

  function Select(q: Query, rows: seq<Row>): seq<Row> {
    FlatMap(rows, (row: Row) => if Selects(q, row) then [row] else [])
  }

  // ---------------------------------------------------------------------------
  // Hypotheses
  // ---------------------------------------------------------------------------

  function TableOf(line: Text): Text {
    match Measurement(line) case Some(m) => m case None => []
  }

  /** One line: a newline only at the end, if at all. */
  predicate SingleLine(line: Text) {
    NEWLINE !in StripNewline(line)
  }

  /** No backslash before the field section, so neither measurement nor tag is escaped. */
  predicate EscapeFree(line: Text) {
    match TagSection(FirstLine(line))
    case Some(section) => BACKSLASH !in BeforeByte(COMMA, FirstLine(line)) && BACKSLASH !in section
    case None => BACKSLASH !in BeforeByte(SPACE, FirstLine(line))
  }

  /**
   The line has no tags and its second field bears the key's name: the scanner looks behind
   the first comma and takes that field for a tag, quotes and all.
   */
  predicate FieldTakenForTag(line: Text, keyColumn: Text) {
    && SPACE in BeforeByte(COMMA, FirstLine(line))
    && TagSection(FirstLine(line)).Some?
    && FirstTagValue(Split(COMMA, TagSection(FirstLine(line)).value), keyColumn).Some?
  }

  predicate PlainLine(line: Text, keyColumn: Text) {
    SingleLine(line) && EscapeFree(line) && !FieldTakenForTag(line, keyColumn)
  }

  /** The shard-key column of a stored line: the tag of that name, NULL when there is none. */
  function KeyColumn(line: Text, keyColumn: Text, floats: Text -> Option<real>): Datum {
    match ParseRow(line, floats)
    case None => DNull
    case Some(row) =>
      match RowTag(row.tags, keyColumn)
      case Some(v) => DText(v)
      case None => DNull
  }

  /** The shards' side: a plain line is stored under its measurement, its key tag as the column of that name. */
  ghost predicate StoresTags(backend: Backend, keyColumn: Text, floats: Text -> Option<real>) {
    forall line: Text :: PlainLine(line, keyColumn) && backend(line).Some? ==>
      && EqIgnoreCase(backend(line).value.table, TableOf(line))
      && backend(line).value.Column(keyColumn) == KeyColumn(line, keyColumn, floats)
  }

  /** The clients' side: the lines that become rows of `table` are plain. Other tables are free. */
  ghost predicate CleanWrites(events: seq<Event>, table: Text, backend: Backend, keyColumn: Text) {
    forall e :: e in events && e.Write? && backend(e.line).Some? && EqIgnoreCase(backend(e.line).value.table, table) ==>
      PlainLine(e.line, keyColumn)
  }

  /** The table has no shard-key override, which the write path honours and SQL planning ignores. */
  predicate NoOverride(registry: TableRegistry, table: Text) {
    Lower(table) in registry ==> registry[Lower(table)].shardKey.None?
  }

  /**
   The query pins the shard key with a string literal or a bound parameter, it reaches the
   shard as meant, and the write path uses the same key.
   */
  ghost predicate Keyed(q: Query, initial: Snapshot, defaultKey: Text) {
    && !Occurs(REPLACEMENT, defaultKey)
    && NoOverride(initial.registry, q.table)
    && MatchedComparand(q.where_, defaultKey).Some?
    && Faithful(MatchedComparand(q.where_, defaultKey).value, q.params)
    && InlinesCleanly(q)
  }

  /** The key a query is routed by. */
  function QueryKey(q: Query, defaultKey: Text): Text {
    RouteKey(KeyFromWhere(q.where_, defaultKey), q.table, Some(q.params))
  }

  /** The snapshot a router starts with: valid, every shard healthy. */
  ghost predicate Fresh(initial: Snapshot) {
    initial.Valid() && forall id :: id in initial.health ==> initial.health[id] == HEALTHY_ALL
  }

  // ---------------------------------------------------------------------------
  // What a run keeps
  // ---------------------------------------------------------------------------

  /** The snapshot after some events: a matter of the health reports alone. */
  function SnapAt(initial: Snapshot, events: seq<Event>): Snapshot {
    FoldReports(initial, Reports(events))
  }

  lemma {:induction false} RunSnapshot(initial: Snapshot, defaultKey: Text, events: seq<Event>)
    ensures Run(initial, defaultKey, events).snap == SnapAt(initial, events)
  {
    if events != [] {
      var front, last := events[..|events| - 1], Last(events);
      RunSnapshot(initial, defaultKey, front);
      var f := (e: Event) => if e.Health? then [e.report] else [];
      FlatMapSnoc(events, |events| - 1, f);
      assert events[..|events|] == events;
      if last.Health? {
        assert Reports(events)[..|Reports(events)| - 1] == Reports(front);
      } else {
        assert Reports(events) == Reports(front);
      }
    }
  }

  /** The registry and the ring never change, so a line's key is the same throughout a run. */
  lemma {:induction false} SnapKeepsRing(initial: Snapshot, events: seq<Event>)
    requires Fresh(initial)
    ensures var snap := SnapAt(initial, events);
            snap.Valid() && snap == initial.(health := snap.health)
  {
    HealthIsLastReport(initial, Reports(events));
  }

  predicate RoutesTo(route: Route, p: Placed) {
    route(p.line).Ok? && route(p.line).value.id == p.shard
  }

  /** The `i`-th event is a write that is accepted on shard `p.shard`, under the snapshot of that moment. */
  ghost predicate AcceptedAt(initial: Snapshot, defaultKey: Text, events: seq<Event>, i: nat, p: Placed) {
    && i < |events| && events[i] == Write(p.line) && !Blank(p.line)
    && RoutesTo(Router(SnapAt(initial, events[..i]), defaultKey), p)
  }

  lemma {:induction false} RunPlaces(initial: Snapshot, defaultKey: Text, events: seq<Event>)
    requires events != []
    ensures var front := events[..|events| - 1];
            Run(initial, defaultKey, events).placed ==
            Run(initial, defaultKey, front).placed + PlacedBy(Router(SnapAt(initial, front), defaultKey), Last(events))
  {
    RunSnapshot(initial, defaultKey, events[..|events| - 1]);
  }

  /** Everything each event adds, given the events up to it. */
  function Gather(events: seq<Event>, adds: seq<Event> -> seq<Placed>): seq<Placed> {
    if events == [] then [] else Gather(events[..|events| - 1], adds) + adds(events)
  }

  lemma {:induction false} GatheredAt(events: seq<Event>, adds: seq<Event> -> seq<Placed>, p: Placed) returns (i: nat)
    requires p in Gather(events, adds)
    ensures i < |events| && p in adds(events[..i + 1])
  {
    var n := |events| - 1;
    if p in adds(events) {
      i := n;
      assert events[..n + 1] == events;
    } else {
      i := GatheredAt(events[..n], adds, p);
      assert events[..n][..i + 1] == events[..i + 1];
    }
  }

  lemma {:induction false} AddedIsGathered(events: seq<Event>, adds: seq<Event> -> seq<Placed>, i: nat, p: Placed)
    requires i < |events| && p in adds(events[..i + 1])
    ensures p in Gather(events, adds)
  {
    var n := |events| - 1;
    if i == n {
      assert events[..n + 1] == events;
    } else {
      assert events[..n][..i + 1] == events[..i + 1];
      AddedIsGathered(events[..n], adds, i, p);
    }
  }

  /** What the last of some events places. */
  function LastPlaces(initial: Snapshot, defaultKey: Text): seq<Event> -> seq<Placed> {
    (events: seq<Event>) =>
      if events == [] then [] else PlacedBy(Router(SnapAt(initial, events[..|events| - 1]), defaultKey), Last(events))
  }

  lemma {:induction false} RunGathers(initial: Snapshot, defaultKey: Text, events: seq<Event>)
    ensures Run(initial, defaultKey, events).placed == Gather(events, LastPlaces(initial, defaultKey))
  {
    if events != [] {
      RunGathers(initial, defaultKey, events[..|events| - 1]);
      RunPlaces(initial, defaultKey, events);
    }
  }

  lemma {:induction false} PlacedByMeans(route: Route, e: Event, p: Placed)
    ensures p in PlacedBy(route, e) <==> e == Write(p.line) && !Blank(p.line) && RoutesTo(route, p)
  {}

  lemma {:induction false} LastPlacesIs(initial: Snapshot, defaultKey: Text, events: seq<Event>, i: nat)
    requires i < |events|
    ensures LastPlaces(initial, defaultKey)(events[..i + 1]) ==
            PlacedBy(Router(SnapAt(initial, events[..i]), defaultKey), events[i])
  {
    var prefix := events[..i + 1];
    assert prefix[..i] == events[..i] && Last(prefix) == events[i];
  }

  lemma {:induction false} AcceptedMeans(initial: Snapshot, defaultKey: Text, events: seq<Event>, i: nat, p: Placed)
    requires i < |events|
    ensures p in LastPlaces(initial, defaultKey)(events[..i + 1]) <==> AcceptedAt(initial, defaultKey, events, i, p)
  {
    LastPlacesIs(initial, defaultKey, events, i);
    PlacedByMeans(Router(SnapAt(initial, events[..i]), defaultKey), events[i], p);
  }

  lemma {:induction false} PlacedWasAccepted(
      initial: Snapshot, defaultKey: Text, events: seq<Event>, p: Placed)
    returns (i: nat)
    requires p in Run(initial, defaultKey, events).placed
    ensures AcceptedAt(initial, defaultKey, events, i, p)
  {
    RunGathers(initial, defaultKey, events);
    i := GatheredAt(events, LastPlaces(initial, defaultKey), p);
    AcceptedMeans(initial, defaultKey, events, i, p);
  }

  lemma {:induction false} AcceptedIsPlaced(initial: Snapshot, defaultKey: Text, events: seq<Event>, i: nat, p: Placed)
    requires AcceptedAt(initial, defaultKey, events, i, p)
    ensures p in Run(initial, defaultKey, events).placed
  {
    AcceptedMeans(initial, defaultKey, events, i, p);
    AddedIsGathered(events, LastPlaces(initial, defaultKey), i, p);
    RunGathers(initial, defaultKey, events);
  }

  // ---------------------------------------------------------------------------
  // Runs and the forwarder
  // ---------------------------------------------------------------------------

  /** The writes of a run as the forwarder sees them, each with the snapshot of its moment. */
  function JobsOf(initial: Snapshot, defaultKey: Text, events: seq<Event>): seq<Job> {
    if events == [] then []
    else
      var front, last := events[..|events| - 1], Last(events);
      JobsOf(initial, defaultKey, front) +
      if last.Write? then [Job(last.line, Router(SnapAt(initial, front), defaultKey))] else []
  }

  /** The lines of a run that are placed on shard `s`. */
  function LinesOn(placed: seq<Placed>, s: u32): seq<Text> {
    if placed == [] then []
    else (if placed[0].shard == s then [placed[0].line] else []) + LinesOn(placed[1..], s)
  }

  lemma {:induction false} LinesOnSnoc(placed: seq<Placed>, p: Placed, s: u32)
    ensures LinesOn(placed + [p], s) == LinesOn(placed, s) + if p.shard == s then [p.line] else []
  {
    if placed == [] {
      assert placed + [p] == [p] && [p][1..] == [];
      assert LinesOn([p][1..], s) == [];
    } else {
      LinesOnSnoc(placed[1..], p, s);
      assert (placed + [p])[1..] == placed[1..] + [p];
    }
  }

  lemma {:induction false} LinesToSnoc(jobs: seq<Job>, job: Job, s: u32)
    ensures LinesTo(jobs + [job], s) == LinesTo(jobs, s) + if Forward.SentTo(job, s) then [job.line] else []
  {
    if jobs == [] {
      assert jobs + [job] == [job] && [job][1..] == [];
      assert LinesTo([job][1..], s) == [];
    } else {
      LinesToSnoc(jobs[1..], job, s);
      assert (jobs + [job])[1..] == jobs[1..] + [job];
    }
  }

  /** The lines a run places on a shard are those its writes route there. */
  lemma {:induction false} PlacedLines(initial: Snapshot, defaultKey: Text, events: seq<Event>, s: u32)
    ensures LinesTo(JobsOf(initial, defaultKey, events), s) == LinesOn(Run(initial, defaultKey, events).placed, s)
  {
    if events != [] {
      var front, last := events[..|events| - 1], Last(events);
      var route, jobs := Router(SnapAt(initial, front), defaultKey), JobsOf(initial, defaultKey, front);
      var placed := Run(initial, defaultKey, front).placed;
      PlacedLines(initial, defaultKey, front, s);
      RunPlaces(initial, defaultKey, events);
      PlacesWhereItGoes(route, last, placed, jobs, s);
      assert jobs + [] == jobs;
    }
  }

  lemma {:induction false} PlacesWhereItGoes(route: Route, e: Event, placed: seq<Placed>, jobs: seq<Job>, s: u32)
    requires LinesTo(jobs, s) == LinesOn(placed, s)
    ensures LinesTo(jobs + (if e.Write? then [Job(e.line, route)] else []), s) ==
            LinesOn(placed + PlacedBy(route, e), s)
  {
    assert jobs + [] == jobs && placed + [] == placed;
    if e.Write? {
      LinesToSnoc(jobs, Job(e.line, route), s);
      if PlacedBy(route, e) != [] {
        LinesOnSnoc(placed, PlacedBy(route, e)[0], s);
        assert PlacedBy(route, e) == [PlacedBy(route, e)[0]];
      }
    }
  }

  /**
   A client whose bytes, in any chunks, are the writes of a run, each meeting the snapshot of
   its moment: on a normal end every shard has received exactly the lines the run places on it,
   one after the other and unchanged; on a failure, an initial part of them.
   */
  method ServeRun(initial: Snapshot, defaultKey: Text, events: seq<Event>, chunks: seq<Text>, routing: Routing)
    returns (f: IlpForwarder, r: Outcome)
    requires JobsIn(Concat(chunks), routing, 0) == JobsOf(initial, defaultKey, events)
    ensures r.Done? ==> forall s: u32 :: f.Written(s) == Concat(LinesOn(Run(initial, defaultKey, events).placed, s))
    ensures forall s: u32 :: f.Written(s) <= Concat(LinesOn(Run(initial, defaultKey, events).placed, s))
  {
    f, r := HandleConnection(chunks, routing);
    forall s: u32
      ensures LinesTo(JobsOf(initial, defaultKey, events), s) == LinesOn(Run(initial, defaultKey, events).placed, s)
    {
      PlacedLines(initial, defaultKey, events, s);
    }
  }

  // ---------------------------------------------------------------------------
  // Keyed reads
  // ---------------------------------------------------------------------------

  /** A row the query selects was written under the key the query is routed by. */
  lemma {:induction false} SelectedRowHasKey(
      initial: Snapshot, snap: Snapshot, defaultKey: Text, line: Text, q: Query, backend: Backend,
      floats: Text -> Option<real>)
    requires Keyed(q, initial, defaultKey) && snap.registry == initial.registry
    requires backend(line).Some? && Selects(q, backend(line).value)
    requires PlainLine(line, defaultKey) && StoresTags(backend, defaultKey, floats)
    ensures LineKey(snap, defaultKey, line) == QueryKey(q, defaultKey)
  {
    WhereSoundness(q.where_, defaultKey, q.table, q.params, backend(line).value, q.env);
    KeyAgreesWithRow(line, defaultKey, floats);
    assert Lower(TableOf(line)) == Lower(q.table);
  }

  function SelectedBy(q: Query, backend: Backend, p: Placed): bool {
    backend(p.line).Some? && Selects(q, backend(p.line).value)
  }

  /** A write whose row the query selects. */
  predicate SelectedWrite(q: Query, backend: Backend, e: Event) {
    e.Write? && !Blank(e.line) && backend(e.line).Some? && Selects(q, backend(e.line).value)
  }

  lemma {:induction false} SelectOne(q: Query, backend: Backend, p: Placed)
    ensures Select(q, RowsOf(backend, p.line)) ==
            if SelectedBy(q, backend, p) then [backend(p.line).value] else []
  {
    if backend(p.line).Some? {
      var row := backend(p.line).value;
      assert RowsOf(backend, p.line)[1..] == [];
      assert FlatMap([row][1..], (r: Row) => if Selects(q, r) then [r] else []) == [];
    }
  }

  lemma {:induction false} SelectAppend(q: Query, a: seq<Row>, b: seq<Row>)
    ensures Select(q, a + b) == Select(q, a) + Select(q, b)
  {
    FlatMapAppend(a, b, (row: Row) => if Selects(q, row) then [row] else []);
  }

  /** A statement that inlines cleanly is answered as it is meant. */
  lemma {:induction false} AnswersAsMeant(q: Query, rows: seq<Row>)
    requires InlinesCleanly(q)
    ensures Answer(q, rows) == Select(q, rows)
  {
    if rows != [] {
      AnswersAsMeant(q, rows[1..]);
    }
  }

  /** One shard answers like the one database exactly when it holds every selected row; it never answers more. */
  lemma {:induction false} CompleteIff(placed: seq<Placed>, backend: Backend, q: Query, s: u32)
    ensures Select(q, RowsOn(placed, backend, s)) == Select(q, AllRows(placed, backend)) <==>
            forall p :: p in placed && SelectedBy(q, backend, p) ==> p.shard == s
    ensures |Select(q, RowsOn(placed, backend, s))| <= |Select(q, AllRows(placed, backend))|
    ensures |Select(q, RowsOn(placed, backend, s))| == |Select(q, AllRows(placed, backend))| ==>
            forall p :: p in placed && SelectedBy(q, backend, p) ==> p.shard == s
  {
    if placed != [] {
      var p, rest := placed[0], placed[1..];
      CompleteIff(rest, backend, q, s);
      SelectOne(q, backend, p);
      SelectAppend(q, RowsOf(backend, p.line), AllRows(rest, backend));
      SelectAppend(q, if p.shard == s then RowsOf(backend, p.line) else [], RowsOn(rest, backend, s));
    }
  }

  /** Where key `k` went when it was written: every selected write that was accepted went to shard `s`. */
  ghost predicate WrittenTo(initial: Snapshot, events: seq<Event>, q: Query, backend: Backend, key: Text, s: u32) {
    forall i :: 0 <= i < |events| && SelectedWrite(q, backend, events[i]) ==>
      GoesTo(SnapAt(initial, events[..i]), key, s)
  }

  /** Under this snapshot an ILP write of the key goes to shard `s`, or is refused. */
  predicate GoesTo(snap: Snapshot, key: Text, s: u32) {
    var routed := snap.ShardForKey(key, Ilp);
    routed.Ok? ==> routed.value.id == s
  }

  /**
   Among the placed rows the query selects, all are on `s` exactly when the key went to `s` at each
   of their writes.
   */
  lemma {:induction false} PlacedOnIff(
      initial: Snapshot, defaultKey: Text, events: seq<Event>, q: Query, backend: Backend, floats: Text -> Option<real>,
      s: u32)
    requires Fresh(initial) && Keyed(q, initial, defaultKey)
    requires StoresTags(backend, defaultKey, floats) && CleanWrites(events, q.table, backend, defaultKey)
    ensures (forall p :: p in Run(initial, defaultKey, events).placed && SelectedBy(q, backend, p) ==>
            p.shard == s) <==>
            WrittenTo(initial, events, q, backend, QueryKey(q, defaultKey), s)
  {
    var key, placed := QueryKey(q, defaultKey), Run(initial, defaultKey, events).placed;
    if WrittenTo(initial, events, q, backend, key, s) {
      forall p | p in placed && SelectedBy(q, backend, p)
        ensures p.shard == s
      {
        var i := PlacedWasAccepted(initial, defaultKey, events, p);
        WhereAccepted(initial, defaultKey, events, q, backend, floats, i, p);
      }
    }
    if forall p :: p in placed && SelectedBy(q, backend, p) ==> p.shard == s {
      forall i | 0 <= i < |events| && SelectedWrite(q, backend, events[i])
        ensures GoesTo(SnapAt(initial, events[..i]), key, s)
      {
        var routed := SnapAt(initial, events[..i]).ShardForKey(key, Ilp);
        if routed.Ok? {
          var p := Placed(routed.value.id, events[i].line);
          WhereAccepted(initial, defaultKey, events, q, backend, floats, i, p);
          AcceptedIsPlaced(initial, defaultKey, events, i, p);
        }
      }
    }
  }

  /** A selected write is accepted where its key is routed to. */
  lemma {:induction false} WhereAccepted(
      initial: Snapshot, defaultKey: Text, events: seq<Event>, q: Query, backend: Backend, floats: Text -> Option<real>,
      i: nat, p: Placed)
    requires Fresh(initial) && Keyed(q, initial, defaultKey)
    requires StoresTags(backend, defaultKey, floats) && CleanWrites(events, q.table, backend, defaultKey)
    requires i < |events| && SelectedWrite(q, backend, events[i]) && events[i].line == p.line
    ensures var routed := SnapAt(initial, events[..i]).ShardForKey(QueryKey(q, defaultKey), Ilp);
            AcceptedAt(initial, defaultKey, events, i, p) <==> routed.Ok? && routed.value.id == p.shard
  {
    KeyAtWrite(initial, defaultKey, events, q, backend, floats, i);
  }

  lemma {:induction false} KeyAtWrite(
      initial: Snapshot, defaultKey: Text, events: seq<Event>, q: Query, backend: Backend, floats: Text -> Option<real>,
      i: nat)
    requires Fresh(initial) && Keyed(q, initial, defaultKey)
    requires StoresTags(backend, defaultKey, floats) && CleanWrites(events, q.table, backend, defaultKey)
    requires i < |events| && SelectedWrite(q, backend, events[i])
    ensures var snap := SnapAt(initial, events[..i]);
            Router(snap, defaultKey)(events[i].line) == snap.ShardForKey(QueryKey(q, defaultKey), Ilp)
  {
    SnapKeepsRing(initial, events[..i]);
    SelectedRowHasKey(initial, SnapAt(initial, events[..i]), defaultKey, events[i].line, q, backend, floats);
  }

  /**
   End-to-end read completeness, exactly. In any run of ILP writes and health reports, the
   keyed read that is routed to shard `s` returns what one database holding every accepted
   row would return, in the same order, if and only if at each write of a selected row the
   key was routed to `s` too (or the write was refused). Nothing else about the health of any
   shard at any time matters.
   */
  lemma {:induction false} ReadCompleteIff(initial: Snapshot, defaultKey: Text, events: seq<Event>, q: Query,
                                           backend: Backend, floats: Text -> Option<real>)
    requires Fresh(initial) && Keyed(q, initial, defaultKey)
    requires StoresTags(backend, defaultKey, floats) && CleanWrites(events, q.table, backend, defaultKey)
    ensures var key, placed := QueryKey(q, defaultKey), Run(initial, defaultKey, events).placed;
            var route := SnapAt(initial, events).ShardForKey(key, Pg);
            route.Ok? ==>
              (Answer(q, RowsOn(placed, backend, route.value.id)) == Select(q, AllRows(placed, backend)) <==>
               WrittenTo(initial, events, q, backend, key, route.value.id))
  {
    var route := SnapAt(initial, events).ShardForKey(QueryKey(q, defaultKey), Pg);
    if route.Ok? {
      PlacedOnIff(initial, defaultKey, events, q, backend, floats, route.value.id);
      CompleteIff(Run(initial, defaultKey, events).placed, backend, q, route.value.id);
      AnswersAsMeant(q, RowsOn(Run(initial, defaultKey, events).placed, backend, route.value.id));
    }
  }

  /** The key's primary is up on ILP whenever a selected row is written, and on PG when it is read. */
  ghost predicate PrimaryUp(initial: Snapshot, events: seq<Event>, q: Query, backend: Backend, key: Text) {
    && initial.ring.ShardByKey(key).Some?
    && var id := initial.ring.ShardByKey(key).value.id;
    && !SnapAt(initial, events).IsExcluded(id, Pg)
    && forall i :: 0 <= i < |events| && SelectedWrite(q, backend, events[i]) ==>
      !SnapAt(initial, events[..i]).IsExcluded(id, Ilp)
  }

  /** A key whose primary is not excluded is routed to it or not at all. */
  lemma {:induction false} RoutedToPrimary(initial: Snapshot, events: seq<Event>, key: Text, protocol: Protocol)
    requires Fresh(initial) && initial.ring.ShardByKey(key).Some?
    requires !SnapAt(initial, events).IsExcluded(initial.ring.ShardByKey(key).value.id, protocol)
    ensures var routed := SnapAt(initial, events).ShardForKey(key, protocol);
            routed.Ok? ==> Some(routed.value) == initial.ring.ShardByKey(key)
  {
    SnapKeepsRing(initial, events);
    PrimaryWins(initial.ring, key, SnapAt(initial, events).Exclusion(protocol));
  }

  /** So a single-shard read is complete while the key's primary is up at those moments, whatever else happens. */
  lemma {:induction false} ReadCompleteness(initial: Snapshot, defaultKey: Text, events: seq<Event>, q: Query,
                                            backend: Backend, floats: Text -> Option<real>)
    requires Fresh(initial) && Keyed(q, initial, defaultKey)
    requires StoresTags(backend, defaultKey, floats) && CleanWrites(events, q.table, backend, defaultKey)
    requires PrimaryUp(initial, events, q, backend, QueryKey(q, defaultKey))
    ensures var key, placed := QueryKey(q, defaultKey), Run(initial, defaultKey, events).placed;
            var route := SnapAt(initial, events).ShardForKey(key, Pg);
            route.Ok? ==>
              && WrittenTo(initial, events, q, backend, key, route.value.id)
              && Answer(q, RowsOn(placed, backend, route.value.id)) == Select(q, AllRows(placed, backend))
  {
    var key := QueryKey(q, defaultKey);
    RoutedToPrimary(initial, events, key, Pg);
    forall i | 0 <= i < |events| && SelectedWrite(q, backend, events[i])
      ensures GoesTo(SnapAt(initial, events[..i]), key, initial.ring.ShardByKey(key).value.id)
    {
      RoutedToPrimary(initial, events[..i], key, Ilp);
    }
    ReadCompleteIff(initial, defaultKey, events, q, backend, floats);
  }

  /** Every report about `id` says it is healthy on both protocols. */
  predicate StaysHealthy(events: seq<Event>, id: u32) {
    forall e :: e in events && e.Health? && e.report.shardId == id ==> e.report.health == HEALTHY_ALL
  }

  lemma {:induction false} LastReportHealthy(reports: seq<Report>, id: u32)
    requires forall r :: r in reports && r.shardId == id ==> r.health == HEALTHY_ALL
    ensures LastReport(reports, id) == HEALTHY_ALL
  {
    if reports != [] && Last(reports).shardId != id {
      LastReportHealthy(reports[..|reports| - 1], id);
    }
  }

  lemma {:induction false} ReportsOf(events: seq<Event>, r: Report)
    requires r in Reports(events)
    ensures Health(r) in events
  {
    if !(events[0].Health? && events[0].report == r) {
      ReportsOf(events[1..], r);
    }
  }

  /** A shard that stays healthy is never excluded, on either protocol. */
  lemma {:induction false} HealthyIsNeverExcluded(initial: Snapshot, events: seq<Event>, id: u32, protocol: Protocol)
    requires Fresh(initial) && StaysHealthy(events, id)
    ensures !SnapAt(initial, events).IsExcluded(id, protocol)
  {
    HealthIsLastReport(initial, Reports(events));
    forall r | r in Reports(events) && r.shardId == id
      ensures r.health == HEALTHY_ALL
    {
      ReportsOf(events, r);
    }
    LastReportHealthy(Reports(events), id);
    assert HealthOf(SnapAt(initial, events), id) == HEALTHY_ALL;
  }

  /** In particular a primary that stays healthy throughout the run is up whenever it matters. */
  lemma {:induction false} StaysHealthyIsUp(
      initial: Snapshot, events: seq<Event>, q: Query, backend: Backend, key: Text)
    requires Fresh(initial) && initial.ring.ShardByKey(key).Some?
    requires StaysHealthy(events, initial.ring.ShardByKey(key).value.id)
    ensures PrimaryUp(initial, events, q, backend, key)
  {
    var id := initial.ring.ShardByKey(key).value.id;
    HealthyIsNeverExcluded(initial, events, id, Pg);
    forall i | 0 <= i < |events| && SelectedWrite(q, backend, events[i])
      ensures !SnapAt(initial, events[..i]).IsExcluded(id, Ilp)
    {
      HealthyIsNeverExcluded(initial, events[..i], id, Ilp);
    }
  }

  // ---------------------------------------------------------------------------
  // Fanned-out reads
  // ---------------------------------------------------------------------------

  function Union(placed: seq<Placed>, backend: Backend, ids: seq<u32>): multiset<Row> {
    if ids == [] then multiset{}
    else multiset(RowsOn(placed, backend, ids[0])) + Union(placed, backend, ids[1..])
  }

  predicate Distinct(ids: seq<u32>) {
    ids == [] || (ids[0] !in ids[1..] && Distinct(ids[1..]))
  }

  lemma {:induction false} RowsOnCons(p: Placed, rest: seq<Placed>, backend: Backend, s: u32)
    ensures RowsOn([p] + rest, backend, s) ==
            (if p.shard == s then RowsOf(backend, p.line) else []) + RowsOn(rest, backend, s)
  {
    assert ([p] + rest)[1..] == rest;
  }

  lemma {:induction false} UnionCons(p: Placed, rest: seq<Placed>, backend: Backend, ids: seq<u32>)
    requires Distinct(ids)
    ensures Union([p] + rest, backend, ids) ==
            Union(rest, backend, ids) + (if p.shard in ids then multiset(RowsOf(backend, p.line)) else multiset{})
  {
    if ids != [] {
      UnionCons(p, rest, backend, ids[1..]);
      RowsOnCons(p, rest, backend, ids[0]);
    }
  }

  lemma {:induction false} UnionOfNothing(backend: Backend, ids: seq<u32>)
    ensures Union([], backend, ids) == multiset{}
  {
    if ids != [] {
      UnionOfNothing(backend, ids[1..]);
      assert RowsOn([], backend, ids[0]) == [];
    }
  }

  lemma {:induction false} GrowsUnless(u: multiset<Row>, m: multiset<Row>, row: multiset<Row>)
    requires u <= m
    ensures u <= m + row && u + row <= m + row
    ensures u == m + row <==> u == m && row == multiset{}
    ensures u + row == m + row <==> u == m
  {
    assert |u| <= |m| by {
      assert m == u + (m - u);
    }
    if u + row == m + row {
      assert (u + row) - row == u && (m + row) - row == m;
    }
    if row != multiset{} {
      assert |row| > 0 && |m + row| == |m| + |row|;
    }
  }

  /** Every stored row that shards in `among` hold is on a shard in `ids`. */
  ghost predicate Covered(placed: seq<Placed>, backend: Backend, among: u32 -> bool, ids: seq<u32>) {
    forall p :: p in placed && backend(p.line).Some? && among(p.shard) ==> p.shard in ids
  }

  lemma {:induction false} CoveredCons(
      p: Placed, rest: seq<Placed>, backend: Backend, among: u32 -> bool, ids: seq<u32>)
    ensures Covered([p] + rest, backend, among, ids) <==>
            (backend(p.line).Some? && among(p.shard) ==> p.shard in ids) && Covered(rest, backend, among, ids)
  {
    assert p in [p] + rest;
    assert forall x :: x in [p] + rest <==> x == p || x in rest;
  }

  lemma {:induction false} AllRowsCons(p: Placed, rest: seq<Placed>, backend: Backend)
    ensures multiset(AllRows([p] + rest, backend)) ==
            multiset(AllRows(rest, backend)) + multiset(RowsOf(backend, p.line))
  {
    assert ([p] + rest)[1..] == rest;
    assert AllRows([p] + rest, backend) == RowsOf(backend, p.line) + AllRows(rest, backend);
  }

  /** Asking the shards in `ids` finds every stored row exactly when every row's shard is asked; it never finds more. */
  lemma {:induction false} UnionCompleteIff(placed: seq<Placed>, backend: Backend, ids: seq<u32>)
    requires Distinct(ids)
    ensures Union(placed, backend, ids) <= multiset(AllRows(placed, backend))
    ensures Union(placed, backend, ids) == multiset(AllRows(placed, backend)) <==>
            Covered(placed, backend, _ => true, ids)
  {
    if placed == [] {
      UnionOfNothing(backend, ids);
    } else {
      var p, rest := placed[0], placed[1..];
      var row, rows := RowsOf(backend, p.line), AllRows(rest, backend);
      assert placed == [p] + rest;
      UnionCompleteIff(rest, backend, ids);
      UnionCons(p, rest, backend, ids);
      CoveredCons(p, rest, backend, _ => true, ids);
      AllRowsCons(p, rest, backend);
      GrowsUnless(Union(rest, backend, ids), multiset(rows), multiset(row));
    }
  }

  /** No accepted row is lost or stored twice: all shards together hold exactly the one database. */
  lemma {:induction false} UnionIsOneDatabase(placed: seq<Placed>, backend: Backend, ids: seq<u32>)
    requires Distinct(ids)
    requires forall p :: p in placed ==> p.shard in ids
    ensures Union(placed, backend, ids) == multiset(AllRows(placed, backend))
  {
    UnionCompleteIff(placed, backend, ids);
  }

  /** Asking fewer shards finds as much exactly when the others asked have nothing. */
  lemma {:induction false} UnionSameIff(placed: seq<Placed>, backend: Backend, few: seq<u32>, ids: seq<u32>)
    requires Distinct(few) && Distinct(ids) && forall id :: id in few ==> id in ids
    ensures Union(placed, backend, few) <= Union(placed, backend, ids)
    ensures Union(placed, backend, few) == Union(placed, backend, ids) <==>
            Covered(placed, backend, (id: u32) => id in ids, few)
  {
    if placed == [] {
      UnionOfNothing(backend, ids);
      UnionOfNothing(backend, few);
    } else {
      var p, rest := placed[0], placed[1..];
      assert placed == [p] + rest;
      UnionSameIff(rest, backend, few, ids);
      UnionCons(p, rest, backend, ids);
      UnionCons(p, rest, backend, few);
      CoveredCons(p, rest, backend, (id: u32) => id in ids, few);
      GrowsUnless(Union(rest, backend, few), Union(rest, backend, ids), multiset(RowsOf(backend, p.line)));
    }
  }

  /** Querying every shard in `ids` and putting the answers together. */
  function FanOut(placed: seq<Placed>, backend: Backend, q: Query, ids: seq<u32>): multiset<Row> {
    if ids == [] then multiset{}
    else multiset(Select(q, RowsOn(placed, backend, ids[0]))) + FanOut(placed, backend, q, ids[1..])
  }

  /** A backend that stores only what the query selects. */
  function Filtered(q: Query, backend: Backend): Backend {
    line => if backend(line).Some? && Selects(q, backend(line).value) then backend(line) else None
  }

  lemma {:induction false} SelectOnIsFiltered(placed: seq<Placed>, backend: Backend, q: Query, s: u32)
    ensures Select(q, RowsOn(placed, backend, s)) == RowsOn(placed, Filtered(q, backend), s)
    ensures Select(q, AllRows(placed, backend)) == AllRows(placed, Filtered(q, backend))
  {
    if placed != [] {
      var p, rest := placed[0], placed[1..];
      SelectOnIsFiltered(rest, backend, q, s);
      SelectOne(q, backend, p);
      SelectAppend(q, RowsOf(backend, p.line), AllRows(rest, backend));
      SelectAppend(q, if p.shard == s then RowsOf(backend, p.line) else [], RowsOn(rest, backend, s));
    }
  }

  lemma {:induction false} FanOutIsUnion(placed: seq<Placed>, backend: Backend, q: Query, ids: seq<u32>)
    ensures FanOut(placed, backend, q, ids) == Union(placed, Filtered(q, backend), ids)
  {
    if ids != [] {
      FanOutIsUnion(placed, backend, q, ids[1..]);
      SelectOnIsFiltered(placed, backend, q, ids[0]);
    }
  }

  /** A fan-out answers like the one database, up to order, exactly when every selected row's shard is asked. */
  lemma {:induction false} FanOutCompleteIff(placed: seq<Placed>, backend: Backend, q: Query, ids: seq<u32>)
    requires Distinct(ids)
    ensures FanOut(placed, backend, q, ids) == multiset(Select(q, AllRows(placed, backend))) <==>
            forall p :: p in placed && SelectedBy(q, backend, p) ==> p.shard in ids
  {
    FanOutIsUnion(placed, backend, q, ids);
    UnionCompleteIff(placed, Filtered(q, backend), ids);
    SelectOnIsFiltered(placed, backend, q, 0);
  }

  /** Configured shard ids are distinct. */
  predicate DistinctIds(shards: seq<ShardConfig>) {
    forall i, j :: 0 <= i < j < |shards| ==> shards[i].id != shards[j].id
  }

  lemma {:induction false} IdsWhereDistinct(shards: seq<ShardConfig>, keep: u32 -> bool)
    requires DistinctIds(shards)
    ensures Distinct(IdsWhere(shards, keep))
  {
    if shards != [] {
      assert DistinctIds(shards[1..]);
      IdsWhereDistinct(shards[1..], keep);
      var ids, rest := IdsWhere(shards, keep), IdsWhere(shards[1..], keep);
      assert forall i :: 0 <= i < |shards[1..]| ==> shards[1..][i] == shards[i + 1];
      assert !HasId(shards[1..], shards[0].id);
      if keep(shards[0].id) {
        assert ids[1..] == rest;
      }
    }
  }

  /**
   `query_all_shards`: a federated query is sent to the shards that are healthy on PG now.
   It answers like the one database if and only if every selected row was accepted on one of
   those; a row on a shard that takes ILP but not PG silently disappears.
   */
  lemma {:induction false} FullScanCompleteIff(
      initial: Snapshot, defaultKey: Text, events: seq<Event>, q: Query, backend: Backend)
    requires Fresh(initial) && DistinctIds(initial.ring.shards)
    ensures var placed, now := Run(initial, defaultKey, events).placed, SnapAt(initial, events);
            FanOut(placed, backend, q, now.HealthyShardIds(Pg)) == multiset(Select(q, AllRows(placed, backend))) <==>
            forall i :: 0 <= i < |events| && SelectedWrite(q, backend, events[i]) ==>
              AnswersFor(SnapAt(initial, events[..i]), defaultKey, events[i].line, now)
  {
    var placed, now := Run(initial, defaultKey, events).placed, SnapAt(initial, events);
    var ids := now.HealthyShardIds(Pg);
    SnapKeepsRing(initial, events);
    IdsWhereDistinct(now.ring.shards, (id: u32) => now.IsHealthy(id, Pg));
    FanOutCompleteIff(placed, backend, q, ids);
    if forall i :: 0 <= i < |events| && SelectedWrite(q, backend, events[i]) ==>
         AnswersFor(SnapAt(initial, events[..i]), defaultKey, events[i].line, now) {
      forall p | p in placed && SelectedBy(q, backend, p)
        ensures p.shard in ids
      {
        var i := PlacedWasAccepted(initial, defaultKey, events, p);
        assert SelectedWrite(q, backend, events[i]);
        AskedIff(initial, defaultKey, events, i, p);
      }
    }
    if forall p :: p in placed && SelectedBy(q, backend, p) ==> p.shard in ids {
      forall i | 0 <= i < |events| && SelectedWrite(q, backend, events[i])
        ensures AnswersFor(SnapAt(initial, events[..i]), defaultKey, events[i].line, now)
      {
        var routed := RouteLine(SnapAt(initial, events[..i]), defaultKey, events[i].line);
        if routed.Ok? {
          var p := Placed(routed.value.id, events[i].line);
          AcceptedIsPlaced(initial, defaultKey, events, i, p);
          AskedIff(initial, defaultKey, events, i, p);
        }
      }
    }
  }

  /** The shard a line went to under `snap`, if any, is healthy on PG under `now`. */
  predicate AnswersFor(snap: Snapshot, defaultKey: Text, line: Text, now: Snapshot) {
    var routed := RouteLine(snap, defaultKey, line);
    routed.Ok? ==> now.IsHealthy(routed.value.id, Pg)
  }

  /** An accepted row's shard is asked exactly when it is healthy on PG now. */
  lemma {:induction false} AskedIff(initial: Snapshot, defaultKey: Text, events: seq<Event>, i: nat, p: Placed)
    requires Fresh(initial) && AcceptedAt(initial, defaultKey, events, i, p)
    ensures var now := SnapAt(initial, events);
            p.shard in now.HealthyShardIds(Pg) <==> now.IsHealthy(p.shard, Pg)
  {
    var snap := SnapAt(initial, events[..i]);
    SnapKeepsRing(initial, events);
    SnapKeepsRing(initial, events[..i]);
    RoutedAmongHealthy(snap, LineKey(snap, defaultKey, p.line), Ilp);
  }

  /**
   The keyed read of one shard against the same read fanned out: equal if and only if every
   selected row that a healthy PG shard holds is on the routed shard.
   */
  lemma {:induction false} SingleShardEqualsFanOutIff(
      placed: seq<Placed>, backend: Backend, q: Query, s: u32, ids: seq<u32>)
    requires Distinct(ids) && s in ids
    ensures multiset(Select(q, RowsOn(placed, backend, s))) == FanOut(placed, backend, q, ids) <==>
            forall p :: p in placed && SelectedBy(q, backend, p) && p.shard in ids ==> p.shard == s
  {
    var stored := Filtered(q, backend);
    FanOutIsUnion(placed, backend, q, ids);
    SelectOnIsFiltered(placed, backend, q, s);
    UnionSameIff(placed, stored, [s], ids);
    UnionOfOne(placed, stored, s);
    CoveredByOne(placed, backend, q, s, ids);
  }

  lemma {:induction false} UnionOfOne(placed: seq<Placed>, backend: Backend, s: u32)
    ensures Union(placed, backend, [s]) == multiset(RowsOn(placed, backend, s))
  {
    assert [s][1..] == [];
  }

  lemma {:induction false} CoveredByOne(placed: seq<Placed>, backend: Backend, q: Query, s: u32, ids: seq<u32>)
    ensures Covered(placed, Filtered(q, backend), (id: u32) => id in ids, [s]) <==>
            forall p :: p in placed && SelectedBy(q, backend, p) && p.shard in ids ==> p.shard == s
  {
    assert forall id: u32 :: id in [s] <==> id == s;
    assert forall p: Placed :: Filtered(q, backend)(p.line).Some? <==> SelectedBy(q, backend, p);
  }

  /**
   While the key's primary is up whenever it matters, one shard answers like the whole fan-out and
   like the one database.
   */
  lemma {:induction false} SingleShardEqualsFanOut(initial: Snapshot, defaultKey: Text, events: seq<Event>, q: Query,
                                                   backend: Backend, floats: Text -> Option<real>)
    requires Fresh(initial) && DistinctIds(initial.ring.shards) && Keyed(q, initial, defaultKey)
    requires StoresTags(backend, defaultKey, floats) && CleanWrites(events, q.table, backend, defaultKey)
    requires PrimaryUp(initial, events, q, backend, QueryKey(q, defaultKey))
    ensures var placed, now := Run(initial, defaultKey, events).placed, SnapAt(initial, events);
            var route := now.ShardForKey(QueryKey(q, defaultKey), Pg);
            route.Ok? ==>
              && multiset(Answer(q, RowsOn(placed, backend, route.value.id))) ==
                FanOut(placed, backend, q, now.HealthyShardIds(Pg))
              && FanOut(placed, backend, q, now.HealthyShardIds(Pg)) == multiset(Select(q, AllRows(placed, backend)))
  {
    var key, placed, now := QueryKey(q, defaultKey), Run(initial, defaultKey, events).placed, SnapAt(initial, events);
    var route := now.ShardForKey(key, Pg);
    if route.Ok? {
      SnapKeepsRing(initial, events);
      RoutedAmongHealthy(now, key, Pg);
      IdsWhereDistinct(now.ring.shards, (id: u32) => now.IsHealthy(id, Pg));
      ReadCompleteness(initial, defaultKey, events, q, backend, floats);
      PlacedOnIff(initial, defaultKey, events, q, backend, floats, route.value.id);
      SingleShardEqualsFanOutIff(placed, backend, q, route.value.id, now.HealthyShardIds(Pg));
      AnswersAsMeant(q, RowsOn(placed, backend, route.value.id));
    }
  }

  // ---------------------------------------------------------------------------
  // Where the promise ends
  // ---------------------------------------------------------------------------

  /** The configured shards besides one. */
  function Others(initial: Snapshot, id: u32): seq<u32> {
    IdsWhere(initial.ring.shards, (other: u32) => other != id)
  }

  /** Enough shards for routing to go on without shard `id`. */
  predicate EnoughWithout(initial: Snapshot, id: u32) {
    |Others(initial, id)| >= Max(1, initial.minHealthyShards)
  }

  /** With one shard reported down on a protocol, the healthy ids are the others. */
  lemma {:induction false} WithoutOne(initial: Snapshot, id: u32, health: ShardHealth, protocol: Protocol)
    requires Fresh(initial) && initial.excludeUnhealthy && !health.IsOkFor(protocol)
    requires id in initial.health
    ensures var snap := ApplyHealth(initial, Report(id, health));
            && snap.Valid() && snap == initial.(health := initial.health[id := health])
            && snap.HealthyShardIds(protocol) == Others(initial, id)
  {
    var snap := ApplyHealth(initial, Report(id, health));
    forall other: u32 | HasId(initial.ring.shards, other)
      ensures snap.IsHealthy(other, protocol) == (other != id)
    {
      assert ById(initial.ring.shards, other).value in initial.ring.shards;
    }
    IdsWhereCongruent(initial.ring.shards, (other: u32) => snap.IsHealthy(other, protocol),
      (other: u32) => other != id);
  }

  /**
   Rows written while the primary was down are not migrated back. After `down, write, up`, for
   every key, line and cluster that excludes unhealthy shards: if enough shards are left, the
   row sits on another shard and the keyed read goes to the primary; if not, the write was
   refused.
   */
  lemma {:induction false} FailoverRowIsMissed(
      initial: Snapshot, defaultKey: Text, line: Text, primary: ShardConfig, protocol: Protocol)
    requires Fresh(initial) && initial.excludeUnhealthy && !Blank(line)
    requires initial.ring.ShardByKey(LineKey(initial, defaultKey, line)) == Some(primary)
    ensures var key := LineKey(initial, defaultKey, line);
            var down, up := Health(Report(primary.id, ShardHealth(false, false))),
              Health(Report(primary.id, HEALTHY_ALL));
            var w := Run(initial, defaultKey, [down, Write(line), up]);
            if EnoughWithout(initial, primary.id) then
              && |w.placed| == 1 && w.placed[0].line == line && w.placed[0].shard != primary.id
              && w.snap.ShardForKey(key, protocol) == Ok(primary)
            else
              w.placed == []
  {
    var key := LineKey(initial, defaultKey, line);
    var down, up := Health(Report(primary.id, ShardHealth(false, false))), Health(Report(primary.id, HEALTHY_ALL));
    DownWriteUp(initial, defaultKey, line, down.report, up.report);
    MemberHasId(initial.ring.shards, primary);
    var snap := ApplyHealth(initial, down.report);
    WithoutOne(initial, primary.id, ShardHealth(false, false), Ilp);
    assert RouteLine(snap, defaultKey, line) == snap.ShardForKey(key, Ilp);
    RoutedAmongHealthy(snap, key, Ilp);
    assert primary.id !in Others(initial, primary.id);
    if EnoughWithout(initial, primary.id) {
      AfterOutage(initial, snap, key, primary, protocol);
    }
  }

  lemma {:induction false} RunSnoc(initial: Snapshot, defaultKey: Text, events: seq<Event>, e: Event)
    ensures Run(initial, defaultKey, events + [e]) == Step(Run(initial, defaultKey, events), defaultKey, e)
  {
    assert (events + [e])[..|events + [e]| - 1] == events;
  }

  lemma {:induction false} DownWriteUp(initial: Snapshot, defaultKey: Text, line: Text, down: Report, up: Report)
    ensures var snap := ApplyHealth(initial, down);
            Run(initial, defaultKey, [Health(down), Write(line), Health(up)]) ==
            World(ApplyHealth(snap, up), PlacedBy(Router(snap, defaultKey), Write(line)))
  {
    var a, b, c := Health(down), Write(line), Health(up);
    RunOne(initial, defaultKey, a);
    RunSnoc(initial, defaultKey, [a], b);
    RunSnoc(initial, defaultKey, [a, b], c);
    assert [a, b] == [a] + [b] && [a, b, c] == [a, b] + [c];
  }

  lemma {:induction false} RunOne(initial: Snapshot, defaultKey: Text, e: Event)
    ensures Run(initial, defaultKey, [e]) == Step(World(initial, []), defaultKey, e)
  {
    RunSnoc(initial, defaultKey, [], e);
    assert [] + [e] == [e];
  }

  /** Back up, the primary is routed to again. */
  lemma {:induction false} AfterOutage(
      initial: Snapshot, snap: Snapshot, key: Text, primary: ShardConfig, protocol: Protocol)
    requires Fresh(initial) && initial.excludeUnhealthy && EnoughWithout(initial, primary.id)
    requires snap == initial.(health := initial.health[primary.id := ShardHealth(false, false)])
    requires initial.ring.ShardByKey(key) == Some(primary)
    ensures ApplyHealth(snap, Report(primary.id, HEALTHY_ALL)).ShardForKey(key, protocol) == Ok(primary)
  {
    var after := ApplyHealth(snap, Report(primary.id, HEALTHY_ALL));
    assert after.health == initial.health[primary.id := HEALTHY_ALL];
    FewerIds(initial.ring.shards, (id: u32) => id != primary.id, (id: u32) => after.IsHealthy(id, protocol));
    PrimaryWins(after.ring, key, after.Exclusion(protocol));
  }

  lemma {:induction false} FewerIds(shards: seq<ShardConfig>, few: u32 -> bool, many: u32 -> bool)
    requires forall s :: s in shards && few(s.id) ==> many(s.id)
    ensures |IdsWhere(shards, few)| <= |IdsWhere(shards, many)|
  {
    if shards != [] {
      assert forall s :: s in shards[1..] ==> s in shards;
      FewerIds(shards[1..], few, many);
    }
  }

  /**
   And rows on a shard that is up on ILP but down on PG vanish from a full scan: after
   `write, PG down`, for every cluster with enough other shards, the query runs without error
   and returns nothing, although the one database holds the row.
   */
  lemma {:induction false} FullScanMissesRow(
      initial: Snapshot, defaultKey: Text, line: Text, q: Query, backend: Backend, primary: ShardConfig)
    requires Fresh(initial) && initial.excludeUnhealthy && DistinctIds(initial.ring.shards)
    requires SelectedWrite(q, backend, Write(line))
    requires initial.ShardForKey(LineKey(initial, defaultKey, line), Ilp) == Ok(primary)
    requires EnoughWithout(initial, primary.id)
    ensures var down := Health(Report(primary.id, ShardHealth(true, false)));
            var w := Run(initial, defaultKey, [Write(line), down]);
            && w.snap.EnsureMinHealthy(Pg) == None
            && w.placed == [Placed(primary.id, line)]
            && FanOut(w.placed, backend, q, w.snap.HealthyShardIds(Pg)) !=
               multiset(Select(q, AllRows(w.placed, backend)))
  {
    var down := Health(Report(primary.id, ShardHealth(true, false)));
    var placed, now := [Placed(primary.id, line)], ApplyHealth(initial, down.report);
    WriteThenReport(initial, defaultKey, line, down.report, primary);
    RoutedAmongHealthy(initial, LineKey(initial, defaultKey, line), Ilp);
    assert ById(initial.ring.shards, primary.id).value in initial.ring.shards;
    WithoutOne(initial, primary.id, ShardHealth(true, false), Pg);
    IdsWhereDistinct(initial.ring.shards, (other: u32) => other != primary.id);
    FanOutCompleteIff(placed, backend, q, now.HealthyShardIds(Pg));
    assert placed[0] in placed && SelectedBy(q, backend, placed[0]);
  }

  lemma {:induction false} WriteThenReport(
      initial: Snapshot, defaultKey: Text, line: Text, report: Report, shard: ShardConfig)
    requires !Blank(line) && RouteLine(initial, defaultKey, line) == Ok(shard)
    ensures Run(initial, defaultKey, [Write(line), Health(report)]) ==
            World(ApplyHealth(initial, report), [Placed(shard.id, line)])
  {
    var a, b := Write(line), Health(report);
    RunOne(initial, defaultKey, a);
    RunSnoc(initial, defaultKey, [a], b);
    assert [a, b] == [a] + [b];
    assert PlacedBy(Router(initial, defaultKey), a) == [Placed(shard.id, line)];
  }
}
