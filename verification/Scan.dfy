/**
 Aggregate scans (src/federated/scan.rs, src/federated/mod.rs, src/routing/sql.rs):
 recognising a bare aggregate, rewriting AVG into SUM and COUNT before fan-out, and
 merging the per-shard pairs into the mean of the union.
 */
module Scan {
  import opened Bytes
  import opened DataRow
  import opened Sql
  import opened Federated

  datatype Argument = ExprArg(expr: Expr) | OtherArg(tag: nat)

  /**
   One SELECT item; `args` is absent for a function called without an argument list, and
   `modifier` stands for an OVER, FILTER or DISTINCT on it.
   */
  datatype Item =
    | Func(name: Text, args: Option<seq<Argument>>, modifier: Option<nat>)
    | Wildcard
    | OtherItem(tag: nat)

  /** A SELECT; `rest` stands for its FROM clause and everything else kept verbatim. */
  datatype Select = Select(projection: seq<Item>, selection: Option<Expr>, grouped: bool, rest: nat)

  const AVG: Text := [97, 118, 103]
  const SUM: Text := [115, 117, 109]
  const COUNT: Text := [99, 111, 117, 110, 116]
  const MIN: Text := [109, 105, 110]
  const MAX: Text := [109, 97, 120]

  datatype Kind = Plain(kind: AggKind) | Avg

  /** `agg_kind_from_function` */
  function KindOf(name: Text): Option<Kind> {
    if EqIgnoreCase(name, COUNT) then Some(Plain(Count))
    else if EqIgnoreCase(name, SUM) then Some(Plain(Sum))
    else if EqIgnoreCase(name, MIN) then Some(Plain(Min))
    else if EqIgnoreCase(name, MAX) then Some(Plain(Max))
    else if EqIgnoreCase(name, AVG) then Some(Avg)
    else None
  }

  datatype Detected = NotAggregate | Bare(kind: Kind) | Unsupported

  /** What each function name is recognised as, in any case; any other name is not. */
  predicate RecognisedByName(d: Detected, name: Text) {
    && (d == Bare(Plain(Count)) <==> EqIgnoreCase(name, COUNT))
    && (d == Bare(Plain(Sum)) <==> EqIgnoreCase(name, SUM))
    && (d == Bare(Plain(Min)) <==> EqIgnoreCase(name, MIN))
    && (d == Bare(Plain(Max)) <==> EqIgnoreCase(name, MAX))
    && (d == Bare(Avg) <==> EqIgnoreCase(name, AVG))
    && (d == Unsupported <==>
          forall word :: word in [COUNT, SUM, MIN, MAX, AVG] ==> !EqIgnoreCase(name, word))
  }

  lemma {:induction false} NamesDiffer()
    ensures !EqIgnoreCase(COUNT, SUM) && !EqIgnoreCase(COUNT, MIN) && !EqIgnoreCase(COUNT, MAX)
    ensures !EqIgnoreCase(COUNT, AVG) && !EqIgnoreCase(SUM, MIN) && !EqIgnoreCase(SUM, MAX)
    ensures !EqIgnoreCase(SUM, AVG) && !EqIgnoreCase(MIN, MAX) && !EqIgnoreCase(MIN, AVG) && !EqIgnoreCase(MAX, AVG)
  {
    assert |Lower(COUNT)| == 5 && |Lower(SUM)| == 3 && |Lower(MIN)| == 3 && |Lower(MAX)| == 3 && |Lower(AVG)| == 3;
    assert Lower(SUM)[0] == 115 && Lower(AVG)[0] == 97 && Lower(MIN)[0] == 109 && Lower(MAX)[0] == 109;
    assert Lower(MIN)[1] == 105 && Lower(MAX)[1] == 97;
  }

  lemma {:induction false} KindByName(name: Text, d: Detected)
    requires d == if KindOf(name).Some? then Bare(KindOf(name).value) else Unsupported
    ensures RecognisedByName(d, name)
  {
    NamesDiffer();
  }

  /** The projection is one recognised aggregate, possibly among wildcards. */
  ghost predicate OneAggregate(items: seq<Item>, i: nat, kind: Kind) {
    && i < |items| && items[i].Func? && KindOf(items[i].name) == Some(kind)
    && forall j :: 0 <= j < |items| && j != i ==> items[j].Wildcard?
  }

  /** The item at which a scan gives up: an unrecognised function or a second one, before any other item. */
  ghost predicate RejectedAt(items: seq<Item>, i: nat) {
    && i < |items| && items[i].Func?
    && (KindOf(items[i].name).None? || exists j :: 0 <= j < i && items[j].Func?)
    && forall j :: 0 <= j < i ==> !items[j].OtherItem?
  }

  /** `detect_bare_aggregate`: succeeds exactly on an ungrouped single recognised aggregate. */
  method DetectBareAggregate(select: Select) returns (d: Detected, ghost at: nat)
    ensures d.Bare? ==> !select.grouped && OneAggregate(select.projection, at, d.kind)
    ensures !d.Bare? ==> forall i: nat, kind :: !(!select.grouped && OneAggregate(select.projection, i, kind))
    ensures d.Unsupported? <==> !select.grouped && exists i: nat :: RejectedAt(select.projection, i)
    ensures !select.grouped && |select.projection| == 1 && select.projection[0].Func? ==>
              RecognisedByName(d, select.projection[0].name)
  {
    d, at := NotAggregate, 0;
    if select.grouped {
      return;
    }
    var items := select.projection;
    if |items| == 1 && items[0].Func? {
      var kind := KindOf(items[0].name);
      KindByName(items[0].name, if kind.Some? then Bare(kind.value) else Unsupported);
    }
    for i := 0 to |items|
      invariant d.NotAggregate? ==> forall j :: 0 <= j < i ==> items[j].Wildcard?
      invariant d.Bare? ==> at < i && items[at].Func? && KindOf(items[at].name) == Some(d.kind)
      invariant d.Bare? ==> forall j :: 0 <= j < i && j != at ==> items[j].Wildcard?
      invariant !d.Unsupported?
      invariant forall j :: 0 <= j < i ==> !items[j].OtherItem? && !RejectedAt(items, j)
    {
      match items[i]
      case Func(name, _, _) =>
        var kind := KindOf(name);
        if kind.None? || d.Bare? {
          d := Unsupported;
          assert RejectedAt(items, i);
          return;
        }
        d, at := Bare(kind.value), i;
      case Wildcard =>
      case OtherItem(_) =>
        d := NotAggregate;
        return;
    }
  }

  /** `avg_argument_sql`: the first argument, when it is an expression. */
  function AvgArgument(args: Option<seq<Argument>>): Option<Expr> {
    if args.Some? && args.value != [] && args.value[0].ExprArg? then Some(args.value[0].expr) else None
  }

  function IsAvg(item: Item): bool {
    item.Func? && EqIgnoreCase(item.name, AVG)
  }

  predicate LastAvg(items: seq<Item>, i: int) {
    0 <= i < |items| && IsAvg(items[i]) && forall j :: i < j < |items| ==> !IsAvg(items[j])
  }

  /** `rewrite_avg_to_sum_count`: a later AVG item overrides an earlier one. */
  method RewriteAvg(select: Select) returns (r: Option<Select>)
    ensures forall i :: LastAvg(select.projection, i) ==> r == Rewritten(select, AvgArgument(select.projection[i].args))
    ensures (forall i :: 0 <= i < |select.projection| ==> !IsAvg(select.projection[i])) ==> r == None
  {
    var arg: Option<Expr> := None;
    ghost var last := -1;
    for i := 0 to |select.projection|
      invariant -1 <= last < i
      invariant forall j :: last < j < i ==> !IsAvg(select.projection[j])
      invariant last >= 0 ==> IsAvg(select.projection[last]) && arg == AvgArgument(select.projection[last].args)
      invariant last == -1 ==> arg == None
    {
      if IsAvg(select.projection[i]) {
        arg, last := AvgArgument(select.projection[i].args), i;
      }
    }
    r := Rewritten(select, arg);
  }

  /** Same FROM and WHERE, projection `sum(arg), count(arg)`. */
  function Rewritten(select: Select, arg: Option<Expr>): Option<Select> {
    match arg
    case None => None
    case Some(e) => Some(select.(projection := [Func(SUM, Some([ExprArg(e)]), None),
      Func(COUNT, Some([ExprArg(e)]), None)]))
  }

  // ---------------------------------------------------------------------------
  // What a shard computes
  // ---------------------------------------------------------------------------

  /** What the router leaves to the shards: expressions, wildcards and modified aggregates. */
  datatype Engine = Engine(
    env: Env,
    number: (Expr, Row) -> Option<real>,
    wildcard: seq<Row> -> Option<real>,
    modified: (Item, seq<Option<real>>) -> Option<real>)

  /** The aggregated expression over the rows of one shard that pass the WHERE clause. */
  function ColumnOf(e: Expr, selection: Option<Expr>, rows: seq<Row>, engine: Engine): seq<Option<real>> {
    FlatMap(rows, (row: Row) =>
      if selection.None? || Eval(selection.value, row, engine.env) == True then [engine.number(e, row)] else [])
  }

  function Mean(values: seq<Option<real>>): Option<real> {
    var xs := NonNull(values);
    if xs == [] then None else Some(Total(xs) / (|xs| as real))
  }

  /** The rows an aggregate works on: its argument's values, or every row when it has none, as in `count(*)`. */
  function Operand(item: Item, selection: Option<Expr>, rows: seq<Row>, engine: Engine): seq<Option<real>>
    requires item.Func?
  {
    match AvgArgument(item.args)
    case Some(e) => ColumnOf(e, selection, rows, engine)
    case None => FlatMap(rows, (row: Row) =>
      if selection.None? || Eval(selection.value, row, engine.env) == True then [Some(1.0)] else [])
  }

  /** An aggregate as the client means it: a modified one means what the engine says. */
  function Meaning(item: Item, column: seq<Option<real>>, engine: Engine): Option<real>
    requires item.Func?
  {
    if item.modifier.Some? then engine.modified(item, column)
    else
      match KindOf(item.name)
      case Some(Plain(kind)) => Aggregate(kind, column)
      case Some(Avg) => Mean(column)
      case None => None
  }

  /** A shard's cell for an item; a wildcard gives the first of its cells. */
  function ItemValue(item: Item, select: Select, rows: seq<Row>, engine: Engine): Option<real> {
    match item
    case Func(_, _, _) => Meaning(item, Operand(item, select.selection, rows, engine), engine)
    case Wildcard => engine.wildcard(rows)
    case OtherItem(_) => None
  }

  ghost function RowCells(
      items: seq<Item>, select: Select, rows: seq<Row>, engine: Engine, print_: real -> Text): (r: seq<WireCell>)
    requires forall x: real :: |print_(x)| < TWO_31
    ensures |r| == |items| && forall c :: c in r ==> Encodable(c)
  {
    if items == [] then []
    else
      [NumberCell(ItemValue(items[0], select, rows, engine), print_)] +
      RowCells(items[1..], select, rows, engine, print_)
  }

  /** One shard: no table, or its rows. */
  datatype Shard = NoTable | Rows(rows: seq<Row>)

  ghost function ShardAnswer(select: Select, shard: Shard, engine: Engine, print_: real -> Text): seq<Response>
    requires forall x: real :: |print_(x)| < TWO_31
  {
    if shard.NoTable? then []
    else [Query(|select.projection|, [Encode(RowCells(select.projection, select, shard.rows, engine, print_))])]
  }

  ghost function FanOut(select: Select, shards: seq<Shard>, engine: Engine, print_: real -> Text): seq<seq<Response>>
    requires forall x: real :: |print_(x)| < TWO_31
  {
    if shards == [] then []
    else [ShardAnswer(select, shards[0], engine, print_)] + FanOut(select, shards[1..], engine, print_)
  }

  // ---------------------------------------------------------------------------
  // The AVG merge
  // ---------------------------------------------------------------------------

  /** The `(sum, count)` pair of a row, when both cells are numbers. */
  function Pair(row: Text, trim: Text -> Text, parse: Text -> Option<real>): seq<(real, real)> {
    var cells := Numbers(Cells(row, 2), trim, parse);
    if cells[0].Some? && cells[1].Some? then [(cells[0].value, cells[1].value)] else []
  }

  function Pairs(rows: seq<Text>, trim: Text -> Text, parse: Text -> Option<real>): seq<(real, real)> {
    FlatMap(rows, row => Pair(row, trim, parse))
  }

  function Sums(pairs: seq<(real, real)>): real {
    if pairs == [] then 0.0 else pairs[0].0 + Sums(pairs[1..])
  }

  function Counts(pairs: seq<(real, real)>): real {
    if pairs == [] then 0.0 else pairs[0].1 + Counts(pairs[1..])
  }

  lemma {:induction false} PairsAppend(a: seq<(real, real)>, b: seq<(real, real)>)
    ensures Sums(a + b) == Sums(a) + Sums(b)
    ensures Counts(a + b) == Counts(a) + Counts(b)
  {
    if a == [] {
      assert a + b == b;
    } else {
      PairsAppend(a[1..], b);
      assert (a + b)[1..] == a[1..] + b;
    }
  }

  lemma {:induction false} PairsStep(rows: seq<Text>, i: nat, trim: Text -> Text, parse: Text -> Option<real>)
    requires i < |rows|
    ensures var before, pair := Pairs(rows[..i], trim, parse), Pair(rows[i], trim, parse);
            var after := Pairs(rows[..i + 1], trim, parse);
            && after == before + pair
            && Sums(after) == Sums(before) + (if pair == [] then 0.0 else pair[0].0)
            && Counts(after) == Counts(before) + (if pair == [] then 0.0 else pair[0].1)
  {
    var pair := Pair(rows[i], trim, parse);
    FlatMapSnoc(rows, i, (row: Text) => Pair(row, trim, parse));
    PairsAppend(Pairs(rows[..i], trim, parse), pair);
    OnePair(pair, []);
    assert pair + [] == pair;
  }

  /** `merge_avg` */
  method MergeAvg(
      shards: seq<seq<Response>>, trim: Text -> Text, parse: Text -> Option<real>)
    returns (mean: Option<real>)
    ensures var pairs := Pairs(AllRows(Flatten(shards)), trim, parse);
            mean == if pairs == [] || Counts(pairs) == 0.0 then None else Some(Sums(pairs) / Counts(pairs))
  {
    var rows := CollectRows(shards);
    var totalSum, totalCount, sawRows := 0.0, 0.0, false;
    for i := 0 to |rows|
      invariant var pairs := Pairs(rows[..i], trim, parse);
                totalSum == Sums(pairs) && totalCount == Counts(pairs) && (sawRows <==> pairs != [])
    {
      PairsStep(rows, i, trim, parse);
      var cells := CellsF64(rows[i], 2, trim, parse);
      if cells[0].Some? && cells[1].Some? {
        totalSum := totalSum + cells[0].value;
        totalCount := totalCount + cells[1].value;
        sawRows := true;
      }
    }
    assert rows[..|rows|] == rows;
    if !sawRows || totalCount == 0.0 {
      return None;
    }
    mean := Some(totalSum / totalCount);
  }

  /** The sum and count over a column, printed, trimmed and parsed, come back unchanged. */
  ghost predicate PairReadsBack(
      column: seq<Option<real>>, print_: real -> Text, trim: Text -> Text, parse: Text -> Option<real>)
  {
    && ReadsBack(Aggregate(Sum, column), print_, text => parse(trim(text)))
    && ReadsBack(Aggregate(Count, column), print_, text => parse(trim(text)))
  }

  /** Every shard's pair is printed so that it reads back. */
  ghost predicate PrintsPairs(select: Select, e: Expr, shards: seq<Shard>, engine: Engine,
                              print_: real -> Text, trim: Text -> Text, parse: Text -> Option<real>) {
    && PrintsText(print_)
    && forall s :: s in shards && s.Rows? ==>
         PairReadsBack(ColumnOf(e, select.selection, s.rows, engine), print_, trim, parse)
  }

  /** The rewritten query for `avg(e)`. */
  function SumCount(select: Select, e: Expr): Select {
    select.(projection := [Func(SUM, Some([ExprArg(e)]), None), Func(COUNT, Some([ExprArg(e)]), None)])
  }

  lemma {:induction false} RewrittenNames()
    ensures KindOf(SUM) == Some(Plain(Sum)) && KindOf(COUNT) == Some(Plain(Count))
  {
    assert |Lower(SUM)| == 3 && |Lower(COUNT)| == 5;
  }

  /** The router reads back one shard's pair: nothing when the shard has no value to average. */
  lemma {:induction false} ReadsPair(select: Select, e: Expr, shard: Shard, engine: Engine,
                                     print_: real -> Text, trim: Text -> Text, parse: Text -> Option<real>)
    requires PrintsText(print_)
    requires shard.Rows? ==> PairReadsBack(ColumnOf(e, select.selection, shard.rows, engine), print_, trim, parse)
    ensures var xs := if shard.NoTable? then [] else NonNull(ColumnOf(e, select.selection, shard.rows, engine));
            Pairs(AllRows(ShardAnswer(SumCount(select, e), shard, engine, print_)), trim, parse) ==
            if xs == [] then [] else [(Total(xs), |xs| as real)]
  {
    if shard.Rows? {
      var q := SumCount(select, e);
      var column := ColumnOf(e, select.selection, shard.rows, engine);
      RewrittenNames();
      var sum, count := Aggregate(Sum, column), Aggregate(Count, column);
      assert ItemValue(q.projection[0], q, shard.rows, engine) == sum;
      assert ItemValue(q.projection[1], q, shard.rows, engine) == count;
      var cells := RowCells(q.projection, q, shard.rows, engine, print_);
      var last := q.projection[1..];
      assert last == [q.projection[1]] && last[1..] == [];
      assert RowCells(last[1..], q, shard.rows, engine, print_) == [];
      assert RowCells(last, q, shard.rows, engine, print_) == [NumberCell(count, print_)];
      assert cells == [NumberCell(sum, print_), NumberCell(count, print_)];
      PairOfRow(cells, sum, count, print_, trim, parse);
      OneRow(2, Encode(cells), trim, parse);
    }
  }

  lemma {:induction false} OneRow(columns: nat, row: Text, trim: Text -> Text, parse: Text -> Option<real>)
    ensures Pairs(AllRows([Query(columns, [row])]), trim, parse) == Pair(row, trim, parse)
  {
    var response := [Query(columns, [row])];
    assert FlatMap(response[1..], RowsIn) == [] && AllRows(response) == [row];
    assert FlatMap([row][1..], (r: Text) => Pair(r, trim, parse)) == [];
  }

  lemma {:induction false} PairOfRow(cells: seq<WireCell>, sum: Option<real>, count: Option<real>,
                                     print_: real -> Text, trim: Text -> Text, parse: Text -> Option<real>)
    requires PrintsText(print_)
    requires ReadsBack(sum, print_, text => parse(trim(text))) && ReadsBack(count, print_, text => parse(trim(text)))
    requires cells == [NumberCell(sum, print_), NumberCell(count, print_)]
    requires forall c :: c in cells ==> Encodable(c)
    ensures Pair(Encode(cells), trim, parse) ==
            if sum.Some? && count.Some? then [(sum.value, count.value)] else []
  {
    CellsRoundTrip(cells, 2, 0);
    CellsRoundTrip(cells, 2, 1);
  }

  function AllValues(e: Expr, selection: Option<Expr>, shards: seq<Shard>, engine: Engine): seq<Option<real>> {
    FlatMap(shards, (s: Shard) => if s.NoTable? then [] else ColumnOf(e, selection, s.rows, engine))
  }

  lemma {:induction false} ReadsPairs(select: Select, e: Expr, shards: seq<Shard>, engine: Engine,
                                      print_: real -> Text, trim: Text -> Text, parse: Text -> Option<real>)
    requires PrintsPairs(select, e, shards, engine, print_, trim, parse)
    ensures var pairs := Pairs(AllRows(Flatten(FanOut(SumCount(select, e), shards, engine, print_))), trim, parse);
            var xs := NonNull(AllValues(e, select.selection, shards, engine));
            Sums(pairs) == Total(xs) && Counts(pairs) == |xs| as real && (pairs == [] <==> xs == [])
  {
    if shards != [] {
      var answers := FanOut(SumCount(select, e), shards, engine, print_);
      ReadsPairs(select, e, shards[1..], engine, print_, trim, parse);
      ReadsPair(select, e, shards[0], engine, print_, trim, parse);
      assert answers[1..] == FanOut(SumCount(select, e), shards[1..], engine, print_);
      PairsCons(answers, trim, parse);
      var head := if shards[0].NoTable? then [] else ColumnOf(e, select.selection, shards[0].rows, engine);
      var tail := AllValues(e, select.selection, shards[1..], engine);
      FlatMapAppend(head, tail, (v: Option<real>) => if v.Some? then [v.value] else []);
      TotalAppend(NonNull(head), NonNull(tail));
      var one := if NonNull(head) == [] then [] else [(Total(NonNull(head)), |NonNull(head)| as real)];
      OnePair(one, Pairs(AllRows(Flatten(answers[1..])), trim, parse));
    }
  }

  lemma {:induction false} PairsCons(answers: seq<seq<Response>>, trim: Text -> Text, parse: Text -> Option<real>)
    requires answers != []
    ensures Pairs(AllRows(Flatten(answers)), trim, parse) ==
            Pairs(AllRows(answers[0]), trim, parse) + Pairs(AllRows(Flatten(answers[1..])), trim, parse)
  {
    FlatMapAppend(answers[0], Flatten(answers[1..]), RowsIn);
    FlatMapAppend(AllRows(answers[0]), AllRows(Flatten(answers[1..])), (row: Text) => Pair(row, trim, parse));
  }

  lemma {:induction false} OnePair(one: seq<(real, real)>, rest: seq<(real, real)>)
    requires |one| <= 1
    ensures Sums(one + rest) == (if one == [] then 0.0 else one[0].0) + Sums(rest)
    ensures Counts(one + rest) == (if one == [] then 0.0 else one[0].1) + Counts(rest)
  {
    if one == [] {
      assert one + rest == rest;
    } else {
      assert (one + rest)[1..] == rest;
    }
  }

  /** The rewrite of a bare AVG, wildcards beside it or not, exists exactly when its first argument is an expression. */
  method RewriteOfBareAvg(select: Select, ghost at: nat) returns (r: Option<Select>)
    requires OneAggregate(select.projection, at, Avg)
    ensures var arg := AvgArgument(select.projection[at].args);
            r == if arg.Some? then Some(SumCount(select, arg.value)) else None
    ensures var args := select.projection[at].args;
            r == if args.Some? && args.value != [] && args.value[0].ExprArg?
                 then Some(SumCount(select, args.value[0].expr)) else None
  {
    r := RewriteAvg(select);
    assert LastAvg(select.projection, at);
  }

  /** The `at`-th item makes this an ungrouped query for one average. */
  ghost predicate AveragesAt(select: Select, at: nat) {
    !select.grouped && OneAggregate(select.projection, at, Avg)
  }

  datatype Averaged = NotAverage | CannotDecompose | Average(mean: Option<real>)

  /**
   The AVG path of an aggregate scan, as the router runs it: recognise, rewrite, fan out,
   merge. `ask` sends a query to the shards. An ungrouped query for one average is answered
   with the mean over all shards' rows, or refused exactly when its argument is not an
   expression; no other query gets here.
   */
  method AverageQuery(
      select: Select, ask: Select -> seq<seq<Response>>, trim: Text -> Text, parse: Text -> Option<real>,
      ghost shards: seq<Shard>, ghost engine: Engine, ghost print_: real -> Text)
    returns (r: Averaged)
    requires PrintsText(print_)
    requires forall q :: ask(q) == FanOut(q, shards, engine, print_)
    requires forall at: nat :: AveragesAt(select, at) && AvgArgument(select.projection[at].args).Some? ==>
               PrintsPairs(select, AvgArgument(select.projection[at].args).value, shards, engine, print_, trim, parse)
    ensures r.NotAverage? <==> forall at: nat :: !AveragesAt(select, at)
    ensures forall at: nat :: AveragesAt(select, at) ==>
              var arg := AvgArgument(select.projection[at].args);
              r == if arg.None? then CannotDecompose
                else Average(Mean(AllValues(arg.value, select.selection, shards, engine)))
  {
    ghost var at: nat;
    var d: Detected;
    d, at := DetectBareAggregate(select);
    if d != Bare(Avg) {
      assert forall i: nat :: AveragesAt(select, i) ==> d.Bare? && i == at;
      return NotAverage;
    }
    assert AveragesAt(select, at);
    var q := RewriteOfBareAvg(select, at);
    if q.None? {
      return CannotDecompose;
    }
    ghost var e := AvgArgument(select.projection[at].args).value;
    var mean := MergeAvg(ask(q.value), trim, parse);
    ReadsPairs(select, e, shards, engine, print_, trim, parse);
    r := Average(mean);
  }

  /**
   The rewrite drops modifiers. The mean is what the client asked for, whatever its modifier
   means, if and only if it has none.
   */
  lemma {:induction false} AverageIsMeantIff(item: Item, column: seq<Option<real>>)
    requires item.Func? && KindOf(item.name) == Some(Avg)
    ensures (forall engine: Engine :: Meaning(item, column, engine) == Mean(column)) <==> item.modifier == None
  {
    if item.modifier.Some? {
      var other: Option<real> := if Mean(column) == None then Some(0.0) else None;
      var env := Env((e, r) => DNull, (e, r) => Unknown, (a, b) => false);
      var engine := Engine(env, (e, r) => None, rows => None, (i, c) => other);
      assert Meaning(item, column, engine) == other != Mean(column);
    }
  }

  // ---------------------------------------------------------------------------
  // COUNT, SUM, MIN and MAX
  // ---------------------------------------------------------------------------

  /** The first cell of a shard's answer, as a number. */
  function FirstOf(select: Select, shard: Shard, engine: Engine): seq<real>
    requires select.projection != []
  {
    if shard.NoTable? then []
    else
      match ItemValue(select.projection[0], select, shard.rows, engine)
      case Some(x) => [x]
      case None => []
  }

  function Firsts(select: Select, shards: seq<Shard>, engine: Engine): seq<real>
    requires select.projection != []
  {
    if shards == [] then [] else FirstOf(select, shards[0], engine) + Firsts(select, shards[1..], engine)
  }

  /** Every shard's first cell is printed so that it reads back. */
  ghost predicate PrintsFirsts(
      select: Select, shards: seq<Shard>, engine: Engine, print_: real -> Text, parse: Text -> Option<real>)
  {
    && select.projection != []
    && PrintsText(print_)
    && forall s :: s in shards && s.Rows? ==>
         ReadsBack(ItemValue(select.projection[0], select, s.rows, engine), print_, parse)
  }

  lemma {:induction false} ReadsFirst(
      select: Select, shard: Shard, engine: Engine, print_: real -> Text, parse: Text -> Option<real>)
    requires select.projection != [] && PrintsText(print_)
    requires shard.Rows? ==> ReadsBack(ItemValue(select.projection[0], select, shard.rows, engine), print_, parse)
    ensures FirstNumbers(AllRows(ShardAnswer(select, shard, engine, print_)), parse) == FirstOf(select, shard, engine)
  {
    if shard.Rows? {
      var cells := RowCells(select.projection, select, shard.rows, engine, print_);
      var row := Encode(cells);
      ReadEncoded(cells[0], Encode(cells[1..]));
      var response := ShardAnswer(select, shard, engine, print_);
      assert FlatMap(response[1..], RowsIn) == [] && AllRows(response) == [row];
      assert FlatMap([row][1..], (r: Text) => FirstNumber(r, parse)) == [];
    }
  }

  /** The router reads exactly the shards' first cells off the wire. */
  lemma {:induction false} ReadsFirsts(
      select: Select, shards: seq<Shard>, engine: Engine, print_: real -> Text, parse: Text -> Option<real>)
    requires PrintsFirsts(select, shards, engine, print_, parse)
    ensures FirstNumbers(AllRows(Flatten(FanOut(select, shards, engine, print_))), parse) ==
            Firsts(select, shards, engine)
  {
    if shards != [] {
      var answers := FanOut(select, shards, engine, print_);
      var head, rest := answers[0], Flatten(answers[1..]);
      ReadsFirsts(select, shards[1..], engine, print_, parse);
      assert answers[1..] == FanOut(select, shards[1..], engine, print_);
      FlatMapAppend(head, rest, RowsIn);
      FlatMapAppend(AllRows(head), AllRows(rest), (row: Text) => FirstNumber(row, parse));
      ReadsFirst(select, shards[0], engine, print_, parse);
    }
  }

  /** A shard's share of what the aggregate works on. */
  function ShareOf(item: Item, selection: Option<Expr>, shard: Shard, engine: Engine): Share
    requires item.Func?
  {
    if shard.NoTable? then Missing else Present(Operand(item, selection, shard.rows, engine))
  }

  function Shares(item: Item, selection: Option<Expr>, shards: seq<Shard>, engine: Engine): (r: seq<Share>)
    requires item.Func?
    ensures |r| == |shards| && forall i :: 0 <= i < |shards| ==> r[i] == ShareOf(item, selection, shards[i], engine)
  {
    if shards == [] then []
    else [ShareOf(item, selection, shards[0], engine)] + Shares(item, selection, shards[1..], engine)
  }

  /** An aggregate that comes first and has no modifier is read as its partial results. */
  lemma {:induction false} FirstsArePartials(select: Select, shards: seq<Shard>, engine: Engine, kind: AggKind)
    requires select.projection != [] && select.projection[0].Func? && select.projection[0].modifier.None?
    requires KindOf(select.projection[0].name) == Some(Plain(kind))
    ensures Firsts(select, shards, engine) ==
            Partials(kind, Shares(select.projection[0], select.selection, shards, engine))
  {
    if shards != [] {
      FirstsArePartials(select, shards[1..], engine, kind);
      var shares := Shares(select.projection[0], select.selection, shards, engine);
      assert shares[1..] == Shares(select.projection[0], select.selection, shards[1..], engine);
    }
  }

  /** The values of `e`, NULLs left out, over the rows that pass the WHERE clause. */
  function NumbersOf(e: Expr, selection: Option<Expr>, rows: seq<Row>, engine: Engine): seq<real> {
    if rows == [] then []
    else
      var passes := selection.None? || Eval(selection.value, rows[0], engine.env) == True;
      var value := engine.number(e, rows[0]);
      (if passes && value.Some? then [value.value] else []) + NumbersOf(e, selection, rows[1..], engine)
  }

  /** The same over all shards that have the table. */
  function NumbersOver(e: Expr, selection: Option<Expr>, shards: seq<Shard>, engine: Engine): seq<real> {
    if shards == [] then []
    else
      (if shards[0].Rows? then NumbersOf(e, selection, shards[0].rows, engine) else []) +
      NumbersOver(e, selection, shards[1..], engine)
  }

  lemma {:induction false} ColumnNumbers(e: Expr, selection: Option<Expr>, rows: seq<Row>, engine: Engine)
    ensures NonNull(ColumnOf(e, selection, rows, engine)) == NumbersOf(e, selection, rows, engine)
  {
    if rows != [] {
      var passes := selection.None? || Eval(selection.value, rows[0], engine.env) == True;
      var head: seq<Option<real>> := if passes then [engine.number(e, rows[0])] else [];
      ColumnNumbers(e, selection, rows[1..], engine);
      assert ColumnOf(e, selection, rows, engine) == head + ColumnOf(e, selection, rows[1..], engine);
      FlatMapAppend(head, ColumnOf(e, selection, rows[1..], engine),
        (v: Option<real>) => if v.Some? then [v.value] else []);
      assert passes ==> head[1..] == [] && NonNull(head[1..]) == [];
    }
  }

  lemma {:induction false} ShareNumbers(
      e: Expr, item: Item, selection: Option<Expr>, shards: seq<Shard>, engine: Engine)
    requires item.Func? && item.args == Some([ExprArg(e)])
    ensures NonNull(Whole(Shares(item, selection, shards, engine))) == NumbersOver(e, selection, shards, engine)
    ensures SomePresent(Shares(item, selection, shards, engine)) <==> SomeTable(shards)
  {
    var shares := Shares(item, selection, shards, engine);
    if shards != [] {
      ShareNumbers(e, item, selection, shards[1..], engine);
      assert shares[1..] == Shares(item, selection, shards[1..], engine);
      WholeCons(shares);
      if shards[0].Rows? {
        ColumnNumbers(e, selection, shards[0].rows, engine);
      }
    }
  }

  /** How many rows pass the WHERE clause. */
  function Passing(selection: Option<Expr>, rows: seq<Row>, engine: Engine): nat {
    if rows == [] then 0
    else
      var passes := selection.None? || Eval(selection.value, rows[0], engine.env) == True;
      (if passes then 1 else 0) + Passing(selection, rows[1..], engine)
  }

  function PassingOver(selection: Option<Expr>, shards: seq<Shard>, engine: Engine): nat {
    if shards == [] then 0
    else
      (if shards[0].Rows? then Passing(selection, shards[0].rows, engine) else 0) +
      PassingOver(selection, shards[1..], engine)
  }

  lemma {:induction false} StarOperand(item: Item, selection: Option<Expr>, rows: seq<Row>, engine: Engine)
    requires item.Func? && AvgArgument(item.args).None?
    ensures |NonNull(Operand(item, selection, rows, engine))| == Passing(selection, rows, engine)
  {
    if rows != [] {
      var passes := selection.None? || Eval(selection.value, rows[0], engine.env) == True;
      var head: seq<Option<real>> := if passes then [Some(1.0)] else [];
      StarOperand(item, selection, rows[1..], engine);
      assert Operand(item, selection, rows, engine) == head + Operand(item, selection, rows[1..], engine);
      FlatMapAppend(head, Operand(item, selection, rows[1..], engine),
        (v: Option<real>) => if v.Some? then [v.value] else []);
      assert passes ==> head[1..] == [] && NonNull(head[1..]) == [];
    }
  }

  lemma {:induction false} StarShares(item: Item, selection: Option<Expr>, shards: seq<Shard>, engine: Engine)
    requires item.Func? && AvgArgument(item.args).None?
    ensures |NonNull(Whole(Shares(item, selection, shards, engine)))| == PassingOver(selection, shards, engine)
    ensures SomePresent(Shares(item, selection, shards, engine)) <==> SomeTable(shards)
  {
    var shares := Shares(item, selection, shards, engine);
    if shards != [] {
      StarShares(item, selection, shards[1..], engine);
      assert shares[1..] == Shares(item, selection, shards[1..], engine);
      WholeCons(shares);
      if shards[0].Rows? {
        StarOperand(item, selection, shards[0].rows, engine);
      }
    }
  }

  /** Some shard has the table. */
  predicate SomeTable(shards: seq<Shard>) {
    shards != [] && (shards[0].Rows? || SomeTable(shards[1..]))
  }

  predicate IsLeast(m: Option<real>, xs: seq<real>) {
    if xs == [] then m == None else m.Some? && m.value in xs && forall x :: x in xs ==> m.value <= x
  }

  predicate IsGreatest(m: Option<real>, xs: seq<real>) {
    if xs == [] then m == None else m.Some? && m.value in xs && forall x :: x in xs ==> x <= m.value
  }

  /** The answer to `name(e)`, in terms of the values over all shards. */
  ghost predicate AnswersName(name: Text, m: Option<real>, xs: seq<real>, someTable: bool) {
    && (EqIgnoreCase(name, MIN) ==> IsLeast(m, xs))
    && (EqIgnoreCase(name, MAX) ==> IsGreatest(m, xs))
    && (EqIgnoreCase(name, SUM) ==> m == if xs == [] then None else Some(Total(xs)))
    && (EqIgnoreCase(name, COUNT) ==> m == if someTable then Some(|xs| as real) else None)
  }

  lemma {:induction false} AggregateByName(
      name: Text, kind: AggKind, m: Option<real>, values: seq<Option<real>>, someTable: bool)
    requires KindOf(name) == Some(Plain(kind))
    requires m == if kind.Count? && !someTable then None else Aggregate(kind, values)
    ensures AnswersName(name, m, NonNull(values), someTable)
  {
    KindByName(name, Bare(Plain(kind)));
  }

  /** The `at`-th item makes this an ungrouped query for one aggregate other than AVG. */
  ghost predicate AggregatesAt(select: Select, at: nat, kind: AggKind) {
    !select.grouped && OneAggregate(select.projection, at, Plain(kind))
  }

  datatype Merged = NotPlain | Value(merged: Option<real>)

  /**
   The path of the other aggregates: recognise, fan the query out as it is, merge the first
   cells. When the aggregate comes first and has no modifier, that is the aggregate over the
   union, if and only if it is not a COUNT or some shard has the table. Behind a wildcard the
   merge combines the wildcard's first cells instead, whatever the aggregate is.
   */
  method AggregateQuery(select: Select, ask: Select -> seq<seq<Response>>, parse: Text -> Option<real>,
                        ghost shards: seq<Shard>, ghost engine: Engine, ghost print_: real -> Text)
    returns (r: Merged)
    requires PrintsText(print_)
    requires forall q :: ask(q) == FanOut(q, shards, engine, print_)
    requires select.projection != [] ==> PrintsFirsts(select, shards, engine, print_, parse)
    ensures r.NotPlain? <==> forall at: nat, kind: AggKind :: !AggregatesAt(select, at, kind)
    ensures forall at: nat, kind: AggKind :: AggregatesAt(select, at, kind) ==>
            r == Value(Combine(kind, Firsts(select, shards, engine)))
    ensures forall kind: AggKind :: AggregatesAt(select, 0, kind) && select.projection[0].modifier.None? ==>
              var shares := Shares(select.projection[0], select.selection, shards, engine);
              r == Value(Aggregate(kind, Whole(shares))) <==> !kind.Count? || SomePresent(shares)
    ensures forall name: Text, e: Expr ::
              !select.grouped && select.projection == [Func(name, Some([ExprArg(e)]), None)] && r.Value? ==>
                AnswersName(name, r.merged, NumbersOver(e, select.selection, shards, engine),
                  SomeTable(shards))
    ensures forall name: Text, star: nat ::
              !select.grouped && select.projection == [Func(name, Some([OtherArg(star)]), None)] && r.Value? &&
              EqIgnoreCase(name, COUNT) ==>
                r.merged == if SomeTable(shards) then Some(PassingOver(select.selection, shards, engine) as real)
                            else None
  {
    ghost var at: nat;
    var d: Detected;
    d, at := DetectBareAggregate(select);
    if !d.Bare? || d.kind.Avg? {
      assert forall i: nat, kind: AggKind :: AggregatesAt(select, i, kind) ==> d.Bare? && i == at;
      return NotPlain;
    }
    assert AggregatesAt(select, at, d.kind.kind);
    var merged := MergeScalarAggregate(ask(select), d.kind.kind, parse);
    ReadsFirsts(select, shards, engine, print_, parse);
    r := Value(merged);
    assert forall i: nat, kind: AggKind :: AggregatesAt(select, i, kind) ==> i == at && kind == d.kind.kind;
    if at == 0 && select.projection[0].modifier.None? {
      FirstsArePartials(select, shards, engine, d.kind.kind);
      PartialsMerge(d.kind.kind, Shares(select.projection[0], select.selection, shards, engine));
      var args := select.projection[0].args;
      if args.Some? && |args.value| == 1 && args.value[0].ExprArg? {
        MergedByName(select.projection[0], d.kind.kind, merged, select.selection, shards, engine);
      } else if args.Some? && |args.value| == 1 && d.kind.kind.Count? {
        StarCounts(select.projection[0], merged, select.selection, shards, engine);
      }
      KindByName(select.projection[0].name, d);
    }
  }

  /** The merged value of an unmodified `name(e)`. */
  lemma {:induction false} MergedByName(
      item: Item, kind: AggKind, merged: Option<real>, selection: Option<Expr>, shards: seq<Shard>, engine: Engine)
    requires item.Func? && item.args.Some? && |item.args.value| == 1 && item.args.value[0].ExprArg?
    requires KindOf(item.name) == Some(Plain(kind))
    requires merged == Combine(kind, Partials(kind, Shares(item, selection, shards, engine)))
    ensures AnswersName(item.name, merged, NumbersOver(item.args.value[0].expr, selection, shards, engine),
              SomeTable(shards))
  {
    var shares := Shares(item, selection, shards, engine);
    PartialsMerge(kind, shares);
    assert item.args.value == [ExprArg(item.args.value[0].expr)];
    ShareNumbers(item.args.value[0].expr, item, selection, shards, engine);
    if kind.Count? && !SomePresent(shares) {
      NoPartials(shares);
    }
    AggregateByName(item.name, kind, merged, Whole(shares), SomeTable(shards));
  }

  /** The merged value of an unmodified `count(*)`. */
  lemma {:induction false} StarCounts(
      item: Item, merged: Option<real>, selection: Option<Expr>, shards: seq<Shard>, engine: Engine)
    requires item.Func? && item.args.Some? && |item.args.value| == 1 && item.args.value[0].OtherArg?
    requires merged == Combine(Count, Partials(Count, Shares(item, selection, shards, engine)))
    ensures merged == if SomeTable(shards) then Some(PassingOver(selection, shards, engine) as real) else None
  {
    var shares := Shares(item, selection, shards, engine);
    PartialsMerge(Count, shares);
    StarShares(item, selection, shards, engine);
    if !SomePresent(shares) {
      NoPartials(shares);
    }
  }

  lemma {:induction false} NoPartials(shares: seq<Share>)
    requires !SomePresent(shares)
    ensures Partials(Count, shares) == []
  {
    if shares != [] {
      assert shares[0].Missing?;
      assert !SomePresent(shares[1..]);
      NoPartials(shares[1..]);
    }
  }
}
