/**
 Federated merges (src/federated/mod.rs, src/federated/provider.rs): concatenating row
 sets under a limit, and merging per-shard partial aggregates into the aggregate of the
 union. Numbers are exact reals.
 */
module Federated {
  import opened Bytes
  import opened Utf8
  import opened DataRow

  /** What a shard answers; rows are DataRow bodies. */
  datatype Response = Query(columns: nat, rows: seq<Text>) | EmptyQuery | Execution

  // ---------------------------------------------------------------------------
  // Row sets
  // ---------------------------------------------------------------------------

  function RowsIn(r: Response): seq<Text> {
    if r.Query? then r.rows else []
  }

  /** All rows of all responses, in shard order. */
  function AllRows(responses: seq<Response>): seq<Text> {
    FlatMap(responses, RowsIn)
  }

  function Flatten<T>(shards: seq<seq<T>>): seq<T> {
    FlatMap(shards, (s: seq<T>) => s)
  }

  datatype Merge = Merged(columns: Option<nat>, rows: seq<Text>) | SchemaMismatch | RowLimitExceeded

  /** Responses agree on the number of columns with what was seen before. */
  predicate SameColumns(responses: seq<Response>, columns: Option<nat>) {
    forall i, j :: 0 <= i < |responses| && 0 <= j < |responses| && responses[i].Query? && responses[j].Query? ==>
      responses[i].columns == responses[j].columns && (columns.Some? ==> responses[i].columns == columns.value)
  }

  /** One response into the accumulated result. */
  method Absorb(acc: Merge, r: Response, maxRows: nat) returns (next: Merge)
    requires acc.Merged? && |acc.rows| <= maxRows
    ensures next == Absorbed(acc, r, maxRows)
  {
    if !r.Query? {
      return acc;
    }
    if acc.columns.Some? && acc.columns.value != r.columns {
      return SchemaMismatch;
    }
    var rows := acc.rows;
    for i := 0 to |r.rows|
      invariant rows == acc.rows + r.rows[..i] && |rows| <= maxRows
    {
      if |rows| >= maxRows {
        return RowLimitExceeded;
      }
      rows := rows + [r.rows[i]];
    }
    assert r.rows[..|r.rows|] == r.rows;
    next := Merged(if acc.columns.Some? then acc.columns else Some(r.columns), rows);
  }

  function Absorbed(acc: Merge, r: Response, maxRows: nat): (next: Merge)
    requires acc.Merged? && |acc.rows| <= maxRows
    ensures next.Merged? ==> |next.rows| <= maxRows
  {
    if !r.Query? then acc
    else if acc.columns.Some? && acc.columns.value != r.columns then SchemaMismatch
    else if |acc.rows| + |r.rows| > maxRows then RowLimitExceeded
    else Merged(if acc.columns.Some? then acc.columns else Some(r.columns), acc.rows + r.rows)
  }

  function AbsorbAll(acc: Merge, responses: seq<Response>, maxRows: nat): Merge
    requires acc.Merged? ==> |acc.rows| <= maxRows
    decreases |responses|
  {
    if responses == [] || !acc.Merged? then acc
    else AbsorbAll(Absorbed(acc, responses[0], maxRows), responses[1..], maxRows)
  }

  /** `merge_query_responses`: the loops over shards and their responses, with early errors. */
  method MergeQueryResponses(shards: seq<seq<Response>>, maxRows: nat) returns (m: Merge)
    ensures m == AbsorbAll(Merged(None, []), Flatten(shards), maxRows)
  {
    m := Merged(None, []);
    for s := 0 to |shards|
      invariant m.Merged? && |m.rows| <= maxRows
      invariant m == AbsorbAll(Merged(None, []), Flatten(shards[..s]), maxRows)
    {
      ghost var before := Flatten(shards[..s]);
      assert before + shards[s][..0] == before;
      for i := 0 to |shards[s]|
        invariant m.Merged? && |m.rows| <= maxRows
        invariant m == AbsorbAll(Merged(None, []), before + shards[s][..i], maxRows)
      {
        ghost var seen := before + shards[s][..i];
        AbsorbSnoc(Merged(None, []), seen, shards[s][i], maxRows);
        assert before + shards[s][..i + 1] == seen + [shards[s][i]];
        m := Absorb(m, shards[s][i], maxRows);
        if !m.Merged? {
          StopEarly(shards, s, i, maxRows);
          return;
        }
      }
      FlatMapSnoc(shards, s, (x: seq<Response>) => x);
      assert shards[s][..|shards[s]|] == shards[s];
    }
    assert shards[..|shards|] == shards;
  }

  lemma {:induction false} AbsorbSnoc(acc: Merge, responses: seq<Response>, last: Response, maxRows: nat)
    requires acc.Merged? ==> |acc.rows| <= maxRows
    ensures var m := AbsorbAll(acc, responses, maxRows);
            && (m.Merged? ==> |m.rows| <= maxRows)
            && AbsorbAll(acc, responses + [last], maxRows) == if m.Merged? then Absorbed(m, last, maxRows) else m
    decreases |responses|
  {
    if responses == [] {
      assert (responses + [last])[1..] == [];
    } else if acc.Merged? {
      AbsorbSnoc(Absorbed(acc, responses[0], maxRows), responses[1..], last, maxRows);
      assert (responses + [last])[1..] == responses[1..] + [last];
    }
  }

  lemma {:induction false} AbsorbAppend(acc: Merge, a: seq<Response>, b: seq<Response>, maxRows: nat)
    requires acc.Merged? ==> |acc.rows| <= maxRows
    requires !AbsorbAll(acc, a, maxRows).Merged?
    ensures AbsorbAll(acc, a + b, maxRows) == AbsorbAll(acc, a, maxRows)
    decreases |a|
  {
    if acc.Merged? {
      AbsorbAppend(Absorbed(acc, a[0], maxRows), a[1..], b, maxRows);
      assert (a + b)[1..] == a[1..] + b;
    }
  }

  lemma {:induction false} StopEarly(shards: seq<seq<Response>>, s: nat, i: nat, maxRows: nat)
    requires s < |shards| && i < |shards[s]|
    requires !AbsorbAll(Merged(None, []), Flatten(shards[..s]) + shards[s][..i + 1], maxRows).Merged?
    ensures AbsorbAll(Merged(None, []), Flatten(shards), maxRows) ==
            AbsorbAll(Merged(None, []), Flatten(shards[..s]) + shards[s][..i + 1], maxRows)
  {
    var id := (x: seq<Response>) => x;
    FlatMapSnoc(shards, s, id);
    FlatMapAppend(shards[..s + 1], shards[s + 1..], id);
    assert shards == shards[..s + 1] + shards[s + 1..];
    var seen, rest := Flatten(shards[..s]) + shards[s][..i + 1], shards[s][i + 1..] + Flatten(shards[s + 1..]);
    assert Flatten(shards) == seen + rest;
    AbsorbAppend(Merged(None, []), seen, rest, maxRows);
  }

  /**
   Merging succeeds exactly when all row sets have the same number of columns and fit the
   limit together, and then gives every row once, in shard order.
   */
  lemma {:induction false} MergeSucceedsIff(acc: Merge, responses: seq<Response>, maxRows: nat)
    requires acc.Merged? && |acc.rows| <= maxRows
    ensures var m := AbsorbAll(acc, responses, maxRows);
            && (m.Merged? <==> SameColumns(responses, acc.columns) && |acc.rows| + |AllRows(responses)| <= maxRows)
            && (m.Merged? ==> m.rows == acc.rows + AllRows(responses))
    decreases |responses|
  {
    if responses != [] {
      var r, rest := responses[0], responses[1..];
      var next := Absorbed(acc, r, maxRows);
      ColumnsCons(responses, acc.columns);
      if next.Merged? {
        MergeSucceedsIff(next, rest, maxRows);
        Associative(acc.rows, RowsIn(r), AllRows(rest));
        assert next.rows == acc.rows + RowsIn(r);
      }
    }
  }

  /** The column check, one response at a time. */
  lemma {:induction false} ColumnsCons(responses: seq<Response>, columns: Option<nat>)
    requires responses != []
    ensures var r, rest := responses[0], responses[1..];
            SameColumns(responses, columns) <==>
              if r.Query? then
                (columns.Some? ==> columns.value == r.columns) &&
                  SameColumns(rest, if columns.Some? then columns else Some(r.columns))
              else SameColumns(rest, columns)
  {}

  function Take<T>(s: seq<T>, n: nat): seq<T> {
    if n <= |s| then s[..n] else s
  }

  /** Each shard cut to its first `n` rows, as a pushed-down LIMIT does. */
  function Limited<T>(shards: seq<seq<T>>, n: nat): seq<seq<T>> {
    if shards == [] then [] else [Take(shards[0], n)] + Limited(shards[1..], n)
  }

  /** LIMIT pushdown is invisible: `n` rows of the per-shard prefixes are `n` rows of the whole. */
  lemma {:induction false} LimitPushdown<T>(shards: seq<seq<T>>, n: nat)
    ensures var limited := Flatten(Limited(shards, n));
            var whole := Flatten(shards);
            && (n <= |whole| ==> n <= |limited| && limited[..n] == whole[..n])
            && (|whole| < n ==> limited == whole)
  {
    TakeOfLimited(shards, n, n);
    if |Flatten(shards)| < n {
      NothingCut(shards, n);
    }
  }

  /** What a pushed-down LIMIT leaves of one shard. */
  lemma {:induction false} LimitedIs<T>(shards: seq<seq<T>>, n: nat, i: nat)
    requires i < |shards|
    ensures |Limited(shards, n)| == |shards|
    ensures Limited(shards, n)[i] == shards[i][..if n < |shards[i]| then n else |shards[i]|]
  {
    if i > 0 {
      LimitedIs(shards[1..], n, i - 1);
    } else if |shards| > 1 {
      LimitedIs(shards[1..], n, 0);
    }
  }

  lemma {:induction false} NothingCut<T>(shards: seq<seq<T>>, n: nat)
    requires |Flatten(shards)| < n
    ensures Limited(shards, n) == shards
  {
    if shards != [] {
      NothingCut(shards[1..], n);
    }
  }

  lemma {:induction false} TakeOfLimited<T>(shards: seq<seq<T>>, n: nat, m: nat)
    requires n <= m
    ensures Take(Flatten(Limited(shards, m)), n) == Take(Flatten(shards), n)
  {
    if shards != [] {
      var head := shards[0];
      var left := if n <= |head| then 0 else n - |head|;
      TakeOfLimited(shards[1..], left, m);
      assert Limited(shards, m)[1..] == Limited(shards[1..], m);
      TakeAppend(Take(head, m), Flatten(Limited(shards[1..], m)), n);
      TakeAppend(head, Flatten(shards[1..]), n);
    }
  }

  lemma {:induction false} TakeAppend<T>(a: seq<T>, b: seq<T>, n: nat)
    ensures Take(a + b, n) == if n <= |a| then Take(a, n) else a + Take(b, n - |a|)
  {}

  // ---------------------------------------------------------------------------
  // Exact aggregates
  // ---------------------------------------------------------------------------

  datatype AggKind = Count | Sum | Min | Max

  function Total(s: seq<real>): real {
    if s == [] then 0.0 else s[0] + Total(s[1..])
  }

  function Least(s: seq<real>): (r: real)
    requires s != []
    ensures r in s && forall x :: x in s ==> r <= x
  {
    if |s| == 1 then s[0]
    else
      var r := Least(s[1..]);
      assert s == [s[0]] + s[1..];
      if s[0] < r then s[0] else r
  }

  function Greatest(s: seq<real>): (r: real)
    requires s != []
    ensures r in s && forall x :: x in s ==> x <= r
  {
    if |s| == 1 then s[0]
    else
      var r := Greatest(s[1..]);
      assert s == [s[0]] + s[1..];
      if s[0] > r then s[0] else r
  }

  lemma {:induction false} TotalAppend(a: seq<real>, b: seq<real>)
    ensures Total(a + b) == Total(a) + Total(b)
  {
    if a == [] {
      assert a + b == b;
    } else {
      TotalAppend(a[1..], b);
      assert (a + b)[1..] == a[1..] + b;
    }
  }

  /** The non-NULL values of a column. */
  function NonNull(values: seq<Option<real>>): seq<real> {
    FlatMap(values, (v: Option<real>) => if v.Some? then [v.value] else [])
  }

  /** The SQL aggregate of a column: NULL over no values, except that COUNT is zero. */
  function Aggregate(kind: AggKind, values: seq<Option<real>>): Option<real> {
    var xs := NonNull(values);
    match kind
    case Count => Some(|xs| as real)
    case Sum => if xs == [] then None else Some(Total(xs))
    case Min => if xs == [] then None else Some(Least(xs))
    case Max => if xs == [] then None else Some(Greatest(xs))
  }

  // ---------------------------------------------------------------------------
  // Merging partial aggregates
  // ---------------------------------------------------------------------------

  /** `first_cell_f64` over all rows of all responses. */
  function FirstNumber(row: Text, parse: Text -> Option<real>): seq<real> {
    match FirstCell(row)
    case None => []
    case Some(text) => if parse(text).Some? then [parse(text).value] else []
  }

  function FirstNumbers(rows: seq<Text>, parse: Text -> Option<real>): seq<real> {
    FlatMap(rows, row => FirstNumber(row, parse))
  }

  /** The merged value; `None` is an empty response. */
  function Combine(kind: AggKind, values: seq<real>): Option<real> {
    if values == [] then None
    else
      match kind
      case Count => Some(Total(values))
      case Sum => Some(Total(values))
      case Min => Some(Least(values))
      case Max => Some(Greatest(values))
  }

  /** `merge_scalar_aggregate` */
  method MergeScalarAggregate(
      shards: seq<seq<Response>>, kind: AggKind, parse: Text -> Option<real>)
    returns (r: Option<real>)
    ensures r == Combine(kind, FirstNumbers(AllRows(Flatten(shards)), parse))
  {
    var rows := CollectRows(shards);
    var values: seq<real> := [];
    for i := 0 to |rows|
      invariant values == FirstNumbers(rows[..i], parse)
    {
      FlatMapSnoc(rows, i, (row: Text) => FirstNumber(row, parse));
      values := values + FirstNumber(rows[i], parse);
    }
    assert rows[..|rows|] == rows;
    if values == [] {
      return None;
    }
    var acc := values[0];
    assert values[..1] == [acc];
    CombineOne(kind, acc);
    for i := 1 to |values|
      invariant Some(acc) == Combine(kind, values[..i])
    {
      CombineSnoc(kind, values[..i], values[i]);
      assert values[..i + 1] == values[..i] + [values[i]];
      if kind.Count? || kind.Sum? {
        acc := acc + values[i];
      } else if kind.Min? {
        acc := if values[i] < acc then values[i] else acc;
      } else {
        acc := if values[i] > acc then values[i] else acc;
      }
    }
    assert values[..|values|] == values;
    r := Some(acc);
  }

  /** The nested loops over shards, responses and rows. */
  method CollectRows(shards: seq<seq<Response>>) returns (rows: seq<Text>)
    ensures rows == AllRows(Flatten(shards))
  {
    rows := [];
    for s := 0 to |shards|
      invariant rows == AllRows(Flatten(shards[..s]))
    {
      ghost var before := Flatten(shards[..s]);
      assert before + shards[s][..0] == before;
      for i := 0 to |shards[s]|
        invariant rows == AllRows(before + shards[s][..i])
      {
        assert before + shards[s][..i + 1] == (before + shards[s][..i]) + [shards[s][i]];
        FlatMapAppend(before + shards[s][..i], [shards[s][i]], RowsIn);
        assert FlatMap([shards[s][i]][1..], RowsIn) == [];
        if shards[s][i].Query? {
          rows := rows + shards[s][i].rows;
        }
      }
      FlatMapSnoc(shards, s, (x: seq<Response>) => x);
      assert shards[s][..|shards[s]|] == shards[s];
    }
    assert shards[..|shards|] == shards;
  }

  lemma {:induction false} CombineOne(kind: AggKind, x: real)
    ensures Combine(kind, [x]) == Some(x) && Total([x]) == x
  {
    assert [x][1..] == [] && Total([]) == 0.0;
  }

  lemma {:induction false} LeastIs(s: seq<real>, m: real)
    requires m in s && forall x :: x in s ==> m <= x
    ensures Least(s) == m
  {}

  lemma {:induction false} GreatestIs(s: seq<real>, m: real)
    requires m in s && forall x :: x in s ==> x <= m
    ensures Greatest(s) == m
  {}

  lemma {:induction false} CombineSnoc(kind: AggKind, values: seq<real>, x: real)
    requires values != []
    ensures Combine(kind, values).Some?
    ensures Combine(kind, values + [x]) ==
            var acc := Combine(kind, values).value;
            match kind
            case Count => Some(acc + x)
            case Sum => Some(acc + x)
            case Min => Some(if x < acc then x else acc)
            case Max => Some(if x > acc then x else acc)
  {
    TotalAppend(values, [x]);
    CombineOne(kind, x);
    LeastIs(values + [x], if x < Least(values) then x else Least(values));
    GreatestIs(values + [x], if x > Greatest(values) then x else Greatest(values));
  }

  // ---------------------------------------------------------------------------
  // Partial aggregates of a partition
  // ---------------------------------------------------------------------------

  /** A shard's share of the table: rows that pass the WHERE clause, or no table at all. */
  datatype Share = Missing | Present(values: seq<Option<real>>)

  function ValuesOf(s: Share): seq<Option<real>> {
    if s.Present? then s.values else []
  }

  /** The union of all shares. */
  function Whole(shares: seq<Share>): seq<Option<real>> {
    FlatMap(shares, ValuesOf)
  }

  /** Printed numbers are text that fits a cell. */
  ghost predicate PrintsText(print_: real -> Text) {
    forall x: real :: |print_(x)| < TWO_31 && Valid(print_(x))
  }

  /** A number printed by a shard and parsed by the router comes back unchanged. */
  predicate ReadsBack(x: Option<real>, print_: real -> Text, parse: Text -> Option<real>) {
    x.Some? ==> parse(print_(x.value)) == x
  }

  /** Every partial result is printed so that it reads back. */
  ghost predicate Prints(kind: AggKind, shares: seq<Share>, print_: real -> Text, parse: Text -> Option<real>) {
    && PrintsText(print_)
    && forall s :: s in shares && s.Present? ==> ReadsBack(Aggregate(kind, s.values), print_, parse)
  }

  function NumberCell(x: Option<real>, print_: real -> Text): WireCell {
    match x
    case None => NullCell(-1)
    case Some(v) => DataCell(print_(v))
  }

  /** A shard's answer to the aggregate query; a missing table answers nothing. */
  ghost function Answer(kind: AggKind, s: Share, print_: real -> Text): seq<Response>
    requires forall x: real :: |print_(x)| < TWO_31
  {
    if s.Missing? then []
    else [Query(1, [Encode([NumberCell(Aggregate(kind, s.values), print_)])])]
  }

  ghost function Answers(kind: AggKind, shares: seq<Share>, print_: real -> Text): seq<seq<Response>>
    requires forall x: real :: |print_(x)| < TWO_31
  {
    if shares == [] then [] else [Answer(kind, shares[0], print_)] + Answers(kind, shares[1..], print_)
  }

  /** The partial results, NULLs dropped. */
  function Partials(kind: AggKind, shares: seq<Share>): seq<real> {
    if shares == [] then []
    else
      (if shares[0].Present? && Aggregate(kind, shares[0].values).Some?
       then [Aggregate(kind, shares[0].values).value] else []) + Partials(kind, shares[1..])
  }

  /** The router reads exactly the partial results off the wire. */
  lemma {:induction false} ReadsPartials(
      kind: AggKind, shares: seq<Share>, print_: real -> Text, parse: Text -> Option<real>)
    requires Prints(kind, shares, print_, parse)
    ensures FirstNumbers(AllRows(Flatten(Answers(kind, shares, print_))), parse) == Partials(kind, shares)
  {
    if shares != [] {
      var answers := Answers(kind, shares, print_);
      var head, rest := answers[0], Flatten(answers[1..]);
      ReadsPartials(kind, shares[1..], print_, parse);
      assert answers[1..] == Answers(kind, shares[1..], print_);
      FlatMapAppend(head, rest, RowsIn);
      FlatMapAppend(AllRows(head), AllRows(rest), (row: Text) => FirstNumber(row, parse));
      ReadsOne(kind, shares[0], print_, parse);
    }
  }

  lemma {:induction false} ReadsOne(kind: AggKind, s: Share, print_: real -> Text, parse: Text -> Option<real>)
    requires PrintsText(print_)
    requires s.Present? ==> ReadsBack(Aggregate(kind, s.values), print_, parse)
    ensures FirstNumbers(AllRows(Answer(kind, s, print_)), parse) ==
            if s.Present? && Aggregate(kind, s.values).Some? then [Aggregate(kind, s.values).value] else []
  {
    if s.Present? {
      var answer := Aggregate(kind, s.values);
      var cell := NumberCell(answer, print_);
      var row := Encode([cell]);
      assert [cell][1..] == [] && Encode([cell][1..]) == [];
      ReadEncoded(cell, []);
      var response := Answer(kind, s, print_);
      assert FlatMap(response[1..], RowsIn) == [] && AllRows(response) == [row];
      assert FlatMap([row][1..], (r: Text) => FirstNumber(r, parse)) == [];
    }
  }

  lemma {:induction false} WholeCons(shares: seq<Share>)
    requires shares != []
    ensures NonNull(Whole(shares)) == NonNull(ValuesOf(shares[0])) + NonNull(Whole(shares[1..]))
  {
    FlatMapAppend(ValuesOf(shares[0]), Whole(shares[1..]), (v: Option<real>) => if v.Some? then [v.value] else []);
  }

  /** Partial sums add up, and are absent exactly when there is nothing to add. */
  lemma {:induction false} SumsAgree(shares: seq<Share>)
    ensures Total(Partials(Sum, shares)) == Total(NonNull(Whole(shares)))
    ensures Partials(Sum, shares) == [] <==> NonNull(Whole(shares)) == []
  {
    if shares != [] {
      SumsAgree(shares[1..]);
      WholeCons(shares);
      var xs := NonNull(ValuesOf(shares[0]));
      TotalAppend(xs, NonNull(Whole(shares[1..])));
      OneTotal(if xs == [] then [] else [Total(xs)], Partials(Sum, shares[1..]));
    }
  }

  /** Partial counts add up, and are absent exactly when every share is missing. */
  lemma {:induction false} CountsAgree(shares: seq<Share>)
    ensures Total(Partials(Count, shares)) == |NonNull(Whole(shares))| as real
    ensures Partials(Count, shares) == [] <==> !SomePresent(shares)
  {
    if shares != [] {
      CountsAgree(shares[1..]);
      WholeCons(shares);
      var xs := NonNull(ValuesOf(shares[0]));
      OneTotal(if shares[0].Present? then [|xs| as real] else [], Partials(Count, shares[1..]));
    }
  }

  predicate SomePresent(shares: seq<Share>) {
    shares != [] && (shares[0].Present? || SomePresent(shares[1..]))
  }

  lemma {:induction false} OneTotal(one: seq<real>, rest: seq<real>)
    requires |one| <= 1
    ensures Total(one + rest) == (if one == [] then 0.0 else one[0]) + Total(rest)
  {
    if one == [] {
      assert one + rest == rest;
    } else {
      assert (one + rest)[1..] == rest;
    }
  }

  /** Every partial extreme is a value of the union, and some partial bounds every value of it. */
  lemma {:induction false} ExtremesCover(shares: seq<Share>, x: real)
    ensures x in Partials(Min, shares) || x in Partials(Max, shares) ==> x in NonNull(Whole(shares))
    ensures x in NonNull(Whole(shares)) ==> exists p :: p in Partials(Min, shares) && p <= x
    ensures x in NonNull(Whole(shares)) ==> exists p :: p in Partials(Max, shares) && p >= x
  {
    if shares != [] {
      WholeCons(shares);
      ExtremesCover(shares[1..], x);
      var xs := NonNull(ValuesOf(shares[0]));
      if x in xs {
        assert Least(xs) in Partials(Min, shares) && Least(xs) <= x;
        assert Greatest(xs) in Partials(Max, shares) && Greatest(xs) >= x;
      } else if x in NonNull(Whole(shares[1..])) {
        var p :| p in Partials(Min, shares[1..]) && p <= x;
        var q :| q in Partials(Max, shares[1..]) && q >= x;
        assert p in Partials(Min, shares) && q in Partials(Max, shares);
      }
    }
  }

  lemma {:induction false} MinimaAgree(shares: seq<Share>)
    ensures Combine(Min, Partials(Min, shares)) == Aggregate(Min, Whole(shares))
  {
    var whole, mins := NonNull(Whole(shares)), Partials(Min, shares);
    if mins != [] {
      ExtremesCover(shares, Least(mins));
    }
    if whole != [] {
      ExtremesCover(shares, Least(whole));
    }
  }

  lemma {:induction false} MaximaAgree(shares: seq<Share>)
    ensures Combine(Max, Partials(Max, shares)) == Aggregate(Max, Whole(shares))
  {
    var whole, maxs := NonNull(Whole(shares)), Partials(Max, shares);
    if maxs != [] {
      ExtremesCover(shares, Greatest(maxs));
    }
    if whole != [] {
      ExtremesCover(shares, Greatest(whole));
    }
  }

  /**
   Distributed aggregation is exact: for every partition of the rows, empty and missing
   shares included, the merged value is the aggregate of the union. Only COUNT needs at
   least one shard that has the table; with none the merge is empty instead of zero.
   */
  lemma {:induction false} MergedIsAggregate(
      kind: AggKind, shares: seq<Share>, print_: real -> Text, parse: Text -> Option<real>)
    requires Prints(kind, shares, print_, parse)
    ensures var merged := Combine(kind, FirstNumbers(AllRows(Flatten(Answers(kind, shares, print_))), parse));
            merged == Aggregate(kind, Whole(shares)) <==> !kind.Count? || SomePresent(shares)
  {
    ReadsPartials(kind, shares, print_, parse);
    PartialsMerge(kind, shares);
  }

  /** Partial results combine to the aggregate of the union, except a COUNT of no table at all. */
  lemma {:induction false} PartialsMerge(kind: AggKind, shares: seq<Share>)
    ensures Combine(kind, Partials(kind, shares)) == Aggregate(kind, Whole(shares)) <==>
            !kind.Count? || SomePresent(shares)
  {
    SumsAgree(shares);
    CountsAgree(shares);
    MinimaAgree(shares);
    MaximaAgree(shares);
  }
}
