/**
 Column building for federated scans (src/federated/pg_types.rs): the fast builder works
 on wire rows in one pass, the slow one on decoded cells; they must give the same columns.
 */
module Columns {
  import opened Bytes
  import opened DataRow

  type PgType = nat
  type ArrowType = nat

  datatype PgField = PgField(name: Text, pgType: PgType)
  datatype TargetField = TargetField(name: Text, arrowType: ArrowType)

  /** One typed column; how a cell text becomes a typed value depends on the type alone. */
  datatype Column = Column(arrowType: ArrowType, values: seq<Option<Text>>)

  // ---------------------------------------------------------------------------
  // Column index
  // ---------------------------------------------------------------------------

  /** `build_pg_field_index`: lower-cased name to position; the last of equal names wins. */
  function FieldIndex(fields: seq<PgField>): map<Text, nat> {
    if fields == [] then map[]
    else FieldIndex(fields[..|fields| - 1])[Lower(fields[|fields| - 1].name) := |fields| - 1]
  }

  method BuildPgFieldIndex(fields: seq<PgField>) returns (index: map<Text, nat>)
    ensures index == FieldIndex(fields)
  {
    index := map[];
    for i := 0 to |fields|
      invariant index == FieldIndex(fields[..i])
    {
      index := index[Lower(fields[i].name) := i];
      assert fields[..i + 1][..i] == fields[..i];
    }
    assert fields[..|fields|] == fields;
  }

  /** A name resolves to the last field that matches it in any case, and to nothing else. */
  lemma {:induction false} FieldIndexIsLastMatch(fields: seq<PgField>, name: Text)
    ensures Lower(name) in FieldIndex(fields) <==> exists i :: 0 <= i < |fields| && EqIgnoreCase(fields[i].name, name)
    ensures Lower(name) in FieldIndex(fields) ==>
              var i := FieldIndex(fields)[Lower(name)];
              && i < |fields| && EqIgnoreCase(fields[i].name, name)
              && forall j :: i < j < |fields| ==> !EqIgnoreCase(fields[j].name, name)
  {
    if fields != [] {
      var front := fields[..|fields| - 1];
      FieldIndexIsLastMatch(front, name);
      assert forall j :: 0 <= j < |front| ==> front[j] == fields[j];
      if EqIgnoreCase(fields[|fields| - 1].name, name) {
        assert FieldIndex(fields)[Lower(name)] == |fields| - 1;
      } else if Lower(name) in FieldIndex(front) {
        assert EqIgnoreCase(fields[FieldIndex(front)[Lower(name)]].name, name);
      }
    }
  }

  /** The position a target column reads from. */
  function Position(index: map<Text, nat>, target: TargetField): Option<nat> {
    if Lower(target.name) in index then Some(index[Lower(target.name)]) else None
  }

  /** The PG type when the column is known, else the type the schema asks for. */
  function ColumnType(
      index: map<Text, nat>, fields: seq<PgField>, target: TargetField, toArrow: PgType -> ArrowType): ArrowType
  {
    match Position(index, target)
    case Some(i) => if i < |fields| then toArrow(fields[i].pgType) else target.arrowType
    case None => target.arrowType
  }

  function CellAt(position: Option<nat>, cells: seq<Option<Text>>): Option<Text> {
    match position
    case Some(i) => if i < |cells| then cells[i] else None
    case None => None
  }

  /** The values of one column, row by row. */
  function ColumnValues(position: Option<nat>, rows: seq<seq<Option<Text>>>): (r: seq<Option<Text>>)
    ensures |r| == |rows|
    ensures forall k :: 0 <= k < |rows| ==> r[k] == CellAt(position, rows[k])
  {
    seq(|rows|, k requires 0 <= k < |rows| => CellAt(position, rows[k]))
  }

  /** `rows_to_typed_batch_for_schema`: the columns of decoded rows. */
  function Batch(
      schema: seq<TargetField>, fields: seq<PgField>, rows: seq<seq<Option<Text>>>,
      toArrow: PgType -> ArrowType): (r: seq<Column>)
    ensures |r| == |schema|
  {
    var index := FieldIndex(fields);
    seq(|schema|, c requires 0 <= c < |schema| =>
      Column(ColumnType(index, fields, schema[c], toArrow), ColumnValues(Position(index, schema[c]), rows)))
  }

  // ---------------------------------------------------------------------------
  // The two decodings of a list of wire rows
  // ---------------------------------------------------------------------------

  function DecodeAll(rows: seq<Text>, colCount: nat): (r: seq<seq<Option<Text>>>)
    ensures |r| == |rows| && forall k :: 0 <= k < |rows| ==> r[k] == Cells(rows[k], colCount)
  {
    seq(|rows|, k requires 0 <= k < |rows| => Cells(rows[k], colCount))
  }

  function RefsAll(rows: seq<Text>): (r: seq<seq<Option<Text>>>)
    ensures |r| == |rows| && forall k :: 0 <= k < |rows| ==> r[k] == CellRefs(rows[k])
  {
    seq(|rows|, k requires 0 <= k < |rows| => CellRefs(rows[k]))
  }

  /**
   `pg_rows_to_typed_batch_for_schema`: one pass over the wire rows, pushing one value per
   target column, then one typed array per column.
   */
  method FastBatch(
      schema: seq<TargetField>, fields: seq<PgField>, index: map<Text, nat>, rows: seq<Text>,
      toArrow: PgType -> ArrowType)
    returns (batch: seq<Column>)
    ensures |batch| == |schema|
    ensures forall c :: 0 <= c < |schema| ==>
              batch[c] == Column(ColumnType(index, fields, schema[c], toArrow),
                ColumnValues(Position(index, schema[c]), RefsAll(rows)))
    ensures index == FieldIndex(fields) ==> ColumnsByName(batch, schema, fields, RefsAll(rows), toArrow)
  {
    if index == FieldIndex(fields) {
      BatchByName(schema, fields, RefsAll(rows), toArrow);
    }
    var columns := CollectColumns(schema, index, rows);
    batch := [];
    for c := 0 to |schema|
      invariant |batch| == c
      invariant forall k :: 0 <= k < c ==> batch[k] == Column(ColumnType(index, fields, schema[k], toArrow), columns[k])
    {
      batch := batch + [Column(ColumnType(index, fields, schema[c], toArrow), columns[c])];
    }
    assert index == FieldIndex(fields) ==> batch == Batch(schema, fields, RefsAll(rows), toArrow);
  }

  /** `value` is the cell at the indexed position, and NULL when there is none. */
  predicate Picks(index: map<Text, nat>, name: Text, cells: seq<Option<Text>>, value: Option<Text>) {
    if Lower(name) in index && index[Lower(name)] < |cells| then value == cells[index[Lower(name)]] else value == None
  }

  method CollectColumns(
      schema: seq<TargetField>, index: map<Text, nat>, rows: seq<Text>)
    returns (columns: seq<seq<Option<Text>>>)
    ensures |columns| == |schema|
    ensures forall c :: 0 <= c < |schema| ==> columns[c] == ColumnValues(Position(index, schema[c]), RefsAll(rows))
    ensures forall c :: 0 <= c < |schema| ==> |columns[c]| == |rows|
    ensures forall c, k :: 0 <= c < |schema| && 0 <= k < |rows| ==>
              Picks(index, schema[c].name, CellRefs(rows[k]), columns[c][k])
  {
    columns := seq(|schema|, _ => []);
    for r := 0 to |rows|
      invariant |columns| == |schema|
      invariant forall c :: 0 <= c < |schema| ==>
                columns[c] == ColumnValues(Position(index, schema[c]), RefsAll(rows)[..r])
    {
      var cells := DecodeRowCellRefs(rows[r]);
      columns := PushRow(schema, index, cells, columns);
      forall c | 0 <= c < |schema|
        ensures columns[c] == ColumnValues(Position(index, schema[c]), RefsAll(rows)[..r + 1])
      {
        assert RefsAll(rows)[..r + 1] == RefsAll(rows)[..r] + [cells];
      }
    }
    assert RefsAll(rows)[..|rows|] == RefsAll(rows);
  }

  /** The inner loop: one decoded row adds one value to every column. */
  method PushRow(
      schema: seq<TargetField>, index: map<Text, nat>, cells: seq<Option<Text>>, columns: seq<seq<Option<Text>>>)
    returns (pushed: seq<seq<Option<Text>>>)
    requires |columns| == |schema|
    ensures |pushed| == |schema|
    ensures forall c :: 0 <= c < |schema| ==> pushed[c] == columns[c] + [CellAt(Position(index, schema[c]), cells)]
    ensures forall c :: 0 <= c < |schema| ==> |pushed[c]| == |columns[c]| + 1
    ensures forall c :: 0 <= c < |schema| ==> Picks(index, schema[c].name, cells, pushed[c][|columns[c]|])
  {
    pushed := columns;
    for c := 0 to |schema|
      invariant |pushed| == |schema|
      invariant forall k :: 0 <= k < c ==> pushed[k] == columns[k] + [CellAt(Position(index, schema[k]), cells)]
      invariant forall k :: c <= k < |schema| ==> pushed[k] == columns[k]
    {
      pushed := pushed[c := pushed[c] + [CellAt(Position(index, schema[c]), cells)]];
    }
  }

  /** A known position always lies within the field list. */
  lemma {:induction false} PositionInFields(fields: seq<PgField>, target: TargetField)
    ensures var p := Position(FieldIndex(fields), target); p.Some? ==> p.value < |fields|
  {
    FieldIndexIsLastMatch(fields, target.name);
  }

  // ---------------------------------------------------------------------------
  // What a column holds, by name
  // ---------------------------------------------------------------------------

  /** Field `i` is the last one of that name, in any case. */
  predicate IsLastNamed(fields: seq<PgField>, name: Text, i: nat) {
    && i < |fields| && EqIgnoreCase(fields[i].name, name)
    && forall j :: i < j < |fields| ==> !EqIgnoreCase(fields[j].name, name)
  }

  predicate Unnamed(fields: seq<PgField>, name: Text) {
    forall j :: 0 <= j < |fields| ==> !EqIgnoreCase(fields[j].name, name)
  }

  /** The column has the field's type and, row by row, its cells; a row that is too short has NULL. */
  predicate HoldsField(
      column: Column, field: PgField, i: nat, rows: seq<seq<Option<Text>>>, toArrow: PgType -> ArrowType)
  {
    && column.arrowType == toArrow(field.pgType)
    && |column.values| == |rows|
    && forall k :: 0 <= k < |rows| ==> column.values[k] == if i < |rows[k]| then rows[k][i] else None
  }

  /** The column has the type the schema asks for and NULL in every row. */
  predicate HoldsNothing(column: Column, target: TargetField, rows: nat) {
    && column.arrowType == target.arrowType
    && |column.values| == rows
    && forall k :: 0 <= k < rows ==> column.values[k] == None
  }

  /** Every target column holds the last field of its name, and nothing when there is none. */
  ghost predicate ColumnsByName(
      batch: seq<Column>, schema: seq<TargetField>, fields: seq<PgField>, rows: seq<seq<Option<Text>>>,
      toArrow: PgType -> ArrowType)
  {
    && |batch| == |schema|
    && (forall c, i :: 0 <= c < |schema| && 0 <= i < |fields| && IsLastNamed(fields, schema[c].name, i) ==>
          HoldsField(batch[c], fields[i], i, rows, toArrow))
    && (forall c :: 0 <= c < |schema| && Unnamed(fields, schema[c].name) ==>
          HoldsNothing(batch[c], schema[c], |rows|))
  }

  lemma {:induction false} IndexFindsLast(fields: seq<PgField>, name: Text, i: nat)
    requires IsLastNamed(fields, name, i)
    ensures Lower(name) in FieldIndex(fields) && FieldIndex(fields)[Lower(name)] == i
  {
    FieldIndexIsLastMatch(fields, name);
  }

  /** The columns of decoded rows, told by the fields' names alone. */
  lemma {:induction false} BatchByName(
      schema: seq<TargetField>, fields: seq<PgField>, rows: seq<seq<Option<Text>>>, toArrow: PgType -> ArrowType)
    ensures ColumnsByName(Batch(schema, fields, rows, toArrow), schema, fields, rows, toArrow)
  {
    var batch := Batch(schema, fields, rows, toArrow);
    forall c, i | 0 <= c < |schema| && 0 <= i < |fields| && IsLastNamed(fields, schema[c].name, i)
      ensures HoldsField(batch[c], fields[i], i, rows, toArrow)
    {
      IndexFindsLast(fields, schema[c].name, i);
    }
    forall c | 0 <= c < |schema| && Unnamed(fields, schema[c].name)
      ensures HoldsNothing(batch[c], schema[c], |rows|)
    {
      FieldIndexIsLastMatch(fields, schema[c].name);
    }
  }

  // ---------------------------------------------------------------------------
  // The two builders
  // ---------------------------------------------------------------------------

  /** Every cell that some target column reads is decoded alike from this row. */
  predicate ReadsReliably(schema: seq<TargetField>, fields: seq<PgField>, row: Text) {
    forall c :: 0 <= c < |schema| ==> ColumnReliable(Position(FieldIndex(fields), schema[c]), row)
  }

  predicate ColumnReliable(position: Option<nat>, row: Text) {
    position.Some? ==> ReliableAt(row, position.value)
  }

  lemma {:induction false} SameColumnIff(position: Option<nat>, rows: seq<Text>, colCount: nat)
    requires position.Some? ==> position.value < colCount
    ensures ColumnValues(position, RefsAll(rows)) == ColumnValues(position, DecodeAll(rows, colCount)) <==>
            forall k :: 0 <= k < |rows| ==> ColumnReliable(position, rows[k])
  {
    forall k | 0 <= k < |rows|
      ensures CellAt(position, CellRefs(rows[k])) == CellAt(position, Cells(rows[k], colCount)) <==>
              ColumnReliable(position, rows[k])
    {
      if position.Some? {
        DecodersAgreeIff(rows[k], colCount, position.value);
      }
    }
    var a, b := ColumnValues(position, RefsAll(rows)), ColumnValues(position, DecodeAll(rows, colCount));
    assert a == b <==> forall k :: 0 <= k < |rows| ==> a[k] == b[k];
  }

  /**
   The fast builder against the slow one, on every list of wire rows: the two give every
   column the same type and values, duplicate and differently-cased names included, exactly
   when every row decodes alike at the positions the schema reads.
   */
  lemma {:induction false} FastEqualsSlowIff(
      schema: seq<TargetField>, fields: seq<PgField>, rows: seq<Text>, toArrow: PgType -> ArrowType)
    ensures Batch(schema, fields, RefsAll(rows), toArrow) ==
            Batch(schema, fields, DecodeAll(rows, |fields|), toArrow) <==>
            forall k :: 0 <= k < |rows| ==> ReadsReliably(schema, fields, rows[k])
  {
    var index := FieldIndex(fields);
    var fast, slow := Batch(schema, fields, RefsAll(rows), toArrow),
      Batch(schema, fields, DecodeAll(rows, |fields|), toArrow);
    forall c | 0 <= c < |schema|
      ensures fast[c] == slow[c] <==>
              forall k :: 0 <= k < |rows| ==> ColumnReliable(Position(index, schema[c]), rows[k])
    {
      PositionInFields(fields, schema[c]);
      SameColumnIff(Position(index, schema[c]), rows, |fields|);
    }
    assert fast == slow <==> forall c :: 0 <= c < |schema| ==> fast[c] == slow[c];
  }

  /** In particular, on rows without truncated cells the fast builder refines the slow one. */
  lemma {:induction false} FastRefinesSlow(
      schema: seq<TargetField>, fields: seq<PgField>, rows: seq<Text>, toArrow: PgType -> ArrowType)
    requires forall row :: row in rows ==> WellFramed(row)
    ensures Batch(schema, fields, RefsAll(rows), toArrow) == Batch(schema, fields, DecodeAll(rows, |fields|), toArrow)
  {
    FastEqualsSlowIff(schema, fields, rows, toArrow);
    forall k, c | 0 <= k < |rows| && 0 <= c < |schema|
      ensures ColumnReliable(Position(FieldIndex(fields), schema[c]), rows[k])
    {
      var position := Position(FieldIndex(fields), schema[c]);
      if position.Some? {
        WellFramedIsReliable(rows[k], position.value);
      }
    }
  }

  /** Both builders as the source composes them, on the same wire rows. */
  method BothBuilders(schema: seq<TargetField>, fields: seq<PgField>, rows: seq<Text>, toArrow: PgType -> ArrowType)
    returns (fast: seq<Column>, slow: seq<Column>)
    ensures ColumnsByName(fast, schema, fields, RefsAll(rows), toArrow)
    ensures ColumnsByName(slow, schema, fields, DecodeAll(rows, |fields|), toArrow)
    ensures fast == slow <==> forall k :: 0 <= k < |rows| ==> ReadsReliably(schema, fields, rows[k])
  {
    var index := BuildPgFieldIndex(fields);
    fast := FastBatch(schema, fields, index, rows, toArrow);
    var decoded: seq<seq<Option<Text>>> := [];
    for k := 0 to |rows|
      invariant decoded == DecodeAll(rows, |fields|)[..k]
    {
      var cells := DecodeRowCells(rows[k], |fields|);
      decoded := decoded + [cells];
    }
    assert DecodeAll(rows, |fields|)[..|rows|] == DecodeAll(rows, |fields|);
    slow := Batch(schema, fields, decoded, toArrow);
    assert fast == Batch(schema, fields, RefsAll(rows), toArrow);
    FastEqualsSlowIff(schema, fields, rows, toArrow);
    BatchByName(schema, fields, RefsAll(rows), toArrow);
    BatchByName(schema, fields, DecodeAll(rows, |fields|), toArrow);
  }
}
