/**
 PostgreSQL DataRow bodies ("Message Formats", section 55.7 of the PostgreSQL 16
 documentation) and the decoders that read them: all cells as slices, a fixed number of
 cells, the first cell, and cells as numbers (src/federated/pg_types.rs,
 src/federated/arrow.rs).
 */
module DataRow {
  import opened Bytes
  import opened Utf8

  // ---------------------------------------------------------------------------
  // Wire format
  // ---------------------------------------------------------------------------

  const TWO_31 := 0x8000_0000
  const TWO_32 := 0x1_0000_0000

  /** `get_i32`: four bytes, big-endian, two's complement. */
  function GetI32(s: Text): (n: int)
    requires |s| >= 4
    ensures -TWO_31 <= n < TWO_31
  {
    var u := (((s[0] as int) * 256 + s[1]) * 256 + s[2]) * 256 + s[3];
    if u < TWO_31 then u else u - TWO_32
  }

  function PutI32(n: int): (s: Text)
    requires -TWO_31 <= n < TWO_31
    ensures |s| == 4
  {
    var u := if n < 0 then n + TWO_32 else n;
    [u / 0x100_0000, u / 0x1_0000 % 256, u / 256 % 256, u % 256]
  }

  lemma {:induction false} I32RoundTrip(n: int)
    requires -TWO_31 <= n < TWO_31
    ensures GetI32(PutI32(n)) == n
  {
    var u := if n < 0 then n + TWO_32 else n;
    assert u / 0x1_0000 == u / 256 / 256 && u / 0x100_0000 == u / 256 / 256 / 256;
  }

  /** A cell on the wire: any negative length means NULL. */
  datatype WireCell = NullCell(length: int) | DataCell(bytes: Text)

  predicate Encodable(c: WireCell) {
    match c
    case NullCell(n) => -TWO_31 <= n < 0
    case DataCell(b) => |b| < TWO_31
  }

  function EncodeCell(c: WireCell): Text
    requires Encodable(c)
  {
    match c
    case NullCell(n) => PutI32(n)
    case DataCell(b) => PutI32(|b|) + b
  }

  function Encode(cells: seq<WireCell>): Text
    requires forall c :: c in cells ==> Encodable(c)
  {
    if cells == [] then [] else EncodeCell(cells[0]) + Encode(cells[1..])
  }

  /** What a decoder reports for a cell: NULL and ill-formed text are both absent. */
  function CellText(c: WireCell): Option<Text> {
    match c
    case NullCell(_) => None
    case DataCell(b) => FromUtf8(b)
  }

  // ---------------------------------------------------------------------------
  // One cell
  // ---------------------------------------------------------------------------

  /** The front of a buffer: too short for a length, a truncated cell, or a cell and the rest. */
  datatype Front = Exhausted | Truncated(rest: Text) | Cell(text: Option<Text>, rest: Text)

  function ReadCell(buf: Text): (f: Front)
    ensures !f.Exhausted? ==> |f.rest| < |buf|
  {
    if |buf| < 4 then Exhausted
    else
      var len := GetI32(buf);
      var rest := buf[4..];
      if len < 0 then Cell(None, rest)
      else if |rest| < len then Truncated(rest)
      else Cell(FromUtf8(rest[..len]), rest[len..])
  }

  lemma {:induction false} LengthInFront(n: int, rest: Text)
    requires -TWO_31 <= n < TWO_31
    ensures var buf := PutI32(n) + rest; |buf| >= 4 && GetI32(buf) == n && buf[4..] == rest
  {
    var head := PutI32(n);
    I32RoundTrip(n);
    assert forall i :: 0 <= i < 4 ==> (head + rest)[i] == head[i];
  }

  lemma {:induction false} ReadEncoded(c: WireCell, rest: Text)
    requires Encodable(c)
    ensures ReadCell(EncodeCell(c) + rest) == Cell(CellText(c), rest)
  {
    match c
    case NullCell(n) =>
      LengthInFront(n, rest);
    case DataCell(b) =>
      Associative(PutI32(|b|), b, rest);
      LengthInFront(|b|, b + rest);
      assert (b + rest)[..|b|] == b && (b + rest)[|b|..] == rest;
  }

  // ---------------------------------------------------------------------------
  // The decoders
  // ---------------------------------------------------------------------------

  /** `decode_row_cell_refs`: cells until the buffer ends or a cell is truncated. */
  function CellRefs(buf: Text): seq<Option<Text>>
    decreases |buf|
  {
    match ReadCell(buf)
    case Cell(text, rest) => [text] + CellRefs(rest)
    case _ => []
  }

  /** `decode_row_cells`: exactly `n` cells; a truncated cell costs four bytes and reading goes on. */
  function Cells(buf: Text, n: nat): (cells: seq<Option<Text>>)
    ensures |cells| == n
  {
    if n == 0 then []
    else
      match ReadCell(buf)
      case Exhausted => [None] + Cells(buf, n - 1)
      case Truncated(rest) => [None] + Cells(rest, n - 1)
      case Cell(text, rest) => [text] + Cells(rest, n - 1)
  }

  method DecodeRowCellRefs(data: Text) returns (cells: seq<Option<Text>>)
    ensures cells == CellRefs(data)
  {
    var buf := data;
    cells := [];
    while |buf| >= 4
      invariant cells + CellRefs(buf) == CellRefs(data)
      decreases |buf|
    {
      ghost var whole := buf;
      var len := GetI32(buf);
      buf := buf[4..];
      if len < 0 {
        Associative(cells, [None], CellRefs(buf));
        cells := cells + [None];
      } else if |buf| < len {
        assert CellRefs(whole) == [];
        break;
      } else {
        Associative(cells, [FromUtf8(buf[..len])], CellRefs(buf[len..]));
        cells := cells + [FromUtf8(buf[..len])];
        buf := buf[len..];
      }
    }
  }

  method DecodeRowCells(data: Text, colCount: nat) returns (cells: seq<Option<Text>>)
    ensures cells == Cells(data, colCount)
  {
    var buf := data;
    cells := [];
    for i := 0 to colCount
      invariant cells + Cells(buf, colCount - i) == Cells(data, colCount)
    {
      ghost var left := colCount - i - 1;
      if |buf| < 4 {
        Associative(cells, [None], Cells(buf, left));
        cells := cells + [None];
        continue;
      }
      var len := GetI32(buf);
      buf := buf[4..];
      if len < 0 || |buf| < len {
        Associative(cells, [None], Cells(buf, left));
        cells := cells + [None];
        continue;
      }
      Associative(cells, [FromUtf8(buf[..len])], Cells(buf[len..], left));
      cells := cells + [FromUtf8(buf[..len])];
      buf := buf[len..];
    }
  }

  /** `first_cell_string` */
  function FirstCell(data: Text): Option<Text> {
    match ReadCell(data)
    case Cell(text, _) => text
    case _ => None
  }

  /** `str::trim` followed by a number parser, as `cells_f64` reads a cell. */
  function TrimmedNumber(cell: Option<Text>, trim: Text -> Text, parse: Text -> Option<real>): Option<real> {
    match cell
    case Some(s) => parse(trim(s))
    case None => None
  }

  function Numbers(cells: seq<Option<Text>>, trim: Text -> Text, parse: Text -> Option<real>): (r: seq<Option<real>>)
    ensures |r| == |cells|
    ensures forall i :: 0 <= i < |cells| ==> r[i] == (if cells[i].Some? then parse(trim(cells[i].value)) else None)
  {
    seq(|cells|, i requires 0 <= i < |cells| => TrimmedNumber(cells[i], trim, parse))
  }

  lemma {:induction false} NumbersCons(
      c: Option<Text>, cs: seq<Option<Text>>, trim: Text -> Text, parse: Text -> Option<real>)
    ensures Numbers([c] + cs, trim, parse) == [TrimmedNumber(c, trim, parse)] + Numbers(cs, trim, parse)
  {}

  /** `cells_f64` is parse-after-trim over `decode_row_cells`, on every byte string. */
  method CellsF64(data: Text, n: nat, trim: Text -> Text, parse: Text -> Option<real>) returns (out: seq<Option<real>>)
    ensures out == Numbers(Cells(data, n), trim, parse)
  {
    var buf := data;
    out := [];
    for i := 0 to n
      invariant out + Numbers(Cells(buf, n - i), trim, parse) == Numbers(Cells(data, n), trim, parse)
    {
      ghost var whole, before := buf, out;
      var value: Option<real> := None;
      if |buf| >= 4 {
        var len := GetI32(buf);
        buf := buf[4..];
        if 0 <= len <= |buf| {
          value := TrimmedNumber(FromUtf8(buf[..len]), trim, parse);
          buf := buf[len..];
        }
      }
      out := out + [value];
      NumbersStep(whole, buf, value, n - i - 1, trim, parse);
      Associative(before, [value], Numbers(Cells(buf, n - i - 1), trim, parse));
    }
  }

  lemma {:induction false} NumbersStep(
      whole: Text, rest: Text, value: Option<real>, left: nat, trim: Text -> Text, parse: Text -> Option<real>)
    requires match ReadCell(whole)
             case Exhausted => rest == whole && value == None
             case Truncated(r) => rest == r && value == None
             case Cell(text, r) => rest == r && value == TrimmedNumber(text, trim, parse)
    ensures Numbers(Cells(whole, left + 1), trim, parse) == [value] + Numbers(Cells(rest, left), trim, parse)
  {
    var text := match ReadCell(whole) case Cell(text, _) => text case _ => None;
    assert Cells(whole, left + 1) == [text] + Cells(rest, left);
    NumbersCons(text, Cells(rest, left), trim, parse);
  }

  // ---------------------------------------------------------------------------
  // Round trip and agreement
  // ---------------------------------------------------------------------------

  function Texts(cells: seq<WireCell>): (r: seq<Option<Text>>)
    ensures |r| == |cells|
    ensures forall i :: 0 <= i < |cells| ==> r[i] == CellText(cells[i])
  {
    seq(|cells|, i requires 0 <= i < |cells| => CellText(cells[i]))
  }

  lemma {:induction false} TextsCons(cells: seq<WireCell>)
    requires cells != []
    ensures Texts(cells) == [CellText(cells[0])] + Texts(cells[1..])
  {}

  lemma {:induction false} RefsCons(c: WireCell, rest: Text)
    requires Encodable(c)
    ensures CellRefs(EncodeCell(c) + rest) == [CellText(c)] + CellRefs(rest)
  {
    ReadEncoded(c, rest);
  }

  /** Encoding any cells and decoding them as slices returns them. */
  lemma {:induction false} RefsRoundTrip(cells: seq<WireCell>)
    requires forall c :: c in cells ==> Encodable(c)
    ensures CellRefs(Encode(cells)) == Texts(cells)
  {
    if cells != [] {
      RefsRoundTrip(cells[1..]);
      TextsCons(cells);
      RefsCons(cells[0], Encode(cells[1..]));
    }
  }

  /** Decoding a fixed number of columns returns the first cells, padded with NULL. */
  lemma {:induction false} CellsRoundTrip(cells: seq<WireCell>, n: nat, i: nat)
    requires forall c :: c in cells ==> Encodable(c)
    requires i < n
    ensures Cells(Encode(cells), n)[i] == if i < |cells| then CellText(cells[i]) else None
  {
    RefsRoundTrip(cells);
    EncodedIsWellFramed(cells);
    WellFramedIsReliable(Encode(cells), i);
    DecodersAgreeIff(Encode(cells), n, i);
  }

  function Nones(n: nat): (r: seq<Option<Text>>)
    ensures |r| == n && forall i :: 0 <= i < n ==> r[i] == None
  {
    seq(n, _ => None)
  }

  lemma {:induction false} ExhaustedPads(buf: Text, n: nat)
    requires |buf| < 4
    ensures Cells(buf, n) == Nones(n)
  {
    if n > 0 {
      ExhaustedPads(buf, n - 1);
    }
  }

  /** On every byte string, malformed ones included, the decoders agree wherever both give a cell. */
  lemma {:induction false} DecodersAgree(buf: Text, n: nat, i: nat)
    requires i < n && i < |CellRefs(buf)|
    ensures CellRefs(buf)[i] == Cells(buf, n)[i]
    decreases n
  {
    if i > 0 {
      DecodersAgree(ReadCell(buf).rest, n - 1, i - 1);
    }
  }

  /** The first-cell reader is the one-column decoder. */
  lemma {:induction false} FirstCellIsCells(buf: Text)
    ensures FirstCell(buf) == Cells(buf, 1)[0]
  {}

  /** No cell is cut off by the end of the buffer. */
  predicate WellFramed(buf: Text)
    decreases |buf|
  {
    match ReadCell(buf)
    case Exhausted => true
    case Truncated(_) => false
    case Cell(_, rest) => WellFramed(rest)
  }

  /** Reading on from `buf`, the counting decoder reports no text for its `i`-th cell. */
  predicate SilentAt(buf: Text, i: nat) {
    match ReadCell(buf)
    case Exhausted => true
    case Truncated(rest) => i == 0 || SilentAt(rest, i - 1)
    case Cell(text, rest) => if i == 0 then text.None? else SilentAt(rest, i - 1)
  }

  /** No cell before the `i`-th is truncated, or the bytes behind the truncated one are silent there. */
  predicate ReliableAt(buf: Text, i: nat) {
    match ReadCell(buf)
    case Exhausted => true
    case Truncated(rest) => i == 0 || SilentAt(rest, i - 1)
    case Cell(_, rest) => i == 0 || ReliableAt(rest, i - 1)
  }

  lemma {:induction false} SilentIff(buf: Text, n: nat, i: nat)
    requires i < n
    ensures Cells(buf, n)[i] == None <==> SilentAt(buf, i)
    decreases n
  {
    if ReadCell(buf).Exhausted? {
      ExhaustedPads(buf, n);
    } else if i > 0 {
      SilentIff(ReadCell(buf).rest, n - 1, i - 1);
    }
  }

  /** The slice decoder's `i`-th cell, read past its end as NULL. */
  function RefAt(buf: Text, i: nat): Option<Text> {
    if i < |CellRefs(buf)| then CellRefs(buf)[i] else None
  }

  /** Exactly when the two decoders agree on a cell, on every byte string. */
  lemma {:induction false} DecodersAgreeIff(buf: Text, n: nat, i: nat)
    requires i < n
    ensures Cells(buf, n)[i] == RefAt(buf, i) <==> ReliableAt(buf, i)
    decreases n
  {
    match ReadCell(buf)
    case Exhausted =>
      ExhaustedPads(buf, n);
    case Truncated(rest) =>
      if i > 0 {
        SilentIff(rest, n - 1, i - 1);
      }
    case Cell(text, rest) =>
      if i > 0 {
        DecodersAgreeIff(rest, n - 1, i - 1);
      }
  }

  /** The slice decoder's cells, padded with NULLs or cut to `n`. */
  function Padded(buf: Text, n: nat): (r: seq<Option<Text>>)
    ensures |r| == n && forall i :: 0 <= i < n ==> r[i] == RefAt(buf, i)
  {
    seq(n, i requires 0 <= i < n => RefAt(buf, i))
  }

  predicate Reliable(buf: Text, n: nat) {
    forall i :: 0 <= i < n ==> ReliableAt(buf, i)
  }

  /** Whole rows: the decodings are equal exactly when every cell is reliable. */
  lemma {:induction false} RowsAgreeIff(buf: Text, n: nat)
    ensures Cells(buf, n) == Padded(buf, n) <==> Reliable(buf, n)
  {
    if Cells(buf, n) == Padded(buf, n) {
      forall i | 0 <= i < n
        ensures ReliableAt(buf, i)
      {
        DecodersAgreeIff(buf, n, i);
      }
    }
    if Reliable(buf, n) {
      forall i | 0 <= i < n
        ensures Cells(buf, n)[i] == Padded(buf, n)[i]
      {
        DecodersAgreeIff(buf, n, i);
      }
    }
  }

  /** A row without truncated cells is reliable everywhere. */
  lemma {:induction false} WellFramedIsReliable(buf: Text, i: nat)
    requires WellFramed(buf)
    ensures ReliableAt(buf, i)
    decreases i
  {
    if i > 0 && ReadCell(buf).Cell? {
      WellFramedIsReliable(ReadCell(buf).rest, i - 1);
    }
  }

  /** Encoded rows are well framed. */
  lemma {:induction false} EncodedIsWellFramed(cells: seq<WireCell>)
    requires forall c :: c in cells ==> Encodable(c)
    ensures WellFramed(Encode(cells))
  {
    if cells != [] {
      EncodedIsWellFramed(cells[1..]);
      ReadEncoded(cells[0], Encode(cells[1..]));
    }
  }

  /** After a truncated cell they part: the counting decoder goes on at a wrong offset. */
  lemma {:induction false} TruncatedRowsDiffer()
    ensures exists buf: Text :: CellRefs(buf) == [] && Cells(buf, 2)[1] == Some([])
  {
    var buf: Text := [0, 0, 0, 9, 0, 0, 0, 0];
    assert GetI32(buf) == 9;
    assert buf[4..] == [0, 0, 0, 0];
    assert ReadCell(buf) == Truncated([0, 0, 0, 0]);
    assert GetI32(buf[4..]) == 0;
    assert ReadCell(buf[4..]) == Cell(Some([]), []);
    assert Cells(buf, 2) == [None] + Cells(buf[4..], 1);
    assert CellRefs(buf) == [];
  }
}
