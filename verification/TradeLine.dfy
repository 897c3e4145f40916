/**
 Trade lines written by object ingest (src/ingest/nautilus.rs): escaping, layout, and what
 the router's own readers make of the result.
 */
module TradeLine {
  import opened Bytes
  import opened Utf8
  import opened IlpLine
  import Decimal

  // ---------------------------------------------------------------------------
  // Escaping
  // ---------------------------------------------------------------------------

  function ReplaceOne(c: byte, from: byte, to: Text): Text {
    if c == from then to else [c]
  }

  /** `str::replace` of a single character. */
  function ReplaceByte(s: Text, from: byte, to: Text): Text {
    FlatMap(s, (c: byte) => ReplaceOne(c, from, to))
  }

  /** `escape_tag`: four replacements in a row, backslash first. */
  function EscapeTag(value: Text): Text {
    ReplaceByte(
      ReplaceByte(
        ReplaceByte(
          ReplaceByte(value, BACKSLASH, [BACKSLASH, BACKSLASH]),
          SPACE, [BACKSLASH, SPACE]),
        COMMA, [BACKSLASH, COMMA]),
      EQUALS, [BACKSLASH, EQUALS])
  }

  /** `escape_field_string` */
  function EscapeString(value: Text): Text {
    ReplaceByte(ReplaceByte(value, BACKSLASH, [BACKSLASH, BACKSLASH]), QUOTE, [BACKSLASH, QUOTE])
  }

  const TAG_SPECIALS: seq<byte> := [BACKSLASH, SPACE, COMMA, EQUALS]
  const STRING_SPECIALS: seq<byte> := [BACKSLASH, QUOTE]

  function EscapeByte(c: byte, specials: seq<byte>): Text {
    if c in specials then [BACKSLASH, c] else [c]
  }

  /** Escaping in one pass: a backslash before every special byte. */
  function OnePass(value: Text, specials: seq<byte>): Text {
    FlatMap(value, (c: byte) => EscapeByte(c, specials))
  }

  /** Reading an escaped text back: a backslash stands for the byte after it. */
  function Unescape(s: Text): Text {
    if s == [] then []
    else if s[0] == BACKSLASH && |s| > 1 then [s[1]] + Unescape(s[2..])
    else [s[0]] + Unescape(s[1..])
  }

  lemma {:induction false} FlatMapTwice<A, B, C>(s: seq<A>, f: A -> seq<B>, g: B -> seq<C>, h: A -> seq<C>)
    requires forall a :: h(a) == FlatMap(f(a), g)
    ensures FlatMap(FlatMap(s, f), g) == FlatMap(s, h)
  {
    if s != [] {
      FlatMapTwice(s[1..], f, g, h);
      FlatMapAppend(f(s[0]), FlatMap(s[1..], f), g);
    }
  }

  lemma {:induction false} FlatMapOfOne<A, B>(a: A, f: A -> seq<B>)
    ensures FlatMap([a], f) == f(a)
  {
    assert [a][1..] == [];
  }

  lemma {:induction false} FlatMapOfTwo<A, B>(a: A, b: A, f: A -> seq<B>)
    ensures FlatMap([a, b], f) == f(a) + f(b)
  {
    assert [a, b][1..] == [b];
    FlatMapOfOne(b, f);
  }

  /** One more replacement is one more special byte, if it is new and is not the backslash. */
  lemma {:induction false} ReplaceAfterPass(value: Text, specials: seq<byte>, b: byte)
    requires b !in specials && b != BACKSLASH
    ensures ReplaceByte(OnePass(value, specials), b, [BACKSLASH, b]) == OnePass(value, specials + [b])
  {
    var f := (c: byte) => EscapeByte(c, specials);
    var g := (c: byte) => ReplaceOne(c, b, [BACKSLASH, b]);
    var h := (c: byte) => EscapeByte(c, specials + [b]);
    forall c: byte
      ensures h(c) == FlatMap(f(c), g)
    {
      FlatMapOfOne(c, g);
      FlatMapOfTwo(BACKSLASH, c, g);
    }
    FlatMapTwice(value, f, g, h);
  }

  lemma {:induction false} FirstReplace(value: Text)
    ensures ReplaceByte(value, BACKSLASH, [BACKSLASH, BACKSLASH]) == OnePass(value, [BACKSLASH])
  {
    if value != [] {
      FirstReplace(value[1..]);
    }
  }

  /** The chain of replacements never escapes its own backslashes. */
  lemma {:induction false} EscapeTagIsOnePass(value: Text)
    ensures EscapeTag(value) == OnePass(value, TAG_SPECIALS)
  {
    FirstReplace(value);
    ReplaceAfterPass(value, [BACKSLASH], SPACE);
    ReplaceAfterPass(value, [BACKSLASH] + [SPACE], COMMA);
    ReplaceAfterPass(value, [BACKSLASH] + [SPACE] + [COMMA], EQUALS);
    assert [BACKSLASH] + [SPACE] + [COMMA] + [EQUALS] == TAG_SPECIALS;
  }

  lemma {:induction false} EscapeStringIsOnePass(value: Text)
    ensures EscapeString(value) == OnePass(value, STRING_SPECIALS)
  {
    FirstReplace(value);
    ReplaceAfterPass(value, [BACKSLASH], QUOTE);
    assert [BACKSLASH] + [QUOTE] == STRING_SPECIALS;
  }

  lemma {:induction false} UnescapeOnePass(value: Text, specials: seq<byte>)
    requires BACKSLASH in specials
    ensures Unescape(OnePass(value, specials)) == value
  {
    if value != [] {
      UnescapeOnePass(value[1..], specials);
      var rest := OnePass(value[1..], specials);
      if value[0] in specials {
        assert ([BACKSLASH, value[0]] + rest)[2..] == rest;
      } else {
        assert ([value[0]] + rest)[1..] == rest;
      }
    }
  }

  /** Escaped tags can be read back, so distinct values stay distinct. */
  lemma {:induction false} EscapeTagRoundTrip(value: Text)
    ensures Unescape(EscapeTag(value)) == value
  {
    EscapeTagIsOnePass(value);
    UnescapeOnePass(value, TAG_SPECIALS);
  }

  lemma {:induction false} EscapeTagInjective(a: Text, b: Text)
    ensures EscapeTag(a) == EscapeTag(b) <==> a == b
  {
    EscapeTagRoundTrip(a);
    EscapeTagRoundTrip(b);
  }

  lemma {:induction false} EscapeStringRoundTrip(value: Text)
    ensures Unescape(EscapeString(value)) == value
  {
    EscapeStringIsOnePass(value);
    UnescapeOnePass(value, STRING_SPECIALS);
  }

  ghost predicate Free(value: Text, specials: seq<byte>) {
    forall b :: b in specials ==> b !in value
  }

  /** Escaping adds backslashes and nothing else, and adds none exactly when nothing is special. */
  lemma {:induction false} OnePassGrows(value: Text, specials: seq<byte>)
    ensures |OnePass(value, specials)| >= |value|
    ensures |OnePass(value, specials)| == |value| <==> Free(value, specials)
    ensures Free(value, specials) ==> OnePass(value, specials) == value
    ensures forall b :: b in OnePass(value, specials) ==> b in value || b == BACKSLASH
  {
    if value != [] {
      OnePassGrows(value[1..], specials);
      assert value == [value[0]] + value[1..];
    }
  }

  // ---------------------------------------------------------------------------
  // Layout
  // ---------------------------------------------------------------------------

  /** Prices and sizes arrive printed; how a float prints is the library's business. */
  datatype Trade = Trade(
    table: Text,
    symbol: Text,
    venue: Text,
    price: Text,
    size: Text,
    aggressor: byte,
    tradeId: Text,
    timestamp: nat)

  const SYMBOL: Text := [115, 121, 109, 98, 111, 108]
  const VENUE: Text := [118, 101, 110, 117, 101]
  const PRICE: Text := [112, 114, 105, 99, 101]
  const SIZE: Text := [115, 105, 122, 101]
  const AGGRESSOR_SIDE: Text := [97, 103, 103, 114, 101, 115, 115, 111, 114, 95, 115, 105, 100, 101]
  const TRADE_ID: Text := [116, 114, 97, 100, 101, 95, 105, 100]
  const BUYER: Text := [66, 85, 89, 69, 82]
  const SELLER: Text := [83, 69, 76, 76, 69, 82]
  const NO_AGGRESSOR: Text := [78, 79, 95, 65, 71, 71, 82, 69, 83, 83, 79, 82]

  /** `aggressor_name` */
  function AggressorName(side: byte): Text {
    if side == 1 then BUYER else if side == 2 then SELLER else NO_AGGRESSOR
  }

  function Pair(name: Text, value: Text): Text {
    name + [EQUALS] + value
  }

  function Quoted(value: Text): Text {
    [QUOTE] + value + [QUOTE]
  }

  /** The names a line spells out. */
  datatype Names = Names(symbol: Text, venue: Text, price: Text, size: Text, side: Text, tradeId: Text)

  function TradeNames(): Names {
    Names(SYMBOL, VENUE, PRICE, SIZE, AGGRESSOR_SIDE, TRADE_ID)
  }

  function TagText(n: Names, symbol: Text, venue: Text): Text {
    Pair(n.symbol, symbol) + [COMMA] + Pair(n.venue, venue)
  }

  function FieldText(n: Names, price: Text, size: Text, side: Text, tradeId: Text): Text {
    Pair(n.price, price) + [COMMA] + (Pair(n.size, size) + [COMMA] +
    (Pair(n.side, Quoted(side)) + [COMMA] + Pair(n.tradeId, Quoted(tradeId))))
  }

  function LineText(table: Text, tags: Text, fields: Text, timestamp: Text): Text {
    table + [COMMA] + (tags + [SPACE] + (fields + [SPACE] + timestamp))
  }

  function Layout(n: Names, t: Trade): Text {
    LineText(
      t.table,
      TagText(n, EscapeTag(t.symbol), EscapeTag(t.venue)),
      FieldText(n, t.price, t.size, EscapeString(AggressorName(t.aggressor)), EscapeString(t.tradeId)),
      Decimal.Digits(t.timestamp))
  }

  /** `format_trade_line` */
  function FormatTrade(t: Trade): Text {
    Layout(TradeNames(), t)
  }

  // ---------------------------------------------------------------------------
  // What the row parser can produce
  // ---------------------------------------------------------------------------

  /** Lossy decoding never shortens a text and never makes up an ASCII byte. */
  lemma {:induction false} LossyKeeps(s: Text, b: byte)
    ensures |Lossy(s)| >= |s|
    ensures b < 0x80 && b !in s ==> b !in Lossy(s)
    decreases |s|
  {
    if s != [] {
      var w := Leading(s).width;
      assert s == s[..w] + s[w..];
      LossyKeeps(s[w..], b);
    }
  }

  lemma {:induction false} SplitPieces(b: byte, s: Text, c: byte)
    requires c == b || c !in s
    ensures forall piece :: piece in Split(b, s) ==> c !in piece
    decreases |s|
  {
    if b in s {
      var i := Find(b, s).value;
      SplitPieces(b, s[i + 1..], c);
      assert Split(b, s)[0] == s[..i];
    }
  }

  /** No tag value ever holds `b`. */
  ghost predicate TagsWithout(tags: seq<(Text, Text)>, b: byte) {
    forall i :: 0 <= i < |tags| ==> b !in tags[i].1
  }

  /** No string field ever holds `b`. */
  ghost predicate StringsWithout(fields: seq<(Text, Field)>, b: byte) {
    forall i :: 0 <= i < |fields| ==> (fields[i].1.Str? ==> b !in fields[i].1.s)
  }

  lemma {:induction false} TagsOfWithout(pieces: seq<Text>, b: byte)
    requires b < 0x80 && forall piece :: piece in pieces ==> b !in piece
    ensures TagsWithout(TagsOf(pieces), b)
  {
    if pieces != [] {
      TagsOfWithout(pieces[1..], b);
      var piece := pieces[0];
      assert piece in pieces;
      var eq := Find(EQUALS, piece);
      if eq.Some? {
        assert b !in piece[eq.value + 1..];
        LossyKeeps(piece[eq.value + 1..], b);
        assert b !in TagOf(piece)[0].1;
      }
      assert TagsOf(pieces) == TagOf(piece) + TagsOf(pieces[1..]);
    }
  }

  lemma {:induction false} FieldWithout(piece: Text, b: byte, floats: Text -> Option<real>)
    requires b < 0x80 && b !in piece
    ensures StringsWithout(FieldOf(piece, floats), b)
  {
    var eq := Find(EQUALS, piece);
    if eq.Some? && |piece[eq.value + 1..]| >= 2 {
      var raw := piece[eq.value + 1..];
      LossyKeeps(raw[1..|raw| - 1], b);
    }
  }

  lemma {:induction false} FieldsOfWithout(pieces: seq<Text>, b: byte, floats: Text -> Option<real>)
    requires b < 0x80 && forall piece :: piece in pieces ==> b !in piece
    ensures StringsWithout(FieldsOf(pieces, floats), b)
  {
    if pieces != [] {
      FieldsOfWithout(pieces[1..], b, floats);
      FieldWithout(pieces[0], b, floats);
      assert FieldsOf(pieces, floats) == FieldOf(pieces[0], floats) + FieldsOf(pieces[1..], floats);
    }
  }

  lemma {:induction false} SplitTagsWithout(section: Text)
    requires SPACE !in section
    ensures TagsWithout(TagsOf(Split(COMMA, section)), COMMA)
    ensures TagsWithout(TagsOf(Split(COMMA, section)), SPACE)
  {
    SplitPieces(COMMA, section, COMMA);
    SplitPieces(COMMA, section, SPACE);
    TagsOfWithout(Split(COMMA, section), COMMA);
    TagsOfWithout(Split(COMMA, section), SPACE);
  }

  lemma {:induction false} SplitFieldsWithout(section: Text, floats: Text -> Option<real>)
    ensures StringsWithout(FieldsOf(Split(COMMA, section), floats), COMMA)
  {
    SplitPieces(COMMA, section, COMMA);
    FieldsOfWithout(Split(COMMA, section), COMMA, floats);
  }

  ghost predicate NoSeparators(row: IlpRow) {
    && COMMA !in row.measurement
    && TagsWithout(row.tags, COMMA) && TagsWithout(row.tags, SPACE)
    && StringsWithout(row.fields, COMMA)
  }

  lemma {:induction false} RowAtHasNone(line: Text, comma: nat, floats: Text -> Option<real>)
    requires comma < |line| && COMMA !in line[..comma]
    ensures NoSeparators(RowAt(line, comma, floats))
  {
    var rest := line[comma + 1..];
    LossyKeeps(line[..comma], COMMA);
    SplitTagsWithout(BeforeByte(SPACE, rest));
    SplitFieldsWithout(FieldPart(AfterByte(SPACE, rest)), floats);
  }

  /** On every line: separators never survive into what they separate. */
  lemma {:induction false} ParsedRowHasNoSeparators(line: Text, floats: Text -> Option<real>)
    requires ParseRow(line, floats).Some?
    ensures NoSeparators(ParseRow(line, floats).value)
  {
    var body := StripNewline(line);
    RowAtHasNone(body, Find(COMMA, body).value, floats);
  }

  // ---------------------------------------------------------------------------
  // Reading a trade line back
  // ---------------------------------------------------------------------------

  /** The parser cuts a line where the printer joined it. */
  lemma {:induction false} ParseOfLine(table: Text, tags: Text, fields: Text, stamp: Text, floats: Text -> Option<real>)
    requires table != [] && COMMA !in table
    requires tags != [] && SPACE !in tags
    requires fields != []
    requires stamp != [] && Decimal.AllDigits(stamp)
    ensures ParseRow(LineText(table, tags, fields, stamp), floats) ==
            Some(IlpRow(Lossy(table), TagsOf(Split(COMMA, tags)), FieldsOf(Split(COMMA, fields), floats),
              ParseI64(stamp)))
  {
    var section := fields + [SPACE] + stamp;
    var rest := tags + [SPACE] + section;
    var line := table + [COMMA] + rest;
    assert line[|line| - 1] == stamp[|stamp| - 1];
    CutFirst(COMMA, table, rest);
    CutFirst(SPACE, tags, section);
    CutStamp(fields, stamp);
  }

  /** Text joined at a byte is cut there. */
  lemma {:induction false} CutFirst(b: byte, front: Text, rest: Text)
    requires b !in front
    ensures var s := front + [b] + rest;
            Find(b, s) == Some(|front|) && s[..|front|] == front && s[|front| + 1..] == rest
  {
    var s := front + [b] + rest;
    assert s[..|front|] == front;
    FindIs(b, s, |front|);
  }

  lemma {:induction false} CutStamp(fields: Text, stamp: Text)
    requires stamp != [] && Decimal.AllDigits(stamp)
    ensures var section := fields + [SPACE] + stamp;
            FieldPart(section) == fields && TimestampPart(section) == ParseI64(stamp)
  {
    var section := fields + [SPACE] + stamp;
    assert section[..|fields|] == fields && section[|fields| + 1..] == stamp;
    FindLastIs(SPACE, section, |fields|);
    AsciiIsValid(stamp);
  }

  /** A name the printer writes before `=`: lower-case letters and underscores. */
  predicate IsName(name: Text) {
    forall i :: 0 <= i < |name| ==> 97 <= name[i] <= 122 || name[i] == 95
  }

  predicate AreNames(n: Names) {
    && IsName(n.symbol) && IsName(n.venue) && IsName(n.price)
    && IsName(n.size) && IsName(n.side) && IsName(n.tradeId)
  }

  lemma {:induction false} NameIsPlain(name: Text)
    requires IsName(name)
    ensures EQUALS !in name && COMMA !in name && SPACE !in name && Lossy(name) == name
  {
    AsciiIsValid(name);
    LossyOfValid(name);
  }

  lemma {:induction false} PairCut(name: Text, value: Text)
    requires IsName(name)
    ensures var piece := Pair(name, value);
            Find(EQUALS, piece) == Some(|name|) && piece[..|name|] == name && piece[|name| + 1..] == value
  {
    var piece := Pair(name, value);
    NameIsPlain(name);
    assert piece[..|name|] == name && piece[|name| + 1..] == value;
    FindIs(EQUALS, piece, |name|);
  }

  lemma {:induction false} PairWithout(name: Text, value: Text, b: byte)
    requires IsName(name) && b !in value && b in [COMMA, SPACE]
    ensures b !in Pair(name, value)
  {}

  lemma {:induction false} TagOfPair(name: Text, value: Text)
    requires IsName(name)
    ensures TagOf(Pair(name, value)) == [(name, Lossy(value))]
  {
    PairCut(name, value);
    NameIsPlain(name);
  }

  lemma {:induction false} SplitInTwo(a: Text, b: Text)
    requires COMMA !in a && COMMA !in b
    ensures Split(COMMA, a + [COMMA] + b) == [a, b]
  {
    SplitCons(COMMA, a, b);
    assert Split(COMMA, b) == [b];
  }

  lemma {:induction false} TagsOfTwo(n: Names, symbol: Text, venue: Text)
    requires AreNames(n) && COMMA !in symbol && COMMA !in venue
    ensures TagsOf(Split(COMMA, TagText(n, symbol, venue))) == [(n.symbol, Lossy(symbol)), (n.venue, Lossy(venue))]
  {
    TagOfPair(n.symbol, symbol);
    TagOfPair(n.venue, venue);
    PairWithout(n.symbol, symbol, COMMA);
    PairWithout(n.venue, venue, COMMA);
    TagsOfPieces(Pair(n.symbol, symbol), Pair(n.venue, venue), (n.symbol, Lossy(symbol)), (n.venue, Lossy(venue)));
  }

  lemma {:induction false} TagsOfPieces(a: Text, b: Text, x: (Text, Text), y: (Text, Text))
    requires COMMA !in a && COMMA !in b && TagOf(a) == [x] && TagOf(b) == [y]
    ensures TagsOf(Split(COMMA, a + [COMMA] + b)) == [x, y]
  {
    SplitInTwo(a, b);
    FlatMapOfTwo(a, b, TagOf);
  }

  lemma {:induction false} FieldOfPair(name: Text, value: Text, floats: Text -> Option<real>)
    requires IsName(name) && FieldValue(value, floats).Some?
    ensures FieldOf(Pair(name, value), floats) == [(name, FieldValue(value, floats).value)]
  {
    PairCut(name, value);
    NameIsPlain(name);
  }

  lemma {:induction false} QuotedField(value: Text, floats: Text -> Option<real>)
    ensures FieldValue(Quoted(value), floats) == Some(Str(Lossy(value)))
  {
    assert Quoted(value)[1..|Quoted(value)| - 1] == value;
  }

  lemma {:induction false} FieldsCons(piece: Text, rest: Text, floats: Text -> Option<real>)
    requires COMMA !in piece
    ensures FieldsOf(Split(COMMA, piece + [COMMA] + rest), floats) ==
            FieldOf(piece, floats) + FieldsOf(Split(COMMA, rest), floats)
  {
    SplitCons(COMMA, piece, rest);
    assert ([piece] + Split(COMMA, rest))[1..] == Split(COMMA, rest);
  }

  /** A printed float: one piece that the parser reads as that number. */
  ghost predicate Prints(text: Text, x: real, floats: Text -> Option<real>) {
    COMMA !in text && FieldValue(text, floats) == Some(Float(x))
  }

  function LastTwo(n: Names, side: Text, id: Text): Text {
    Pair(n.side, Quoted(side)) + [COMMA] + Pair(n.tradeId, Quoted(id))
  }

  lemma {:induction false} FieldsOfLastTwo(n: Names, side: Text, id: Text, floats: Text -> Option<real>)
    requires AreNames(n) && COMMA !in side && COMMA !in id
    ensures FieldsOf(Split(COMMA, LastTwo(n, side, id)), floats) ==
            [(n.side, Str(Lossy(side))), (n.tradeId, Str(Lossy(id)))]
  {
    QuotedField(side, floats);
    QuotedField(id, floats);
    LastField(n.tradeId, Quoted(id), floats);
    FieldsStep(n.side, Quoted(side), Pair(n.tradeId, Quoted(id)), floats);
  }

  /** One more field in front of a list whose fields are known. */
  lemma {:induction false} ConsField(
      name: Text, value: Text, x: Field, rest: Text, fields: seq<(Text, Field)>, floats: Text -> Option<real>)
    requires IsName(name) && COMMA !in value && FieldValue(value, floats) == Some(x)
    requires FieldsOf(Split(COMMA, rest), floats) == fields
    ensures FieldsOf(Split(COMMA, Pair(name, value) + [COMMA] + rest), floats) == [(name, x)] + fields
  {
    FieldsStep(name, value, rest, floats);
  }

  lemma {:induction false} FieldsOfFour(
      n: Names, price: Text, p: real, size: Text, q: real, side: Text, id: Text, floats: Text -> Option<real>)
    requires AreNames(n)
    requires Prints(price, p, floats) && Prints(size, q, floats)
    requires COMMA !in side && COMMA !in id
    ensures FieldsOf(Split(COMMA, FieldText(n, price, size, side, id)), floats) ==
            [(n.price, Float(p)), (n.size, Float(q)), (n.side, Str(Lossy(side))), (n.tradeId, Str(Lossy(id)))]
  {
    var two := [(n.side, Str(Lossy(side))), (n.tradeId, Str(Lossy(id)))];
    var three := [(n.size, Float(q))] + two;
    var tail := LastTwo(n, side, id);
    FieldsOfLastTwo(n, side, id, floats);
    ConsField(n.size, size, Float(q), tail, two, floats);
    ConsField(n.price, price, Float(p), Pair(n.size, size) + [COMMA] + tail, three, floats);
  }

  lemma {:induction false} LastField(name: Text, value: Text, floats: Text -> Option<real>)
    requires IsName(name) && COMMA !in value && FieldValue(value, floats).Some?
    ensures FieldsOf(Split(COMMA, Pair(name, value)), floats) == [(name, FieldValue(value, floats).value)]
  {
    PairWithout(name, value, COMMA);
    FieldOfPair(name, value, floats);
    FlatMapOfOne(Pair(name, value), piece => FieldOf(piece, floats));
  }

  lemma {:induction false} FieldsStep(name: Text, value: Text, rest: Text, floats: Text -> Option<real>)
    requires IsName(name) && COMMA !in value && FieldValue(value, floats).Some?
    ensures FieldsOf(Split(COMMA, Pair(name, value) + [COMMA] + rest), floats) ==
            [(name, FieldValue(value, floats).value)] + FieldsOf(Split(COMMA, rest), floats)
  {
    PairWithout(name, value, COMMA);
    FieldOfPair(name, value, floats);
    FieldsCons(Pair(name, value), rest, floats);
  }

  // ---------------------------------------------------------------------------
  // Main results
  // ---------------------------------------------------------------------------

  /** The row a trade stands for. */
  function RowOf(n: Names, t: Trade, p: real, q: real): IlpRow {
    IlpRow(
      t.table,
      [(n.symbol, t.symbol), (n.venue, t.venue)],
      [(n.price, Float(p)), (n.size, Float(q)), (n.side, Str(AggressorName(t.aggressor))), (n.tradeId, Str(t.tradeId))],
      Some(t.timestamp))
  }

  /** The part of safety that decides where the parser cuts. */
  ghost predicate Separable(t: Trade) {
    && t.table != [] && COMMA !in t.table
    && COMMA !in t.symbol && SPACE !in t.symbol
    && COMMA !in t.venue && SPACE !in t.venue
    && COMMA !in t.tradeId
  }

  /** What a caller must check for a trade line to read back. */
  ghost predicate ReadsBack(t: Trade) {
    && t.table != [] && COMMA !in t.table
    && Free(t.symbol, TAG_SPECIALS) && Free(t.venue, TAG_SPECIALS)
    && COMMA !in t.tradeId && Free(t.tradeId, STRING_SPECIALS)
    && t.timestamp <= I64_MAX
  }

  /** Rust strings are valid UTF-8. */
  predicate WellEncoded(t: Trade) {
    Valid(t.table) && Valid(t.symbol) && Valid(t.venue) && Valid(t.tradeId)
  }

  /** The text between escaped separators, as the parser sees it. */
  lemma {:induction false} ParseOfSeparable(n: Names, t: Trade, p: real, q: real, floats: Text -> Option<real>)
    requires AreNames(n) && Separable(t)
    requires Prints(t.price, p, floats) && Prints(t.size, q, floats)
    ensures ParseRow(Layout(n, t), floats) ==
            Some(IlpRow(
              Lossy(t.table),
              [(n.symbol, Lossy(OnePass(t.symbol, TAG_SPECIALS))), (n.venue, Lossy(OnePass(t.venue, TAG_SPECIALS)))],
              [(n.price, Float(p)), (n.size, Float(q)), (n.side, Str(AggressorName(t.aggressor))),
               (n.tradeId, Str(Lossy(OnePass(t.tradeId, STRING_SPECIALS))))],
              ParseI64(Decimal.Digits(t.timestamp))))
  {
    var symbol, venue, id := EscapeTag(t.symbol), EscapeTag(t.venue), EscapeString(t.tradeId);
    EscapeTagIsOnePass(t.symbol);
    EscapeTagIsOnePass(t.venue);
    EscapeStringIsOnePass(t.tradeId);
    OnePassGrows(t.symbol, TAG_SPECIALS);
    OnePassGrows(t.venue, TAG_SPECIALS);
    OnePassGrows(t.tradeId, STRING_SPECIALS);
    var side := AggressorName(t.aggressor);
    SideIsCode(t.aggressor);
    CodeIsPlain(side);
    PairWithout(n.symbol, symbol, SPACE);
    PairWithout(n.venue, venue, SPACE);
    TagsOfTwo(n, symbol, venue);
    FieldsOfFour(n, t.price, p, t.size, q, side, id, floats);
    ParseOfLine(t.table, TagText(n, symbol, venue), FieldText(n, t.price, t.size, side, id),
      Decimal.Digits(t.timestamp), floats);
  }

  /** Capital letters and underscores. */
  predicate IsCode(side: Text) {
    forall i :: 0 <= i < |side| ==> 65 <= side[i] <= 90 || side[i] == 95
  }

  lemma {:induction false} SideIsCode(code: byte)
    ensures IsCode(AggressorName(code))
  {}

  lemma {:induction false} CodeIsPlain(side: Text)
    requires IsCode(side)
    ensures COMMA !in side && EscapeString(side) == side && Lossy(side) == side
  {
    EscapeStringIsOnePass(side);
    OnePassGrows(side, STRING_SPECIALS);
    AsciiIsValid(side);
    LossyOfValid(side);
  }

  lemma {:induction false} EscapedReadsBackIff(value: Text, specials: seq<byte>)
    requires Valid(value)
    ensures Lossy(OnePass(value, specials)) == value <==> Free(value, specials)
  {
    OnePassGrows(value, specials);
    LossyKeeps(OnePass(value, specials), COMMA);
    LossyOfValid(value);
  }

  lemma {:induction false} StampReadsBackIff(ts: nat)
    ensures ParseI64(Decimal.Digits(ts)) == Some(ts) <==> ts <= I64_MAX
  {
    Decimal.ValueOfDigits(ts);
    assert Decimal.IsDigit(Decimal.Digits(ts)[0]);
  }

  lemma {:induction false} ReadBackIsSeparable(n: Names, t: Trade, p: real, q: real, floats: Text -> Option<real>)
    requires ParseRow(Layout(n, t), floats) == Some(RowOf(n, t, p, q))
    ensures Separable(t)
  {
    var line := Layout(n, t);
    var row := RowOf(n, t, p, q);
    ParsedRowHasNoSeparators(line, floats);
    assert row.tags[0].1 == t.symbol && row.tags[1].1 == t.venue;
    assert row.fields[3].1.Str? && row.fields[3].1.s == t.tradeId;
    if t.table == [] {
      assert line[0] == COMMA;
      EmptyTable(line, floats);
    }
  }

  lemma {:induction false} EmptyTable(line: Text, floats: Text -> Option<real>)
    requires |line| > 1 && line[0] == COMMA
    ensures ParseRow(line, floats).None?
  {
    FindIs(COMMA, StripNewline(line), 0);
  }

  /** Two rows laid out alike are equal exactly when their parts are. */
  lemma {:induction false} SameRowIff(
    n: Names, t: Trade, p: real, q: real, table: Text, symbol: Text, venue: Text, id: Text, stamp: Option<int>)
    ensures IlpRow(
              table,
              [(n.symbol, symbol), (n.venue, venue)],
              [(n.price, Float(p)), (n.size, Float(q)), (n.side, Str(AggressorName(t.aggressor))),
                (n.tradeId, Str(id))],
              stamp) == RowOf(n, t, p, q)
            <==> (table, symbol, venue, id, stamp) == (t.table, t.symbol, t.venue, t.tradeId, Some(t.timestamp))
  {
    var tags, fields := RowOf(n, t, p, q).tags, RowOf(n, t, p, q).fields;
    assert tags[0].1 == t.symbol && tags[1].1 == t.venue && fields[3].1.s == t.tradeId;
  }

  lemma {:induction false} SeparableReadsBackIff(n: Names, t: Trade, p: real, q: real, floats: Text -> Option<real>)
    requires AreNames(n) && WellEncoded(t) && Separable(t)
    requires Prints(t.price, p, floats) && Prints(t.size, q, floats)
    ensures ParseRow(Layout(n, t), floats) == Some(RowOf(n, t, p, q)) <==>
            && Free(t.symbol, TAG_SPECIALS) && Free(t.venue, TAG_SPECIALS)
            && Free(t.tradeId, STRING_SPECIALS) && t.timestamp <= I64_MAX
  {
    ParseOfSeparable(n, t, p, q, floats);
    EscapedReadsBackIff(t.symbol, TAG_SPECIALS);
    EscapedReadsBackIff(t.venue, TAG_SPECIALS);
    EscapedReadsBackIff(t.tradeId, STRING_SPECIALS);
    StampReadsBackIff(t.timestamp);
    LossyOfValid(t.table);
    SameRowIff(n, t, p, q, Lossy(t.table), Lossy(OnePass(t.symbol, TAG_SPECIALS)),
      Lossy(OnePass(t.venue, TAG_SPECIALS)),
      Lossy(OnePass(t.tradeId, STRING_SPECIALS)), ParseI64(Decimal.Digits(t.timestamp)));
  }

  lemma {:induction false} LayoutReadsBackIff(n: Names, t: Trade, p: real, q: real, floats: Text -> Option<real>)
    requires AreNames(n) && WellEncoded(t)
    requires Prints(t.price, p, floats) && Prints(t.size, q, floats)
    ensures ParseRow(Layout(n, t), floats) == Some(RowOf(n, t, p, q)) <==> ReadsBack(t)
  {
    if Separable(t) {
      SeparableReadsBackIff(n, t, p, q, floats);
    } else if ParseRow(Layout(n, t), floats) == Some(RowOf(n, t, p, q)) {
      ReadBackIsSeparable(n, t, p, q, floats);
    }
  }

  /**
   Print, then parse: the row parser recovers the trade exactly when the table is non-empty
   and comma-free, symbol and venue need no escaping, the trade id has no comma, quote or
   backslash, and the timestamp fits in 64 signed bits. The parser never unescapes, so any
   other trade reads back differently or not at all.
   */
  lemma {:induction false} TradeReadsBackIff(t: Trade, p: real, q: real, floats: Text -> Option<real>)
    requires WellEncoded(t)
    requires Prints(t.price, p, floats) && Prints(t.size, q, floats)
    ensures ParseRow(FormatTrade(t), floats) == Some(TradeRow(t, p, q)) <==> ReadsBack(t)
  {
    var n := TradeNames();
    TradeNamesAreNames(n);
    LayoutReadsBackIff(n, t, p, q, floats);
    TradeRowIs(n, t, p, q);
  }

  /** The row a trade should read as, spelled out. */
  function TradeRow(t: Trade, p: real, q: real): IlpRow {
    IlpRow(
      t.table,
      [(SYMBOL, t.symbol), (VENUE, t.venue)],
      [(PRICE, Float(p)), (SIZE, Float(q)), (AGGRESSOR_SIDE, Str(SideText(t.aggressor))), (TRADE_ID, Str(t.tradeId))],
      Some(t.timestamp))
  }

  lemma {:induction false} TradeRowIs(n: Names, t: Trade, p: real, q: real)
    requires n == TradeNames()
    ensures RowOf(n, t, p, q) == TradeRow(t, p, q)
  {
    SideIs(t.aggressor);
  }

  lemma {:induction false} SideIs(code: byte)
    ensures AggressorName(code) == SideText(code)
  {}

  /** The side as the trade's readers know it: 1 buys, 2 sells. */
  function SideText(code: byte): Text {
    match code
    case 1 => [66, 85, 89, 69, 82]
    case 2 => [83, 69, 76, 76, 69, 82]
    case _ => [78, 79, 95, 65, 71, 71, 82, 69, 83, 83, 79, 82]
  }

  lemma {:induction false} TradeNamesAreNames(n: Names)
    requires n == TradeNames()
    ensures AreNames(n)
  {}

  // ---------------------------------------------------------------------------
  // The shard key of a trade line
  // ---------------------------------------------------------------------------

  lemma {:induction false} BeforePrefix(b: byte, front: Text, s: Text)
    requires b !in front
    ensures BeforeByte(b, front + s) == front + BeforeByte(b, s)
  {
    var text := front + s;
    if b in s {
      var i := Find(b, s).value;
      assert text[..|front| + i] == front + s[..i];
      FindIs(b, text, |front| + i);
    }
  }

  /** Where the scanner stops reading a first tag's value. */
  function CutValue(s: Text): Text {
    BeforeByte(COMMA, BeforeByte(SPACE, BeforeByte(NEWLINE, s)))
  }

  lemma {:induction false} BeforeKeepsFree(b: byte, c: byte, s: Text)
    requires c !in s
    ensures c !in BeforeByte(b, s)
  {}

  lemma {:induction false} CutValueFree(s: Text)
    ensures COMMA !in CutValue(s) && SPACE !in CutValue(s) && NEWLINE !in CutValue(s)
  {
    var line := BeforeByte(NEWLINE, s);
    BeforeKeepsFree(SPACE, NEWLINE, line);
    BeforeKeepsFree(COMMA, NEWLINE, BeforeByte(SPACE, line));
    BeforeKeepsFree(COMMA, SPACE, BeforeByte(SPACE, line));
  }

  lemma {:induction false} CutValueStops(value: Text, more: Text)
    requires COMMA !in value && SPACE !in value && NEWLINE !in value
    ensures CutValue(value + ([COMMA] + more)) == value
  {
    var front := value + [COMMA];
    Associative(value, [COMMA], more);
    BeforePrefix(NEWLINE, front, more);
    BeforePrefix(SPACE, front, BeforeByte(NEWLINE, more));
    var rest := BeforeByte(SPACE, BeforeByte(NEWLINE, more));
    Associative(value, [COMMA], rest);
    BeforePrefix(COMMA, value, [COMMA] + rest);
    FindIs(COMMA, [COMMA] + rest, 0);
    assert BeforeByte(COMMA, [COMMA] + rest) == [];
  }

  lemma {:induction false} SplitHead(b: byte, s: Text)
    ensures Split(b, s)[0] == BeforeByte(b, s)
  {}

  lemma {:induction false} CutPair(name: Text, s: Text)
    requires IsName(name)
    ensures CutValue(Pair(name, s)) == Pair(name, CutValue(s))
  {
    var front := name + [EQUALS];
    var line := BeforeByte(NEWLINE, s);
    BeforePrefix(NEWLINE, front, s);
    BeforePrefix(SPACE, front, line);
    BeforePrefix(COMMA, front, BeforeByte(SPACE, line));
  }

  /** The tag section that starts with the wanted tag gives its value. */
  lemma {:induction false} FirstTagOf(name: Text, s: Text)
    requires IsName(name)
    ensures var section := BeforeByte(SPACE, BeforeByte(NEWLINE, Pair(name, s)));
            FirstTagValue(Split(COMMA, section), name) == Some(Lossy(CutValue(s)))
  {
    var section := BeforeByte(SPACE, BeforeByte(NEWLINE, Pair(name, s)));
    SplitHead(COMMA, section);
    CutPair(name, s);
    AsciiIsValid(name);
    PairCut(name, CutValue(s));
  }

  lemma {:induction false} FirstTagAppend(a: seq<Text>, b: seq<Text>, name: Text)
    ensures FirstTagValue(a + b, name) ==
            if FirstTagValue(a, name).Some? then FirstTagValue(a, name) else FirstTagValue(b, name)
  {
    if a == [] {
      assert a + b == b;
    } else {
      assert (a + b)[1..] == a[1..] + b;
      FirstTagAppend(a[1..], b, name);
    }
  }

  lemma {:induction false} SplitJoin(b: byte, front: Text, rest: Text)
    ensures Split(b, front + [b] + rest) == Split(b, front) + Split(b, rest)
    decreases |front|
  {
    if b in front {
      var i := Find(b, front).value;
      var head, tail := front[..i], front[i + 1..];
      assert front == head + [b] + tail;
      assert front + [b] + rest == head + [b] + (tail + [b] + rest);
      SplitCons(b, head, tail + [b] + rest);
      SplitCons(b, head, tail);
      SplitJoin(b, tail, rest);
      Associative([head], Split(b, tail), Split(b, rest));
    } else {
      SplitCons(b, front, rest);
      assert Split(b, front) == [front];
    }
  }

  lemma {:induction false} BeforeWithin(b: byte, front: Text, s: Text)
    requires b in front
    ensures BeforeByte(b, front + s) == BeforeByte(b, front)
  {
    var i := Find(b, front).value;
    assert (front + s)[..i] == front[..i];
    FindIs(b, front + s, i);
  }

  /**
   The key that the text of a table name decides by itself, if it does: a newline or a space
   behind a comma ends the scan inside it, and text behind a comma is scanned for tags.
   */
  function TableDecides(table: Text, name: Text): Option<Text> {
    if NEWLINE in table || SPACE in AfterByte(COMMA, table) then Some(ShardKey(table, name))
    else if COMMA in table then FirstTagValue(Split(COMMA, AfterByte(COMMA, table)), name)
    else None
  }

  /** The scanner on any table text followed by the wanted tag. */
  lemma {:induction false} KeyOfFirstTag(table: Text, name: Text, s: Text)
    requires IsName(name)
    ensures ShardKey(table + [COMMA] + Pair(name, s), name) ==
            match TableDecides(table, name) { case Some(key) => key case None => Lossy(CutValue(s)) }
  {
    var rest := Pair(name, s);
    Associative(table, [COMMA], rest);
    if NEWLINE in table {
      BeforeWithin(NEWLINE, table, [COMMA] + rest);
    } else {
      var line := BeforeByte(NEWLINE, rest);
      var body := table + [COMMA] + line;
      BeforePrefix(NEWLINE, table + [COMMA], rest);
      FirstTagOf(name, s);
      assert FirstLine(table + [COMMA] + rest) == body;
      if COMMA in table {
        CommaInTable(table, line);
        FirstTagAppend(Split(COMMA, AfterByte(COMMA, table)), Split(COMMA, BeforeByte(SPACE, line)), name);
      } else {
        SectionOf(table, line);
      }
    }
  }

  /** Behind the table's own first comma, the section ends inside the table or goes on with the tags. */
  lemma {:induction false} CommaInTable(table: Text, line: Text)
    requires COMMA in table && NEWLINE !in table
    ensures var own := AfterByte(COMMA, table);
            var section := TagSection(table + [COMMA] + line);
            && FirstLine(table) == table
            && (SPACE in own ==> section == TagSection(table))
            && (SPACE !in own ==>
                  && section == Some(own + [COMMA] + BeforeByte(SPACE, line))
                  && Split(COMMA, section.value) == Split(COMMA, own) + Split(COMMA, BeforeByte(SPACE, line)))
  {
    var i := Find(COMMA, table).value;
    var head, own := table[..i], table[i + 1..];
    assert table == head + [COMMA] + own;
    assert table + [COMMA] + line == head + [COMMA] + (own + [COMMA] + line);
    SectionOf(head, own + [COMMA] + line);
    SectionOf(head, own);
    Associative(own, [COMMA], line);
    if SPACE in own {
      BeforeWithin(SPACE, own, [COMMA] + line);
    } else {
      BeforePrefix(SPACE, own + [COMMA], line);
      SplitJoin(COMMA, own, BeforeByte(SPACE, line));
    }
  }

  lemma {:induction false} SectionOf(table: Text, rest: Text)
    requires COMMA !in table
    ensures TagSection(table + [COMMA] + rest) == Some(BeforeByte(SPACE, rest))
  {
    var line := table + [COMMA] + rest;
    assert line[..|table|] == table && line[|table| + 1..] == rest;
    FindIs(COMMA, line, |table|);
  }

  /** The value the scanner reports for an escaped tag that is followed by another. */
  lemma {:induction false} EscapedKeyIff(symbol: Text, more: Text)
    requires Valid(symbol)
    ensures Lossy(CutValue(EscapeTag(symbol) + ([COMMA] + more))) == symbol
            <==> Free(symbol, TAG_SPECIALS) && NEWLINE !in symbol
  {
    var escaped := EscapeTag(symbol);
    var key := CutValue(escaped + ([COMMA] + more));
    EscapeTagIsOnePass(symbol);
    OnePassGrows(symbol, TAG_SPECIALS);
    CutValueFree(escaped + ([COMMA] + more));
    LossyKeeps(key, COMMA);
    LossyKeeps(key, SPACE);
    LossyKeeps(key, NEWLINE);
    if COMMA !in symbol && SPACE !in symbol && NEWLINE !in symbol {
      CutValueStops(escaped, more);
      EscapedReadsBackIff(symbol, TAG_SPECIALS);
    } else {
      assert !Free(symbol, TAG_SPECIALS) || NEWLINE in symbol;
    }
  }

  /**
   When the symbol is the key: always when the table name decides on it, else when it needs no
   escaping and has no newline.
   */
  ghost predicate KeyIsSymbol(table: Text, name: Text, symbol: Text) {
    match TableDecides(table, name)
    case Some(key) => key == symbol
    case None => Free(symbol, TAG_SPECIALS) && NEWLINE !in symbol
  }

  /**
   A trade is sharded by its own symbol exactly when the symbol needs no escaping and has no
   newline, for every table name without a comma or newline; a name that has one may decide
   the key by itself.
   */
  lemma {:induction false} TradeKeyIsSymbolIff(t: Trade)
    requires Valid(t.symbol)
    ensures ShardKey(FormatTrade(t), SYMBOL) == t.symbol <==> KeyIsSymbol(t.table, SYMBOL, t.symbol)
    ensures COMMA !in t.table && NEWLINE !in t.table ==> TableDecides(t.table, SYMBOL) == None
  {
    var n := TradeNames();
    TradeNamesAreNames(n);
    LayoutKeyIff(n, t);
  }

  lemma {:induction false} LayoutKeyIff(n: Names, t: Trade)
    requires AreNames(n) && Valid(t.symbol)
    ensures ShardKey(Layout(n, t), n.symbol) == t.symbol <==> KeyIsSymbol(t.table, n.symbol, t.symbol)
  {
    var symbol, venue := EscapeTag(t.symbol), Pair(n.venue, EscapeTag(t.venue));
    var tail := FieldText(n, t.price, t.size, EscapeString(AggressorName(t.aggressor)), EscapeString(t.tradeId))
      + [SPACE] + Decimal.Digits(t.timestamp);
    var more := venue + ([SPACE] + tail);
    PairThenMore(n.symbol, symbol, venue, tail);
    KeyOfFirstTag(t.table, n.symbol, symbol + ([COMMA] + more));
    EscapedKeyIff(t.symbol, more);
  }

  lemma {:induction false} PairThenMore(name: Text, value: Text, next: Text, tail: Text)
    ensures (Pair(name, value) + [COMMA] + next) + [SPACE] + tail
            == Pair(name, value + ([COMMA] + (next + ([SPACE] + tail))))
  {}
}
