/**
 Influx line protocol as the router reads it: the fast key scanner of the write path
 (src/routing/keys.rs), the full row parser of the stream path (src/stream/row.rs) and
 topic derivation (src/stream/topic.rs).
 */
module IlpLine {
  import opened Bytes
  import opened Utf8
  import Decimal

  // ---------------------------------------------------------------------------
  // The key scanner
  // ---------------------------------------------------------------------------

  /** The bytes before the first newline. */
  function FirstLine(body: Text): Text {
    match Find(NEWLINE, body)
    case Some(i) => body[..i]
    case None => body
  }

  /** `measurement_from_ilp_bytes` */
  function Measurement(body: Text): Option<Text> {
    var line := FirstLine(body);
    var name := BeforeByte(SPACE, BeforeByte(COMMA, line));
    if name == [] then None else FromUtf8(name)
  }

  function BeforeByte(b: byte, s: Text): (r: Text)
    ensures b !in r
  {
    match Find(b, s)
    case Some(i) => s[..i]
    case None => s
  }

  function AfterByte(b: byte, s: Text): Text {
    match Find(b, s)
    case Some(i) => s[i + 1..]
    case None => []
  }

  /** The tag section of a line: from the first comma up to the next space. */
  function TagSection(line: Text): Option<Text> {
    match Find(COMMA, line)
    case None => None
    case Some(i) => Some(BeforeByte(SPACE, line[i + 1..]))
  }

  /** `tag_name_eq`: an ill-formed name never matches. */
  predicate TagNameEq(name: Text, tagName: Text) {
    Valid(name) && EqIgnoreCase(name, tagName)
  }

  /** Does this `name=value` piece carry the wanted tag? */
  predicate IsTag(piece: Text, tagName: Text) {
    Find(EQUALS, piece).Some? && TagNameEq(piece[..Find(EQUALS, piece).value], tagName)
  }

  function TagValue(piece: Text): Text
    requires Find(EQUALS, piece).Some?
  {
    Lossy(piece[Find(EQUALS, piece).value + 1..])
  }

  function FirstTagValue(pieces: seq<Text>, tagName: Text): Option<Text> {
    if pieces == [] then None
    else if IsTag(pieces[0], tagName) then Some(TagValue(pieces[0]))
    else FirstTagValue(pieces[1..], tagName)
  }

  /** `shard_key_from_ilp_cow`: the tag's value, or the tag's name when it is absent. */
  function ShardKey(body: Text, tagName: Text): Text {
    match TagSection(FirstLine(body))
    case None => tagName
    case Some(section) =>
      match FirstTagValue(Split(COMMA, section), tagName)
      case Some(v) => v
      case None => tagName
  }

  /** The scanner's loop over the tags, with its early return. */
  method ScanTags(pieces: seq<Text>, tagName: Text) returns (value: Option<Text>)
    ensures value == FirstTagValue(pieces, tagName)
  {
    var i := 0;
    while i < |pieces|
      invariant 0 <= i <= |pieces|
      invariant FirstTagValue(pieces, tagName) == FirstTagValue(pieces[i..], tagName)
    {
      if IsTag(pieces[i], tagName) {
        return Some(TagValue(pieces[i]));
      }
      i := i + 1;
    }
    value := None;
  }

  method ShardKeyFromIlp(body: Text, tagName: Text) returns (key: Text)
    ensures key == ShardKey(body, tagName)
  {
    if body == [] {
      return tagName;
    }
    var section := TagSection(FirstLine(body));
    if section.Some? {
      var value := ScanTags(Split(COMMA, section.value), tagName);
      if value.Some? {
        return value.value;
      }
    }
    key := tagName;
  }

  // ---------------------------------------------------------------------------
  // The row parser
  // ---------------------------------------------------------------------------

  datatype Field = Float(r: real) | Integer(i: int) | Bool(b: bool) | Str(s: Text)

  datatype IlpRow = IlpRow(
    measurement: Text,
    tags: seq<(Text, Text)>,
    fields: seq<(Text, Field)>,
    timestamp: Option<int>)

  const I64_MAX := 0x7FFF_FFFF_FFFF_FFFF
  const MINUS: byte := 45
  const PLUS: byte := 43
  const SUFFIX_I: byte := 105

  /** `str::parse::<i64>`: an optional sign, then digits, in range. */
  function ParseI64(s: Text): Option<int> {
    if |s| > 1 && s[0] == MINUS then
      match Decimal.Parse(s[1..], I64_MAX + 1)
      case Some(n) => Some(0 - n)
      case None => None
    else
      match Decimal.Parse(if |s| > 1 && s[0] == PLUS then s[1..] else s, I64_MAX)
      case Some(n) => Some(n)
      case None => None
  }

  const TRUE_WORDS: seq<Text> := [[116], [84], [116, 114, 117, 101], [84, 82, 85, 69]]
  const FALSE_WORDS: seq<Text> := [[102], [70], [102, 97, 108, 115, 101], [70, 65, 76, 83, 69]]

  /** `parse_field_value`; `floats` stands for `str::parse::<f64>`. */
  function FieldValue(raw: Text, floats: Text -> Option<real>): Option<Field> {
    if raw == [] then None
    else if raw[0] == QUOTE then
      if |raw| < 2 then None else Some(Str(Lossy(raw[1..|raw| - 1])))
    else if |raw| > 1 && raw[|raw| - 1] == SUFFIX_I then
      if !Valid(raw[..|raw| - 1]) then None
      else
        match ParseI64(raw[..|raw| - 1])
        case Some(n) => Some(Integer(n))
        case None => None
    else if !Valid(raw) then None
    else if raw in TRUE_WORDS then Some(Bool(true))
    else if raw in FALSE_WORDS then Some(Bool(false))
    else
      match floats(raw)
      case Some(x) => Some(Float(x))
      case None => None
  }

  /** The tag of one `name=value` piece, if it is one. */
  function TagOf(piece: Text): seq<(Text, Text)> {
    match Find(EQUALS, piece)
    case Some(eq) => [(Lossy(piece[..eq]), Lossy(piece[eq + 1..]))]
    case None => []
  }

  /** The field of one `name=value` piece; nothing when it does not parse. */
  function FieldOf(piece: Text, floats: Text -> Option<real>): seq<(Text, Field)> {
    match Find(EQUALS, piece)
    case None => []
    case Some(eq) =>
      match FieldValue(piece[eq + 1..], floats)
      case Some(v) => [(Lossy(piece[..eq]), v)]
      case None => []
  }

  function TagsOf(pieces: seq<Text>): seq<(Text, Text)> {
    FlatMap(pieces, TagOf)
  }

  function FieldsOf(pieces: seq<Text>, floats: Text -> Option<real>): seq<(Text, Field)> {
    FlatMap(pieces, piece => FieldOf(piece, floats))
  }

  /** `iter().rposition(|b| *b == b)` */
  function FindLast(b: byte, s: Text): (r: Option<nat>)
    ensures r.None? <==> b !in s
    ensures r.Some? ==> r.value < |s| && s[r.value] == b && b !in s[r.value + 1..]
  {
    if s == [] then None
    else if s[|s| - 1] == b then Some(|s| - 1)
    else
      var front := s[..|s| - 1];
      assert s == front + [s[|s| - 1]];
      match FindLast(b, front)
      case None => None
      case Some(i) => assert s[i + 1..] == front[i + 1..] + [s[|s| - 1]]; Some(i)
  }

  lemma {:induction false} FindLastIs(b: byte, s: Text, i: nat)
    requires i < |s| && s[i] == b && b !in s[i + 1..]
    ensures FindLast(b, s) == Some(i)
  {
    var j := FindLast(b, s).value;
    assert forall k :: i < k < |s| ==> s[i + 1..][k - i - 1] == s[k];
    assert forall k :: j < k < |s| ==> s[j + 1..][k - j - 1] == s[k];
  }

  /** The field section cut at its last space: field list and timestamp. */
  function FieldPart(section: Text): Text {
    match FindLast(SPACE, section)
    case Some(i) => section[..i]
    case None => section
  }

  function TimestampPart(section: Text): Option<int> {
    match FindLast(SPACE, section)
    case Some(i) => if i + 1 < |section| && Valid(section[i + 1..]) then ParseI64(section[i + 1..]) else None
    case None => None
  }

  function StripNewline(line: Text): Text {
    if line != [] && line[|line| - 1] == NEWLINE then line[..|line| - 1] else line
  }

  function TagList(section: Text): seq<(Text, Text)> {
    if section == [] then [] else TagsOf(Split(COMMA, section))
  }

  function FieldList(section: Text, floats: Text -> Option<real>): seq<(Text, Field)> {
    if section == [] then [] else FieldsOf(Split(COMMA, section), floats)
  }

  /** The row of a line whose measurement ends at `comma`. */
  function RowAt(line: Text, comma: nat, floats: Text -> Option<real>): IlpRow
    requires comma < |line|
  {
    var rest := line[comma + 1..];
    var fields := AfterByte(SPACE, rest);
    IlpRow(
      Lossy(line[..comma]),
      TagList(BeforeByte(SPACE, rest)),
      FieldList(FieldPart(fields), floats),
      TimestampPart(fields))
  }

  /** `parse_ilp_row` */
  function ParseRow(line: Text, floats: Text -> Option<real>): Option<IlpRow> {
    var line := StripNewline(line);
    match Find(COMMA, line)
    case None => None
    case Some(comma) => if comma == 0 then None else Some(RowAt(line, comma, floats))
  }

  /** The two collecting loops of `parse_ilp_row`. */
  method CollectTags(pieces: seq<Text>) returns (tags: seq<(Text, Text)>)
    ensures tags == TagsOf(pieces)
  {
    tags := [];
    for i := 0 to |pieces|
      invariant tags == TagsOf(pieces[..i])
    {
      FlatMapSnoc(pieces, i, TagOf);
      var eq := Find(EQUALS, pieces[i]);
      if eq.Some? {
        tags := tags + [(Lossy(pieces[i][..eq.value]), Lossy(pieces[i][eq.value + 1..]))];
      }
    }
    assert pieces[..|pieces|] == pieces;
  }

  method CollectFields(pieces: seq<Text>, floats: Text -> Option<real>) returns (fields: seq<(Text, Field)>)
    ensures fields == FieldsOf(pieces, floats)
  {
    fields := [];
    for i := 0 to |pieces|
      invariant fields == FieldsOf(pieces[..i], floats)
    {
      FlatMapSnoc(pieces, i, piece => FieldOf(piece, floats));
      fields := fields + FieldOf(pieces[i], floats);
    }
    assert pieces[..|pieces|] == pieces;
  }

  /** `parse_ilp_row` as the source runs it: cut the line, then collect tags and fields. */
  method ParseIlpRow(line: Text, floats: Text -> Option<real>) returns (row: Option<IlpRow>)
    ensures row == ParseRow(line, floats)
  {
    var body := StripNewline(line);
    var comma := Find(COMMA, body);
    if comma.None? || comma.value == 0 {
      return None;
    }
    var rest := body[comma.value + 1..];
    var section := AfterByte(SPACE, rest);
    var tags: seq<(Text, Text)> := [];
    if BeforeByte(SPACE, rest) != [] {
      tags := CollectTags(Split(COMMA, BeforeByte(SPACE, rest)));
    }
    var fields: seq<(Text, Field)> := [];
    if FieldPart(section) != [] {
      fields := CollectFields(Split(COMMA, FieldPart(section)), floats);
    }
    row := Some(IlpRow(Lossy(body[..comma.value]), tags, fields, TimestampPart(section)));
  }

  // ---------------------------------------------------------------------------
  // Scanner and parser agree
  // ---------------------------------------------------------------------------

  /** `tags.iter().find(|(name, _)| name.eq_ignore_ascii_case(tag))` */
  function RowTag(tags: seq<(Text, Text)>, tagName: Text): Option<Text> {
    if tags == [] then None
    else if EqIgnoreCase(tags[0].0, tagName) then Some(tags[0].1)
    else RowTag(tags[1..], tagName)
  }

  lemma {:induction false} LowerKeepsReplacement(s: Text)
    ensures Occurs(REPLACEMENT, Lower(s)) <==> Occurs(REPLACEMENT, s)
  {
    assert REPLACEMENT <= Lower(s) <==> REPLACEMENT <= s by {
      if REPLACEMENT <= s {
        assert forall i :: 0 <= i < 3 ==> s[i] == REPLACEMENT[i];
      }
      if REPLACEMENT <= Lower(s) {
        assert forall i :: 0 <= i < 3 ==> Lower(s)[i] == REPLACEMENT[i];
      }
    }
    if s != [] {
      assert Lower(s)[1..] == Lower(s[1..]);
      LowerKeepsReplacement(s[1..]);
    }
  }

  /** An ill-formed name cannot match a tag name that is free of U+FFFD, lossily or not. */
  lemma {:induction false} NamesAgree(name: Text, tagName: Text)
    requires !Occurs(REPLACEMENT, tagName)
    ensures TagNameEq(name, tagName) <==> EqIgnoreCase(Lossy(name), tagName)
  {
    if Valid(name) {
      LossyOfValid(name);
    } else {
      LossyOfInvalid(name);
      LowerKeepsReplacement(Lossy(name));
      LowerKeepsReplacement(tagName);
    }
  }

  lemma {:induction false} TagListsAgree(pieces: seq<Text>, tagName: Text)
    requires !Occurs(REPLACEMENT, tagName)
    ensures FirstTagValue(pieces, tagName) == RowTag(TagsOf(pieces), tagName)
  {
    if pieces != [] {
      TagListsAgree(pieces[1..], tagName);
      if Find(EQUALS, pieces[0]).Some? {
        NamesAgree(pieces[0][..Find(EQUALS, pieces[0]).value], tagName);
        assert TagsOf(pieces)[1..] == TagsOf(pieces[1..]);
      } else {
        assert TagsOf(pieces) == TagsOf(pieces[1..]);
      }
    }
  }

  lemma {:induction false} FirstLineIsStripped(line: Text)
    requires NEWLINE !in StripNewline(line)
    ensures FirstLine(line) == StripNewline(line)
  {
    if line != [] && line[|line| - 1] == NEWLINE {
      FindIs(NEWLINE, line, |line| - 1);
    }
  }

  /**
   The fast scanner agrees with the full parser on every line the parser accepts, ill-formed
   UTF-8 included: the shard key is the value of the first parsed tag whose name matches in
   any case, or the tag's name when there is none.
   */
  lemma {:induction false} KeyAgreesWithRow(line: Text, tagName: Text, floats: Text -> Option<real>)
    requires ParseRow(line, floats).Some?
    requires NEWLINE !in StripNewline(line)
    requires !Occurs(REPLACEMENT, tagName)
    ensures var tag := RowTag(ParseRow(line, floats).value.tags, tagName);
            ShardKey(line, tagName) == if tag.Some? then tag.value else tagName
  {
    FirstLineIsStripped(line);
    var section := TagSection(StripNewline(line)).value;
    TagListsAgree(Split(COMMA, section), tagName);
    if section == [] {
      assert FlatMap([section][1..], TagOf) == [];
    }
  }

  // ---------------------------------------------------------------------------
  // Field values
  // ---------------------------------------------------------------------------

  /** An integer field, printed with its suffix, reads back when it fits 64 signed bits. */
  lemma {:induction false} IntegerReadsBack(n: nat, floats: Text -> Option<real>)
    ensures n <= I64_MAX ==> FieldValue(Decimal.Digits(n) + [SUFFIX_I], floats) == Some(Integer(n))
    ensures 1 <= n <= I64_MAX + 1 ==>
              FieldValue([MINUS] + Decimal.Digits(n) + [SUFFIX_I], floats) == Some(Integer(0 - n))
    ensures n > I64_MAX + 1 ==> FieldValue(Decimal.Digits(n) + [SUFFIX_I], floats) == None
  {
    var digits := Decimal.Digits(n);
    var plain, negative := digits + [SUFFIX_I], [MINUS] + digits + [SUFFIX_I];
    Decimal.ValueOfDigits(n);
    AsciiIsValid(digits);
    AsciiIsValid([MINUS] + digits);
    assert Decimal.IsDigit(digits[0]);
    assert plain[..|plain| - 1] == digits && negative[..|negative| - 1] == [MINUS] + digits;
    assert ([MINUS] + digits)[1..] == digits;
  }

  /** A plus sign in front changes nothing. */
  lemma {:induction false} PlusReadsBack(n: nat, floats: Text -> Option<real>)
    requires n <= I64_MAX
    ensures FieldValue([43] + Decimal.Digits(n) + [SUFFIX_I], floats) == Some(Integer(n))
  {
    var digits := Decimal.Digits(n);
    var raw := [43] + digits + [SUFFIX_I];
    Decimal.ValueOfDigits(n);
    AsciiIsValid([43] + digits);
    assert raw[..|raw| - 1] == [43] + digits && ([43] + digits)[1..] == digits;
  }

  /** A bare word of letters other than a trailing `i`. */
  predicate IsBareWord(raw: Text) {
    raw != [] && raw[|raw| - 1] != SUFFIX_I && forall i :: 0 <= i < |raw| ==> 65 <= raw[i] <= 122
  }

  lemma {:induction false} BareWordIsText(raw: Text)
    requires IsBareWord(raw)
    ensures raw[0] != QUOTE && Valid(raw)
  {
    AsciiIsValid(raw);
  }

  lemma {:induction false} BooleanWordsAreBare(raw: Text)
    requires raw in TRUE_WORDS + FALSE_WORDS
    ensures IsBareWord(raw)
  {}

  lemma {:induction false} BooleanWordsDiffer(raw: Text)
    requires raw in FALSE_WORDS
    ensures raw !in TRUE_WORDS
  {}

  /** `t`, `T`, `true` and `TRUE` are true, `f`, `F`, `false` and `FALSE` are false, and nothing else is a boolean. */
  lemma {:induction false} BooleanWords(raw: Text, floats: Text -> Option<real>)
    ensures FieldValue(raw, floats) == Some(Bool(true)) <==>
            raw in [[116], [84], [116, 114, 117, 101], [84, 82, 85, 69]]
    ensures FieldValue(raw, floats) == Some(Bool(false)) <==>
            raw in [[102], [70], [102, 97, 108, 115, 101], [70, 65, 76, 83, 69]]
  {
    if raw in TRUE_WORDS + FALSE_WORDS {
      BooleanWordsAreBare(raw);
      BareWordIsText(raw);
      if raw in FALSE_WORDS {
        BooleanWordsDiffer(raw);
      }
    }
  }

  /** A table name: well-formed, and without the bytes that end one. */
  predicate IsTableName(name: Text) {
    name != [] && Valid(name) && COMMA !in name && SPACE !in name && NEWLINE !in name
  }

  lemma {:induction false} CutAt(b: byte, name: Text, rest: Text)
    requires b !in name
    ensures BeforeByte(b, name + [b] + rest) == name
  {
    var s := name + [b] + rest;
    assert s[..|name|] == name;
    FindIs(b, s, |name|);
  }

  lemma {:induction false} CutLater(b: byte, name: Text, rest: Text)
    requires b !in name
    ensures name <= BeforeByte(b, name + rest)
  {
    var s := name + rest;
    if b in s {
      assert forall k :: 0 <= k < |name| ==> s[k] == name[k] && name[k] != b;
      var i := Find(b, s).value;
      assert s[i] == b && |name| <= i;
      assert s[..i][..|name|] == name;
    }
  }

  /** The table a line belongs to: its text up to the first comma, space or newline. */
  lemma {:induction false} MeasurementIs(name: Text, separator: byte, rest: Text)
    requires IsTableName(name) && separator in [COMMA, SPACE, NEWLINE]
    ensures Measurement(name + [separator] + rest) == Some(name)
    ensures Measurement(name) == Some(name)
  {
    MeasurementWithin(name, name + [separator] + rest, separator, rest);
    assert BeforeByte(COMMA, name) == name && BeforeByte(SPACE, name) == name;
  }

  lemma {:induction false} MeasurementWithin(name: Text, body: Text, separator: byte, rest: Text)
    requires IsTableName(name) && separator in [COMMA, SPACE, NEWLINE] && body == name + [separator] + rest
    ensures Measurement(body) == Some(name)
  {
    CutOnce(NEWLINE, name, body, separator, rest);
    var line := FirstLine(body);
    assert line == BeforeByte(NEWLINE, body);
    if line == name {
      assert BeforeByte(COMMA, name) == name && BeforeByte(SPACE, name) == name;
    } else {
      var more := line[|name| + 1..];
      CutOnce(COMMA, name, line, separator, more);
      var head := BeforeByte(COMMA, line);
      if head == name {
        assert BeforeByte(SPACE, name) == name;
      } else {
        CutOnce(SPACE, name, head, separator, head[|name| + 1..]);
      }
    }
  }

  /** Cutting at one of the separators gives the name, or leaves it in front of its separator. */
  lemma {:induction false} CutOnce(b: byte, name: Text, body: Text, separator: byte, rest: Text)
    requires b !in name && body == name + [separator] + rest
    ensures b == separator ==> BeforeByte(b, body) == name
    ensures b != separator ==>
              var cut := BeforeByte(b, body);
              |cut| > |name| && cut == name + [separator] + cut[|name| + 1..]
  {
    if b == separator {
      CutAt(b, name, rest);
    } else {
      CutLater(b, name + [separator], rest);
    }
  }

  // ---------------------------------------------------------------------------
  // Topics
  // ---------------------------------------------------------------------------

  const TOPIC_SEPARATOR: byte := 64

  function TopicPart(row: IlpRow, tag: Text, missing: Text): Text {
    match RowTag(row.tags, tag)
    case Some(v) => v
    case None => missing
  }

  /** `derive_topic`: one part per configured tag, joined by `@`. */
  function DeriveTopic(row: IlpRow, topicTags: seq<Text>, missing: Text): Text {
    if topicTags == [] then []
    else if |topicTags| == 1 then TopicPart(row, topicTags[0], missing)
    else TopicPart(row, topicTags[0], missing) + [TOPIC_SEPARATOR] + DeriveTopic(row, topicTags[1..], missing)
  }

  /** Subscribers of the shard-key tag see a row under the very key it was routed by. */
  lemma {:induction false} TopicIsShardKey(line: Text, tagName: Text, missing: Text, floats: Text -> Option<real>)
    requires ParseRow(line, floats).Some?
    requires NEWLINE !in StripNewline(line)
    requires !Occurs(REPLACEMENT, tagName)
    requires RowTag(ParseRow(line, floats).value.tags, tagName).Some?
    ensures DeriveTopic(ParseRow(line, floats).value, [tagName], missing) == ShardKey(line, tagName)
  {
    KeyAgreesWithRow(line, tagName, floats);
  }

  /** What a topic says about one tag: its value, or the word for a missing one. */
  predicate SaysTag(part: Text, row: IlpRow, tag: Text, missing: Text) {
    if RowTag(row.tags, tag).Some? then part == RowTag(row.tags, tag).value else part == missing
  }

  /** A topic of tags that hold no `@` can be split again: one part per tag, in order. */
  lemma {:induction false} TopicSplits(row: IlpRow, topicTags: seq<Text>, missing: Text)
    requires topicTags != []
    requires TOPIC_SEPARATOR !in missing
    requires forall tag :: tag in topicTags && RowTag(row.tags, tag).Some? ==>
               TOPIC_SEPARATOR !in RowTag(row.tags, tag).value
    ensures var parts := Split(TOPIC_SEPARATOR, DeriveTopic(row, topicTags, missing));
            && |parts| == |topicTags|
            && forall i :: 0 <= i < |topicTags| ==> SaysTag(parts[i], row, topicTags[i], missing)
  {
    var head := TopicPart(row, topicTags[0], missing);
    assert topicTags[0] in topicTags;
    if |topicTags| > 1 {
      var rest := DeriveTopic(row, topicTags[1..], missing);
      TopicSplits(row, topicTags[1..], missing);
      SplitCons(TOPIC_SEPARATOR, head, rest);
      var parts, tail := Split(TOPIC_SEPARATOR, DeriveTopic(row, topicTags, missing)), Split(TOPIC_SEPARATOR, rest);
      assert parts == [head] + tail;
      forall i | 0 <= i < |topicTags|
        ensures SaysTag(parts[i], row, topicTags[i], missing)
      {
        assert i > 0 ==> parts[i] == tail[i - 1] && topicTags[i] == topicTags[1..][i - 1];
      }
    }
  }
}
