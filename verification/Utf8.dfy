/**
 UTF-8 validity and lossy decoding, byte for byte as Rust's `str::from_utf8` and
 `String::from_utf8_lossy` perform them. Results stay byte strings: the lossy form
 of an ill-formed input has U+FFFD (EF BF BD) in place of every maximal bad prefix.
 */
module Utf8 {
  import opened Bytes

  const REPLACEMENT: Text := [0xEF, 0xBF, 0xBD]

  predicate Continuation(s: Text, i: nat) {
    i < |s| && 0x80 <= s[i] < 0xC0
  }

  /** May `s[1]` follow the three-byte lead `s[0]`? Excludes overlong forms and surrogates. */
  predicate SecondOfThree(s: Text)
    requires |s| >= 1
  {
    && |s| >= 2
    && (if s[0] == 0xE0 then 0xA0 <= s[1] < 0xC0
        else if s[0] == 0xED then 0x80 <= s[1] < 0xA0
        else 0x80 <= s[1] < 0xC0)
  }

  predicate SecondOfFour(s: Text)
    requires |s| >= 1
  {
    && |s| >= 2
    && (if s[0] == 0xF0 then 0x90 <= s[1] < 0xC0
        else if s[0] == 0xF4 then 0x80 <= s[1] < 0x90
        else 0x80 <= s[1] < 0xC0)
  }

  /** One scalar value at the front of `s`, or the bad prefix a lossy decoder replaces. */
  datatype Lead = Scalar(width: nat) | Bad(width: nat)

  function Leading(s: Text): (r: Lead)
    requires s != []
    ensures 1 <= r.width <= |s|
  {
    var b := s[0];
    if b < 0x80 then Scalar(1)
    else if 0xC2 <= b < 0xE0 then
      if Continuation(s, 1) then Scalar(2) else Bad(1)
    else if 0xE0 <= b < 0xF0 then
      if !SecondOfThree(s) then Bad(1)
      else if Continuation(s, 2) then Scalar(3) else Bad(2)
    else if 0xF0 <= b < 0xF5 then
      if !SecondOfFour(s) then Bad(1)
      else if !Continuation(s, 2) then Bad(2)
      else if Continuation(s, 3) then Scalar(4) else Bad(3)
    else Bad(1)
  }

  /** `str::from_utf8(s).is_ok()` */
  predicate Valid(s: Text)
    decreases |s|
  {
    s == [] || (Leading(s).Scalar? && Valid(s[Leading(s).width..]))
  }

  /** `str::from_utf8(s).ok()` */
  function FromUtf8(s: Text): Option<Text> {
    if Valid(s) then Some(s) else None
  }

  /** `String::from_utf8_lossy(s)` */
  function Lossy(s: Text): Text
    decreases |s|
  {
    if s == [] then []
    else
      var lead := Leading(s);
      (if lead.Scalar? then s[..lead.width] else REPLACEMENT) + Lossy(s[lead.width..])
  }

  /** Lossy decoding is the identity on valid input. */
  lemma {:induction false} LossyOfValid(s: Text)
    requires Valid(s)
    ensures Lossy(s) == s
    decreases |s|
  {
    if s != [] {
      var w := Leading(s).width;
      LossyOfValid(s[w..]);
      assert s == s[..w] + s[w..];
    }
  }

  /** `needle` occurs somewhere in `s`. */
  predicate Occurs(needle: Text, s: Text) {
    needle <= s || (s != [] && Occurs(needle, s[1..]))
  }

  lemma {:induction false} OccursAfter(needle: Text, front: Text, s: Text)
    requires Occurs(needle, s)
    ensures Occurs(needle, front + s)
  {
    if front == [] {
      assert front + s == s;
    } else {
      OccursAfter(needle, front[1..], s);
      assert (front + s)[1..] == front[1..] + s;
    }
  }

  /** A lossy decoder never hides an error: ill-formed input always shows U+FFFD. */
  lemma {:induction false} LossyOfInvalid(s: Text)
    requires !Valid(s)
    ensures Occurs(REPLACEMENT, Lossy(s))
    decreases |s|
  {
    var lead := Leading(s);
    if lead.Scalar? {
      LossyOfInvalid(s[lead.width..]);
      OccursAfter(REPLACEMENT, s[..lead.width], Lossy(s[lead.width..]));
    }
  }

  /** ASCII text is valid UTF-8. */
  lemma {:induction false} AsciiIsValid(s: Text)
    requires forall i :: 0 <= i < |s| ==> s[i] < 0x80
    ensures Valid(s)
  {
    if s != [] {
      AsciiIsValid(s[1..]);
    }
  }

  /** Width of the white-space scalar value at the front (`char::is_whitespace`); 0 if there is none. */
  function SpaceWidth(s: Text): (w: nat)
    ensures w <= |s|
  {
    if s == [] then 0
    else if 0x09 <= s[0] <= 0x0D || s[0] == 0x20 then 1
    else if |s| >= 2 && s[0] == 0xC2 && s[1] in [0x85, 0xA0] then 2
    else if |s| < 3 then 0
    else if s[0] == 0xE2 && s[1] == 0x80 && (0x80 <= s[2] <= 0x8A || s[2] in [0xA8, 0xA9, 0xAF]) then 3
    else if s[..3] in [[0xE1, 0x9A, 0x80], [0xE2, 0x81, 0x9F], [0xE3, 0x80, 0x80]] then 3
    else 0
  }

  /** `str::trim_start` */
  function TrimStart(s: Text): Text
    decreases |s|
  {
    if SpaceWidth(s) == 0 then s else TrimStart(s[SpaceWidth(s)..])
  }

  /** Leading white space is dropped whole. */
  lemma {:induction false} TrimStartSkips(blanks: Text, s: Text)
    requires TrimStart(blanks) == []
    ensures TrimStart(blanks + s) == TrimStart(s)
    decreases |blanks|
  {
    if blanks == [] {
      assert blanks + s == s;
    } else {
      var w := SpaceWidth(blanks);
      assert w > 0 && (blanks + s)[..w] == blanks[..w];
      assert |blanks| >= 3 ==> (blanks + s)[..3] == blanks[..3];
      assert SpaceWidth(blanks + s) == w;
      assert (blanks + s)[w..] == blanks[w..] + s;
      TrimStartSkips(blanks[w..], s);
    }
  }

  // ---------------------------------------------------------------------------
  // Unicode scalar values
  // ---------------------------------------------------------------------------

  /** A Unicode scalar value: a code point that is not a surrogate. */
  predicate IsScalar(c: int) {
    0 <= c < 0x11_0000 && !(0xD800 <= c < 0xE000)
  }

  /** The shortest form, section 3 of RFC 3629. */
  function EncodeScalar(c: int): Text
    requires IsScalar(c)
  {
    if c < 0x80 then [c]
    else if c < 0x800 then [0xC0 + c / 64, 0x80 + c % 64]
    else if c < 0x1_0000 then [0xE0 + c / 64 / 64, 0x80 + c / 64 % 64, 0x80 + c % 64]
    else [0xF0 + c / 64 / 64 / 64, 0x80 + c / 64 / 64 % 64, 0x80 + c / 64 % 64, 0x80 + c % 64]
  }

  /** An encoded scalar value is recognised, whole, whatever follows. */
  lemma {:induction false} EncodedLeads(c: int, rest: Text)
    requires IsScalar(c)
    ensures EncodeScalar(c) + rest != [] && Leading(EncodeScalar(c) + rest) == Scalar(|EncodeScalar(c)|)
  {
    var s := EncodeScalar(c) + rest;
    assert forall i :: 0 <= i < |EncodeScalar(c)| ==> s[i] == EncodeScalar(c)[i];
  }

  /** One more continuation byte: six more bits. */
  function Extended(high: int, b: byte): int {
    high * 64 + (b as int - 0x80)
  }

  lemma {:induction false} ExtendedSplits(high: int, b: byte)
    requires 0 <= high && 0x80 <= b < 0xC0
    ensures Extended(high, b) >= 0
    ensures Extended(high, b) / 64 == high && 0x80 + Extended(high, b) % 64 == b
  {}

  /** The value of the sequence at the front, from its bytes. */
  function ScalarAt(s: Text): int
    requires s != [] && Leading(s).Scalar?
  {
    var w := Leading(s).width;
    if w == 1 then s[0]
    else if w == 2 then Extended(s[0] as int - 0xC0, s[1])
    else if w == 3 then Extended(Extended(s[0] as int - 0xE0, s[1]), s[2])
    else Extended(Extended(Extended(s[0] as int - 0xF0, s[1]), s[2]), s[3])
  }

  /** Whatever is recognised is the encoding of a scalar value: no overlong forms, no surrogates. */
  lemma {:induction false} LeadsAreEncoded(s: Text)
    requires s != [] && Leading(s).Scalar?
    ensures IsScalar(ScalarAt(s)) && EncodeScalar(ScalarAt(s)) == s[..Leading(s).width]
  {
    match Leading(s).width
    case 1 => assert s[..1] == [s[0]];
    case 2 => LeadsTwo(s);
    case 3 => LeadsThree(s);
    case _ => LeadsFour(s);
  }

  lemma {:induction false} LeadsTwo(s: Text)
    requires s != [] && Leading(s) == Scalar(2)
    ensures IsScalar(ScalarAt(s)) && EncodeScalar(ScalarAt(s)) == s[..2]
  {
    TwoByteForm(s[0], s[1]);
    assert s[..2] == [s[0], s[1]];
  }

  lemma {:induction false} LeadsThree(s: Text)
    requires s != [] && Leading(s) == Scalar(3)
    ensures IsScalar(ScalarAt(s)) && EncodeScalar(ScalarAt(s)) == s[..3]
  {
    ThreeByteForm(s[0], s[1], s[2]);
    assert s[..3] == [s[0], s[1], s[2]];
  }

  lemma {:induction false} LeadsFour(s: Text)
    requires s != [] && Leading(s) == Scalar(4)
    ensures IsScalar(ScalarAt(s)) && EncodeScalar(ScalarAt(s)) == s[..4]
  {
    FourByteForm(s[0], s[1], s[2], s[3]);
    assert s[..4] == [s[0], s[1], s[2], s[3]];
  }

  lemma {:induction false} TwoByteForm(a: byte, b: byte)
    requires 0xC2 <= a < 0xE0 && 0x80 <= b < 0xC0
    ensures var v := Extended(a as int - 0xC0, b); IsScalar(v) && EncodeScalar(v) == [a, b]
  {
    ExtendedSplits(a as int - 0xC0, b);
  }

  lemma {:induction false} ThreeByteForm(a: byte, b: byte, c: byte)
    requires 0xE0 <= a <= 0xEF && 0x80 <= b < 0xC0 && 0x80 <= c < 0xC0
    requires (a == 0xE0 ==> b >= 0xA0) && (a == 0xED ==> b <= 0x9F)
    ensures var v := Extended(Extended(a as int - 0xE0, b), c);
            0x800 <= v < 0x1_0000 && IsScalar(v) && EncodeScalar(v) == [a, b, c]
  {
    var high := Extended(a as int - 0xE0, b);
    ExtendedSplits(a as int - 0xE0, b);
    ExtendedSplits(high, c);
  }

  lemma {:induction false} FourByteForm(a: byte, b: byte, c: byte, d: byte)
    requires 0xF0 <= a <= 0xF4 && 0x80 <= b < 0xC0 && 0x80 <= c < 0xC0 && 0x80 <= d < 0xC0
    requires (a == 0xF0 ==> b >= 0x90) && (a == 0xF4 ==> b <= 0x8F)
    ensures var v := Extended(Extended(Extended(a as int - 0xF0, b), c), d);
            0x1_0000 <= v && IsScalar(v) && EncodeScalar(v) == [a, b, c, d]
  {
    var top := Extended(a as int - 0xF0, b);
    var high := Extended(top, c);
    ExtendedSplits(a as int - 0xF0, b);
    ExtendedSplits(top, c);
    ExtendedSplits(high, d);
    assert 0x10 <= top < 0x110;
    FourByteRange(top, c, d);
  }

  lemma {:induction false} FourByteRange(top: int, c: byte, d: byte)
    requires 0x10 <= top < 0x110 && 0x80 <= c < 0xC0 && 0x80 <= d < 0xC0
    ensures 0x1_0000 <= Extended(Extended(top, c), d) < 0x11_0000
  {}

  /** The Unicode property White_Space. */
  predicate IsWhiteSpace(c: int) {
    || 0x09 <= c <= 0x0D || c in [0x20, 0x85, 0xA0, 0x1680]
    || 0x2000 <= c <= 0x200A || c in [0x2028, 0x2029, 0x202F, 0x205F, 0x3000]
  }

  /** White space is recognised by its property, whole, whatever follows. */
  lemma {:induction false} WhiteSpaceIsSpace(c: int, rest: Text)
    requires IsScalar(c)
    ensures SpaceWidth(EncodeScalar(c) + rest) == (if IsWhiteSpace(c) then |EncodeScalar(c)| else 0)
  {
    var s := EncodeScalar(c) + rest;
    assert forall i :: 0 <= i < |EncodeScalar(c)| ==> s[i] == EncodeScalar(c)[i];
    if |s| >= 3 {
      assert s[..3] == [s[0], s[1], s[2]];
    }
  }
}
