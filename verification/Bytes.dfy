/**
 Byte strings and the few slice operations the router uses on them: `memchr`,
 `slice::split` and ASCII case folding. A Rust `str` is a byte string that happens
 to be valid UTF-8, so text and raw bytes share one type.
 */
module Bytes {

  type byte = b: int | 0 <= b < 256
  type Text = seq<byte>

  datatype Option<+T> = None | Some(value: T)

  const NEWLINE: byte := 10
  const SPACE: byte := 32
  const QUOTE: byte := 34
  const COMMA: byte := 44
  const EQUALS: byte := 61
  const BACKSLASH: byte := 92
  const DOLLAR: byte := 36
  const TICK: byte := 39

  const NULL_WORD: Text := [78, 85, 76, 76]

  /** `memchr`: index of the first occurrence of `b`. */
  function Find(b: byte, s: Text): (r: Option<nat>)
    ensures r.None? <==> b !in s
    ensures r.Some? ==> r.value < |s| && s[r.value] == b && b !in s[..r.value]
  {
    if s == [] then None
    else if s[0] == b then Some(0)
    else
      match Find(b, s[1..])
      case None => None
      case Some(i) => assert s[..i + 1] == [s[0]] + s[1..][..i]; Some(i + 1)
  }

  /** The index `Find` reports is determined by what it promises. */
  lemma {:induction false} FindIs(b: byte, s: Text, i: nat)
    requires i < |s| && s[i] == b && b !in s[..i]
    ensures Find(b, s) == Some(i)
  {
    var j := Find(b, s).value;
    assert forall k :: 0 <= k < i ==> s[..i][k] == s[k];
    assert forall k :: 0 <= k < j ==> s[..j][k] == s[k];
  }

  /** `slice::split`: the pieces between occurrences of `b`; always at least one. */
  function Split(b: byte, s: Text): (parts: seq<Text>)
    ensures |parts| >= 1
    decreases |s|
  {
    match Find(b, s)
    case None => [s]
    case Some(i) => [s[..i]] + Split(b, s[i + 1..])
  }

  lemma {:induction false} SplitCons(b: byte, head: Text, rest: Text)
    requires b !in head
    ensures Split(b, head + [b] + rest) == [head] + Split(b, rest)
  {
    var s := head + [b] + rest;
    assert s[..|head|] == head;
    FindIs(b, s, |head|);
    assert s[|head| + 1..] == rest;
  }

  /** ASCII lower case of one byte (`u8::to_ascii_lowercase`). */
  function LowerByte(b: byte): byte {
    if 65 <= b <= 90 then b + 32 else b
  }

  function Lower(s: Text): (r: Text)
    ensures |r| == |s|
    ensures forall i :: 0 <= i < |s| ==> r[i] == LowerByte(s[i])
  {
    seq(|s|, i requires 0 <= i < |s| => LowerByte(s[i]))
  }

  /** `eq_ignore_ascii_case`. */
  predicate EqIgnoreCase(a: Text, b: Text) {
    Lower(a) == Lower(b)
  }

  /** The same byte, or the two cases of one ASCII letter. */
  predicate SameLetter(a: byte, b: byte) {
    a == b || (65 <= a <= 90 && b as int == a as int + 32) || (97 <= a <= 122 && b as int == a as int - 32)
  }

  lemma {:induction false} EqIgnoreCaseIff(a: Text, b: Text)
    ensures EqIgnoreCase(a, b) <==> |a| == |b| && forall i :: 0 <= i < |a| ==> SameLetter(a[i], b[i])
  {
    if EqIgnoreCase(a, b) {
      assert forall i :: 0 <= i < |a| ==> Lower(a)[i] == Lower(b)[i];
    }
  }

  function Last<T>(s: seq<T>): T
    requires s != []
  {
    s[|s| - 1]
  }

  lemma {:induction false} Associative<T>(a: seq<T>, b: seq<T>, c: seq<T>)
    ensures (a + b) + c == a + (b + c)
  {}

  /** `flat_map` over a list. */
  function FlatMap<A, B>(items: seq<A>, f: A -> seq<B>): seq<B> {
    if items == [] then [] else f(items[0]) + FlatMap(items[1..], f)
  }

  lemma {:induction false} FlatMapAppend<A, B>(a: seq<A>, b: seq<A>, f: A -> seq<B>)
    ensures FlatMap(a + b, f) == FlatMap(a, f) + FlatMap(b, f)
  {
    if a == [] {
      assert a + b == b;
    } else {
      FlatMapAppend(a[1..], b, f);
      assert (a + b)[1..] == a[1..] + b;
      Associative(f(a[0]), FlatMap(a[1..], f), FlatMap(b, f));
    }
  }

  lemma {:induction false} FlatMapSnoc<A, B>(items: seq<A>, i: nat, f: A -> seq<B>)
    requires i < |items|
    ensures FlatMap(items[..i + 1], f) == FlatMap(items[..i], f) + f(items[i])
  {
    FlatMapAppend(items[..i], [items[i]], f);
    assert items[..i + 1] == items[..i] + [items[i]];
    assert FlatMap([items[i]][1..], f) == [];
  }

  /** Concatenation of a list of byte strings. */
  function Concat(parts: seq<Text>): Text {
    FlatMap(parts, (part: Text) => part)
  }

  lemma {:induction false} ConcatSnoc(front: seq<Text>, last: Text)
    ensures Concat(front + [last]) == Concat(front) + last
  {
    FlatMapSnoc(front + [last], |front|, (part: Text) => part);
    assert (front + [last])[..|front| + 1] == front + [last];
    assert (front + [last])[..|front|] == front;
  }
}
