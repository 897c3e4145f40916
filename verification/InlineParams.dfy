/**
 Bound parameters as SQL text: positional placeholders are replaced one by one, highest
 index first (src/protocol/pg_backend.rs), and quoted literals are read back by the
 dialect router (src/routing/dialect.rs).
 */
module InlineParams {
  import opened Bytes
  import opened Utf8
  import opened Decimal

  /** `str::replace`: all non-overlapping occurrences, left to right. */
  function Replace(s: Text, pattern: Text, to: Text): Text
    requires pattern != []
    decreases |s|
  {
    if s == [] then []
    else if pattern <= s then to + Replace(s[|pattern|..], pattern, to)
    else [s[0]] + Replace(s[1..], pattern, to)
  }

  /** The literal a value is inlined as: quotes doubled, or the bare word NULL. */
  function SqlLiteral(value: Text): Text {
    if EqIgnoreCase(value, NULL_WORD) then NULL_WORD
    else [TICK] + Replace(value, [TICK], [TICK, TICK]) + [TICK]
  }

  function PlaceholderText(n: nat): Text {
    [DOLLAR] + Digits(n)
  }

  function Literals(params: seq<Text>): (r: seq<Text>)
    ensures |r| == |params| && forall i :: 0 <= i < |params| ==> r[i] == SqlLiteral(params[i])
  {
    seq(|params|, i requires 0 <= i < |params| => SqlLiteral(params[i]))
  }

  /** The text after replacing the placeholders above `k`, from the highest down. */
  function InlinedAbove(sql: Text, literals: seq<Text>, k: nat): Text
    requires k <= |literals|
    decreases |literals| - k
  {
    if k == |literals| then sql
    else Replace(InlinedAbove(sql, literals, k + 1), PlaceholderText(k + 1), literals[k])
  }

  /** `inline_sql_params` */
  method InlineSqlParams(sql: Text, params: seq<Text>) returns (out: Text)
    ensures out == InlinedAbove(sql, Literals(params), 0)
  {
    out := sql;
    for idx := |params| downto 0
      invariant out == InlinedAbove(sql, Literals(params), idx)
    {
      out := Replace(out, PlaceholderText(idx + 1), SqlLiteral(params[idx]));
    }
  }

  // ---------------------------------------------------------------------------
  // References: longest match, and simultaneous substitution
  // ---------------------------------------------------------------------------

  /** Length of the digit run at the front. */
  function RunLength(s: Text): (n: nat)
    ensures n <= |s| && AllDigits(s[..n])
    ensures n < |s| ==> !IsDigit(s[n])
  {
    if s == [] || !IsDigit(s[0]) then 0
    else
      var n := RunLength(s[1..]);
      assert s[..n + 1] == [s[0]] + s[1..][..n];
      n + 1
  }

  /** Is the digit prefix of length `m` the numeral of an index in `k+1 .. n`? */
  predicate Names(s: Text, m: nat, k: nat, n: nat)
    requires m <= |s|
  {
    Canonical(s[..m]) && k < Value(s[..m]) <= n
  }

  /** The longest digit prefix, up to `upto`, that names an index in `k+1 .. n`; 0 if none. */
  function Best(s: Text, k: nat, n: nat, upto: nat): (m: nat)
    requires upto <= |s|
    ensures m <= upto
    ensures m > 0 ==> Names(s, m, k, n)
    ensures forall u :: m < u <= upto ==> !Names(s, u, k, n)
  {
    if upto == 0 then 0
    else if Names(s, upto, k, n) then upto
    else Best(s, k, n, upto - 1)
  }

  /** Replace each placeholder above `k` by the longest index its digits begin with. */
  function LongestMatch(s: Text, literals: seq<Text>, k: nat): Text
    decreases |s|
  {
    if s == [] then []
    else if s[0] != DOLLAR then [s[0]] + LongestMatch(s[1..], literals, k)
    else
      var t := s[1..];
      var m := Best(t, k, |literals|, RunLength(t));
      if m == 0 then [DOLLAR] + LongestMatch(t, literals, k)
      else literals[Value(t[..m]) - 1] + LongestMatch(t[m..], literals, k)
  }

  /** Replace all placeholders at once: `$` and a whole digit run naming a parameter. */
  function Substitute(s: Text, literals: seq<Text>): Text
    decreases |s|
  {
    if s == [] then []
    else if s[0] != DOLLAR then [s[0]] + Substitute(s[1..], literals)
    else
      var t := s[1..];
      var m := RunLength(t);
      if Names(t, m, 0, |literals|)
      then literals[Value(t[..m]) - 1] + Substitute(t[m..], literals)
      else [DOLLAR] + Substitute(t, literals)
  }

  // ---------------------------------------------------------------------------
  // Literals are closed: no placeholder straddles their ends
  // ---------------------------------------------------------------------------

  /** A byte a placeholder is made of. */
  predicate PlaceholderByte(b: byte) {
    b == DOLLAR || IsDigit(b)
  }

  /** Text that no placeholder can run into or out of. */
  predicate Closed(s: Text) {
    s != [] && !PlaceholderByte(s[0]) && !PlaceholderByte(Last(s))
  }

  predicate AllClosed(literals: seq<Text>) {
    forall i :: 0 <= i < |literals| ==> Closed(literals[i])
  }

  /** Quoting doubles ticks, byte by byte. */
  function Doubled(value: Text): Text {
    FlatMap(value, (b: byte) => if b == TICK then [TICK, TICK] else [b])
  }

  lemma {:induction false} ReplaceDoubles(value: Text)
    ensures Replace(value, [TICK], [TICK, TICK]) == Doubled(value)
  {
    if value != [] {
      ReplaceDoubles(value[1..]);
      assert [TICK] <= value <==> value[0] == TICK;
    }
  }

  lemma {:induction false} LiteralsClosed(params: seq<Text>)
    ensures AllClosed(Literals(params))
  {}

  /** The pattern of a replacement: a dollar sign and digits. */
  predicate IsPattern(pattern: Text) {
    pattern != [] && pattern[0] == DOLLAR && forall i :: 0 <= i < |pattern| ==> PlaceholderByte(pattern[i])
  }

  lemma {:induction false} PlaceholderIsPattern(k: nat)
    ensures IsPattern(PlaceholderText(k)) && |PlaceholderText(k)| >= 2 && IsDigit(PlaceholderText(k)[1])
  {
    var digits := Digits(k);
    assert forall i :: 0 < i < |PlaceholderText(k)| ==> PlaceholderText(k)[i] == digits[i - 1];
  }

  /** The seam between two texts that no placeholder can cross. */
  predicate Seam(front: Text, rest: Text) {
    || (front != [] && !PlaceholderByte(Last(front)))
    || (rest != [] && !PlaceholderByte(rest[0]))
  }

  lemma {:induction false} NoStraddle(front: Text, rest: Text, pattern: Text)
    requires front != [] && Seam(front, rest) && IsPattern(pattern)
    ensures pattern <= front + rest <==> pattern <= front
  {
    var all := front + rest;
    assert all[|front| - 1] == Last(front) && (rest != [] ==> all[|front|] == rest[0]);
    assert pattern <= all ==> forall i :: 0 <= i < |pattern| ==> pattern[i] == all[i];
  }

  /** Replacement works on either side of a seam by itself. */
  lemma {:induction false} ReplaceSplits(front: Text, rest: Text, pattern: Text, to: Text)
    requires front == [] || Seam(front, rest)
    requires IsPattern(pattern)
    ensures Replace(front + rest, pattern, to) == Replace(front, pattern, to) + Replace(rest, pattern, to)
    decreases |front|
  {
    if front == [] {
      assert front + rest == rest;
    } else {
      NoStraddle(front, rest, pattern);
      var n, head := if pattern <= front then |pattern| else 1, if pattern <= front then to else [front[0]];
      assert (front + rest)[n..] == front[n..] + rest;
      ReplaceSplits(front[n..], rest, pattern, to);
      Associative(head, Replace(front[n..], pattern, to), Replace(rest, pattern, to));
    }
  }

  lemma {:induction false} ReplaceKeepsClosed(s: Text, pattern: Text, to: Text)
    requires Closed(s) && IsPattern(pattern)
    ensures Closed(Replace(s, pattern, to))
  {
    var front, last := s[..|s| - 1], [Last(s)];
    assert s == front + last;
    ReplaceSplits(front, last, pattern, to);
    assert !(pattern <= last) && Replace(last, pattern, to) == last by {
      assert last[1..] == [];
    }
    assert !(pattern <= s);
  }

  /** Longest match leaves leading digits alone and puts no digit before other text. */
  lemma {:induction false} DigitsPassThrough(digits: Text, s: Text, literals: seq<Text>, k: nat)
    requires AllDigits(digits) && AllClosed(literals)
    ensures digits <= LongestMatch(s, literals, k) <==> digits <= s
    ensures digits <= s ==> LongestMatch(s, literals, k)[|digits|..] == LongestMatch(s[|digits|..], literals, k)
  {
    if digits == [] {
      assert s[0..] == s;
    } else if s != [] {
      var out := LongestMatch(s, literals, k);
      if IsDigit(s[0]) {
        DigitsPassThrough(digits[1..], s[1..], literals, k);
        assert digits <= s <==> digits[0] == s[0] && digits[1..] <= s[1..];
        assert digits <= out <==> digits[0] == out[0] && digits[1..] <= out[1..];
        if digits <= s {
          assert s[1..][|digits| - 1..] == s[|digits|..];
          assert out[1..][|digits| - 1..] == out[|digits|..];
        }
      } else {
        NoLeadingDigit(s, literals, k);
        assert IsDigit(digits[0]);
      }
    }
  }

  lemma {:induction false} NoLeadingDigit(s: Text, literals: seq<Text>, k: nat)
    requires AllClosed(literals)
    requires s != [] && !IsDigit(s[0])
    ensures LongestMatch(s, literals, k) != [] && !IsDigit(LongestMatch(s, literals, k)[0])
  {}

  lemma {:induction false} ShorterNamesLess(s: Text, u: nat, m: nat)
    requires u <= m <= |s| && AllDigits(s[..m])
    ensures AllDigits(s[..u]) && Value(s[..u]) <= Value(s[..m])
  {
    assert s[..m] == s[..u] + s[u..m];
    assert AllDigits(s[..u]) && AllDigits(s[u..m]) by {
      assert forall i :: 0 <= i < u ==> s[..u][i] == s[..m][i];
      assert forall i :: 0 <= i < m - u ==> s[u..m][i] == s[..m][u + i];
    }
    ValueOfLonger(s[..u], s[u..m]);
  }

  /** Below the numeral of `k+1` itself no prefix names a higher index. */
  lemma {:induction false} NothingHigherBelow(s: Text, k: nat, n: nat, m: nat)
    requires m <= |s| && AllDigits(s[..m]) && Value(s[..m]) <= k + 1
    ensures Best(s, k + 1, n, m) == 0
  {
    var u := Best(s, k + 1, n, m);
    ShorterNamesLess(s, u, m);
  }

  /** Lowering the bound by one adds exactly the numeral of that index, where nothing longer fits. */
  lemma {:induction false} BestStep(s: Text, k: nat, n: nat, upto: nat)
    requires upto <= |s| && AllDigits(s[..upto]) && k + 1 <= n
    ensures var higher := Best(s, k + 1, n, upto);
            Best(s, k, n, upto) ==
              if higher > 0 then higher
              else if Digits(k + 1) <= s[..upto] then |Digits(k + 1)| else 0
  {
    if upto > 0 && !Names(s, upto, k + 1, n) {
      if Names(s, upto, k, n) {
        DigitsOfValue(s[..upto]);
        NothingHigherBelow(s, k, n, upto);
      } else {
        ShorterNamesLess(s, upto - 1, upto);
        BestStep(s, k, n, upto - 1);
        PrefixOfShorter(s, k, n, upto);
      }
    }
  }

  lemma {:induction false} PrefixOfShorter(s: Text, k: nat, n: nat, upto: nat)
    requires 0 < upto <= |s| && k + 1 <= n && !Names(s, upto, k, n)
    ensures Digits(k + 1) <= s[..upto] <==> Digits(k + 1) <= s[..upto - 1]
  {
    ValueOfDigits(k + 1);
    assert Digits(k + 1) != s[..upto];
  }

  /** A numeral is a prefix of a text exactly when it is a prefix of its leading digits. */
  lemma {:induction false} PrefixOfRun(digits: Text, s: Text)
    requires AllDigits(digits)
    ensures digits <= s <==> digits <= s[..RunLength(s)]
  {
    if digits <= s {
      assert forall i :: 0 <= i < |digits| ==> digits[i] == s[i];
    }
  }

  // One step of each function, by the shape of its argument.

  lemma {:induction false} MatchOther(b: byte, t: Text, literals: seq<Text>, k: nat)
    requires b != DOLLAR
    ensures LongestMatch([b] + t, literals, k) == [b] + LongestMatch(t, literals, k)
  {
    assert ([b] + t)[1..] == t;
  }

  lemma {:induction false} MatchDollar(t: Text, literals: seq<Text>, k: nat)
    ensures var m := Best(t, k, |literals|, RunLength(t));
            LongestMatch([DOLLAR] + t, literals, k) ==
              if m == 0 then [DOLLAR] + LongestMatch(t, literals, k)
              else literals[Value(t[..m]) - 1] + LongestMatch(t[m..], literals, k)
  {
    assert ([DOLLAR] + t)[1..] == t;
  }

  lemma {:induction false} ReplaceHit(pattern: Text, rest: Text, to: Text)
    requires pattern != []
    ensures Replace(pattern + rest, pattern, to) == to + Replace(rest, pattern, to)
  {
    assert (pattern + rest)[|pattern|..] == rest;
  }

  lemma {:induction false} ReplaceMiss(b: byte, rest: Text, pattern: Text, to: Text)
    requires pattern != [] && !(pattern <= [b] + rest)
    ensures Replace([b] + rest, pattern, to) == [b] + Replace(rest, pattern, to)
  {
    assert ([b] + rest)[1..] == rest;
  }

  lemma {:induction false} ReplaceOther(b: byte, rest: Text, pattern: Text, to: Text)
    requires pattern != [] && pattern[0] != b
    ensures Replace([b] + rest, pattern, to) == [b] + Replace(rest, pattern, to)
  {
    assert ([b] + rest)[0] == b;
    ReplaceMiss(b, rest, pattern, to);
  }

  /**
   How the literals change when index `k+1` is replaced: those of higher indices have it
   replaced inside them, and its own literal enters.
   */
  ghost predicate Stepped(literals: seq<Text>, next: seq<Text>, k: nat) {
    && k < |literals| == |next|
    && AllClosed(literals) && AllClosed(next)
    && forall j :: k < j < |literals| ==> next[j] == Replace(literals[j], PlaceholderText(k + 1), next[k])
  }

  /** One replacement lowers the longest-match bound by one. */
  lemma {:induction false} ReplaceStep(s: Text, literals: seq<Text>, next: seq<Text>, k: nat)
    requires Stepped(literals, next, k)
    ensures Replace(LongestMatch(s, literals, k + 1), PlaceholderText(k + 1), next[k]) == LongestMatch(s, next, k)
    decreases |s|, 0
  {
    if s != [] {
      var t := s[1..];
      assert s == [s[0]] + t;
      if s[0] != DOLLAR {
        ReplaceStep(t, literals, next, k);
        MatchOther(s[0], t, next, k);
        MatchOther(s[0], t, literals, k + 1);
        ReplaceOther(s[0], LongestMatch(t, literals, k + 1), PlaceholderText(k + 1), next[k]);
      } else if Best(t, k + 1, |literals|, RunLength(t)) > 0 {
        ReplaceInLiteral(t, literals, next, k);
      } else {
        ReplaceAtDollar(t, literals, next, k);
      }
    }
  }

  /** The dollar sign already became a literal of a higher index: replacement goes on inside it and after it. */
  lemma {:induction false} ReplaceInLiteral(t: Text, literals: seq<Text>, next: seq<Text>, k: nat)
    requires Stepped(literals, next, k)
    requires Best(t, k + 1, |literals|, RunLength(t)) > 0
    ensures Replace(LongestMatch([DOLLAR] + t, literals, k + 1), PlaceholderText(k + 1), next[k]) ==
            LongestMatch([DOLLAR] + t, next, k)
    decreases |t|, 1
  {
    var m := Best(t, k + 1, |literals|, RunLength(t));
    MatchDollar(t, next, k);
    MatchDollar(t, literals, k + 1);
    BestStep(t, k, |literals|, RunLength(t));
    ReplaceStep(t[m..], literals, next, k);
    var j := Value(t[..m]) - 1;
    LiteralThenRest(literals[j], next[j], LongestMatch(t[m..], literals, k + 1), LongestMatch(t[m..], next, k), k,
      next[k]);
  }

  lemma {:induction false} LiteralThenRest(literal: Text, changed: Text, rest: Text, replaced: Text, k: nat, to: Text)
    requires Closed(literal)
    requires Replace(literal, PlaceholderText(k + 1), to) == changed
    requires Replace(rest, PlaceholderText(k + 1), to) == replaced
    ensures Replace(literal + rest, PlaceholderText(k + 1), to) == changed + replaced
  {
    PlaceholderIsPattern(k + 1);
    ReplaceSplits(literal, rest, PlaceholderText(k + 1), to);
  }

  /** The dollar sign was left alone so far: it is replaced now iff the index `k+1` follows it. */
  lemma {:induction false} ReplaceAtDollar(t: Text, literals: seq<Text>, next: seq<Text>, k: nat)
    requires Stepped(literals, next, k)
    requires Best(t, k + 1, |literals|, RunLength(t)) == 0
    ensures Replace(LongestMatch([DOLLAR] + t, literals, k + 1), PlaceholderText(k + 1), next[k]) ==
            LongestMatch([DOLLAR] + t, next, k)
    decreases |t|, 2
  {
    if Digits(k + 1) <= t {
      ReplaceIndexHere(t, literals, next, k);
    } else {
      ReplaceElsewhere(t, literals, next, k);
    }
  }

  lemma {:induction false} MatchIndexHere(t: Text, literals: seq<Text>, k: nat)
    requires k < |literals|
    requires Best(t, k + 1, |literals|, RunLength(t)) == 0
    requires Digits(k + 1) <= t
    ensures LongestMatch([DOLLAR] + t, literals, k) ==
            literals[k] + LongestMatch(t[|Digits(k + 1)|..], literals, k)
  {
    var digits := Digits(k + 1);
    MatchDollar(t, literals, k);
    BestStep(t, k, |literals|, RunLength(t));
    PrefixOfRun(digits, t);
    ValueOfDigits(k + 1);
    assert t[..|digits|] == digits;
  }

  lemma {:induction false} ReplaceIndexHere(t: Text, literals: seq<Text>, next: seq<Text>, k: nat)
    requires Stepped(literals, next, k)
    requires Best(t, k + 1, |literals|, RunLength(t)) == 0
    requires Digits(k + 1) <= t
    ensures Replace(LongestMatch([DOLLAR] + t, literals, k + 1), PlaceholderText(k + 1), next[k]) ==
            LongestMatch([DOLLAR] + t, next, k)
    decreases |t|, 1
  {
    var digits := Digits(k + 1);
    var rest := t[|digits|..];
    MatchIndexHere(t, next, k);
    MatchDollar(t, literals, k + 1);
    DigitsPassThrough(digits, t, literals, k + 1);
    ReplaceStep(rest, literals, next, k);
    DollarHit(LongestMatch(t, literals, k + 1), k, LongestMatch(rest, literals, k + 1), next[k],
      LongestMatch(rest, next, k));
  }

  lemma {:induction false} ReplaceElsewhere(t: Text, literals: seq<Text>, next: seq<Text>, k: nat)
    requires Stepped(literals, next, k)
    requires Best(t, k + 1, |literals|, RunLength(t)) == 0
    requires !(Digits(k + 1) <= t)
    ensures Replace(LongestMatch([DOLLAR] + t, literals, k + 1), PlaceholderText(k + 1), next[k]) ==
            LongestMatch([DOLLAR] + t, next, k)
    decreases |t|, 1
  {
    var digits := Digits(k + 1);
    MatchDollar(t, next, k);
    MatchDollar(t, literals, k + 1);
    BestStep(t, k, |literals|, RunLength(t));
    PrefixOfRun(digits, t);
    DigitsPassThrough(digits, t, literals, k + 1);
    ReplaceStep(t, literals, next, k);
    DollarMiss(LongestMatch(t, literals, k + 1), k, next[k], LongestMatch(t, next, k));
  }

  lemma {:induction false} DollarHit(out: Text, k: nat, rest: Text, to: Text, replaced: Text)
    requires Digits(k + 1) <= out && out[|Digits(k + 1)|..] == rest
    requires Replace(rest, PlaceholderText(k + 1), to) == replaced
    ensures Replace([DOLLAR] + out, PlaceholderText(k + 1), to) == to + replaced
  {
    assert out == Digits(k + 1) + rest;
    Associative([DOLLAR], Digits(k + 1), rest);
    ReplaceHit(PlaceholderText(k + 1), rest, to);
  }

  lemma {:induction false} DollarMiss(out: Text, k: nat, to: Text, replaced: Text)
    requires !(Digits(k + 1) <= out)
    requires Replace(out, PlaceholderText(k + 1), to) == replaced
    ensures Replace([DOLLAR] + out, PlaceholderText(k + 1), to) == [DOLLAR] + replaced
  {
    assert !(PlaceholderText(k + 1) <= [DOLLAR] + out) by {
      assert PlaceholderText(k + 1)[1..] == Digits(k + 1) && ([DOLLAR] + out)[1..] == out;
    }
    ReplaceMiss(DOLLAR, out, PlaceholderText(k + 1), to);
  }

  /** The literals after the replacements above `k`: each has the indices between `k` and its own replaced in it. */
  function Settled(literals: seq<Text>, k: nat): (r: seq<Text>)
    ensures |r| == |literals|
  {
    seq(|literals|, j requires 0 <= j < |literals| =>
      if k <= j then InlinedAbove(literals[j], literals[..j], k) else literals[j])
  }

  lemma {:induction false} InlinedStaysClosed(s: Text, literals: seq<Text>, k: nat)
    requires Closed(s) && k <= |literals|
    ensures Closed(InlinedAbove(s, literals, k))
    decreases |literals| - k
  {
    if k < |literals| {
      InlinedStaysClosed(s, literals, k + 1);
      PlaceholderIsPattern(k + 1);
      ReplaceKeepsClosed(InlinedAbove(s, literals, k + 1), PlaceholderText(k + 1), literals[k]);
    }
  }

  lemma {:induction false} SettledClosed(literals: seq<Text>, k: nat)
    requires AllClosed(literals)
    ensures AllClosed(Settled(literals, k))
  {
    forall j | 0 <= j < |literals|
      ensures Closed(Settled(literals, k)[j])
    {
      if k <= j {
        InlinedStaysClosed(literals[j], literals[..j], k);
      }
    }
  }

  lemma {:induction false} SettledStep(literals: seq<Text>, k: nat)
    requires AllClosed(literals) && k < |literals|
    ensures Stepped(Settled(literals, k + 1), Settled(literals, k), k)
    ensures Settled(literals, k)[k] == literals[k]
  {
    SettledClosed(literals, k);
    SettledClosed(literals, k + 1);
    forall j | k < j < |literals|
      ensures Settled(literals, k)[j] == Replace(Settled(literals, k + 1)[j], PlaceholderText(k + 1), literals[k])
    {
      assert literals[..j][k] == literals[k];
    }
  }

  /**
   For all values: replacing from the highest index down is one longest-match pass, in which
   each literal has the lower indices replaced inside it.
   */
  lemma {:induction false} InlineIsLongestMatch(sql: Text, literals: seq<Text>, k: nat)
    requires AllClosed(literals) && k <= |literals|
    ensures InlinedAbove(sql, literals, k) == LongestMatch(sql, Settled(literals, k), k)
    decreases |literals| - k
  {
    if k == |literals| {
      NothingAbove(sql, Settled(literals, k));
    } else {
      InlineIsLongestMatch(sql, literals, k + 1);
      SettledStep(literals, k);
      ReplaceStep(sql, Settled(literals, k + 1), Settled(literals, k), k);
    }
  }

  lemma {:induction false} NothingAbove(s: Text, literals: seq<Text>)
    ensures LongestMatch(s, literals, |literals|) == s
    decreases |s|
  {
    if s != [] {
      NothingAbove(s[1..], literals);
    }
  }

  // ---------------------------------------------------------------------------
  // When that is simultaneous substitution
  // ---------------------------------------------------------------------------

  /** The digits after a dollar sign name no parameter, but begin with a number that does. */
  predicate Overlong(t: Text, n: nat) {
    var run := t[..RunLength(t)];
    Canonical(run) && Value(run) > n && Value(run[..1]) <= n
  }

  /** Something holds of the text after every dollar sign. */
  predicate AfterDollars(s: Text, good: Text -> bool) {
    forall i :: 0 <= i < |s| && s[i] == DOLLAR ==> good(s[i + 1..])
  }

  lemma {:induction false} AfterDollarsTail(s: Text, good: Text -> bool)
    requires s != []
    ensures AfterDollars(s, good) <==> (s[0] == DOLLAR ==> good(s[1..])) && AfterDollars(s[1..], good)
  {
    assert forall i :: 0 <= i < |s[1..]| ==> s[1..][i] == s[i + 1] && s[1..][i + 1..] == s[i + 1 + 1..];
    if AfterDollars(s[1..], good) && (s[0] == DOLLAR ==> good(s[1..])) {
      forall i | 0 <= i < |s| && s[i] == DOLLAR
        ensures good(s[i + 1..])
      {
        if i > 0 {
          assert s[1..][i - 1] == DOLLAR;
        }
      }
    }
  }

  lemma {:induction false} AfterDollarsSkipsDigits(s: Text, m: nat, good: Text -> bool)
    requires m <= |s| && AllDigits(s[..m])
    ensures AfterDollars(s, good) <==> AfterDollars(s[m..], good)
  {
    if m == 0 {
      assert s[0..] == s;
    } else {
      AfterDollarsTail(s, good);
      assert IsDigit(s[..m][0]);
      assert s[1..][..m - 1] == s[..m][1..];
      AfterDollarsSkipsDigits(s[1..], m - 1, good);
      assert s[1..][m - 1..] == s[m..];
    }
  }

  predicate Unambiguous(s: Text, n: nat) {
    AfterDollars(s, t => !Overlong(t, n))
  }

  /** Longest match takes part of a digit run exactly when the run is overlong. */
  lemma {:induction false} PartialMatchIff(t: Text, n: nat)
    ensures var whole := RunLength(t);
            0 < Best(t, 0, n, whole) < whole <==> Overlong(t, n)
  {
    var whole := RunLength(t);
    var m := Best(t, 0, n, whole);
    if Overlong(t, n) {
      FirstDigitNames(t, n);
      assert m >= 1;
    }
    if 0 < m < whole {
      ShorterNamesLess(t, m, whole);
      ShorterNamesLess(t, 1, m);
      assert t[..whole][..1] == t[..1];
      assert t[..m][0] == t[..whole][0] == t[0];
    }
  }

  lemma {:induction false} FirstDigitNames(t: Text, n: nat)
    requires Overlong(t, n)
    ensures Names(t, 1, 0, n)
  {
    var run := t[..RunLength(t)];
    assert run[..1] == t[..1];
    assert t[..1] == [t[0]] && run[0] == t[0];
    DigitsOfValue(t[..1]);
  }

  /** A digit that by itself is the numeral of an index up to `m`. */
  predicate StartsIndex(b: byte, m: nat) {
    49 <= b <= 57 && b as int - 48 <= m
  }

  /** No dollar sign is followed by an index up to `m`, whole or as the start of a longer number. */
  predicate Untouched(value: Text, m: nat) {
    forall i :: 0 <= i < |value| - 1 && value[i] == DOLLAR ==> !StartsIndex(value[i + 1], m)
  }

  lemma {:induction false} UntouchedTail(s: Text, m: nat)
    requires s != []
    ensures Untouched(s, m) <==>
            (s[0] == DOLLAR && |s| > 1 ==> !StartsIndex(s[1], m)) && Untouched(s[1..], m)
  {
    assert forall i :: 0 <= i < |s[1..]| ==> s[1..][i] == s[i + 1];
    if Untouched(s[1..], m) && (s[0] == DOLLAR && |s| > 1 ==> !StartsIndex(s[1], m)) {
      forall i | 0 <= i < |s| - 1 && s[i] == DOLLAR
        ensures !StartsIndex(s[i + 1], m)
      {
        if i > 0 {
          assert s[1..][i - 1] == DOLLAR;
        }
      }
    }
  }

  /** A longest match exists exactly when the first digit is an index by itself. */
  lemma {:induction false} MatchesIff(t: Text, n: nat)
    ensures Best(t, 0, n, RunLength(t)) > 0 <==> t != [] && StartsIndex(t[0], n)
  {
    var m := Best(t, 0, n, RunLength(t));
    if t != [] && StartsIndex(t[0], n) {
      assert t[..1] == [t[0]] && [t[0]][..0] == [] && Value(t[..1]) == t[0] - 48;
      assert Names(t, 1, 0, n);
    }
    if m > 0 {
      ShorterNamesLess(t, 1, m);
      assert t[..1][..0] == [] && Value(t[..1]) == t[0] - 48;
      assert t[..m][0] == t[0] && IsDigit(t[..m][0]);
    }
  }

  /** The two texts part at a position both have. */
  ghost predicate Differ(a: Text, b: Text) {
    exists p :: 0 <= p < |a| && p < |b| && a[p] != b[p]
  }

  lemma {:induction false} DifferUnder(front: Text, a: Text, b: Text)
    ensures Differ(a, b) ==> Differ(front + a, front + b)
  {
    if p :| 0 <= p < |a| && p < |b| && a[p] != b[p] {
      assert (front + a)[|front| + p] != (front + b)[|front| + p];
    }
  }

  /** Longest match leaves a text alone, or changes a dollar sign in place. */
  lemma {:induction false} LeftAloneIff(t: Text, literals: seq<Text>)
    requires AllClosed(literals)
    ensures Untouched(t, |literals|) ==> LongestMatch(t, literals, 0) == t
    ensures !Untouched(t, |literals|) ==> Differ(LongestMatch(t, literals, 0), t)
  {
    if t != [] {
      var rest := t[1..];
      var out := LongestMatch(t, literals, 0);
      assert t == [t[0]] + rest;
      UntouchedTail(t, |literals|);
      MatchesIff(rest, |literals|);
      if t[0] == DOLLAR && Best(rest, 0, |literals|, RunLength(rest)) > 0 {
        assert out[0] != t[0];
      } else {
        LeftAloneIff(rest, literals);
        DifferUnder([t[0]], LongestMatch(rest, literals, 0), rest);
      }
    }
  }

  /** A literal comes through the replacements of the lower indices unchanged, or changed in place. */
  lemma {:induction false} SettledIff(literals: seq<Text>, j: nat)
    requires AllClosed(literals) && j < |literals|
    ensures Untouched(literals[j], j) ==> Settled(literals, 0)[j] == literals[j]
    ensures !Untouched(literals[j], j) ==> Differ(Settled(literals, 0)[j], literals[j])
  {
    var lower := literals[..j];
    InlineIsLongestMatch(literals[j], lower, 0);
    SettledClosed(lower, 0);
    LeftAloneIff(literals[j], Settled(lower, 0));
  }

  /** Each settled literal is the literal itself or parts from it at a position both have. */
  ghost predicate ChangedInPlace(literals: seq<Text>, settled: seq<Text>) {
    && |literals| == |settled|
    && forall j :: 0 <= j < |literals| ==> settled[j] == literals[j] || Differ(settled[j], literals[j])
  }

  /** What must hold after a dollar sign: the digits do not overshoot, and the literal they name settles unchanged. */
  predicate Kept(t: Text, literals: seq<Text>, settled: seq<Text>)
    requires |literals| == |settled|
  {
    var m := RunLength(t);
    && !Overlong(t, |literals|)
    && (Names(t, m, 0, |literals|) ==> settled[Value(t[..m]) - 1] == literals[Value(t[..m]) - 1])
  }

  predicate AllKept(s: Text, literals: seq<Text>, settled: seq<Text>)
    requires |literals| == |settled|
  {
    AfterDollars(s, t => Kept(t, literals, settled))
  }

  /** Longest match with settled literals is simultaneous substitution exactly when all is kept. */
  lemma {:induction false} LongestIsSimultaneousIff(s: Text, literals: seq<Text>, settled: seq<Text>)
    requires AllClosed(settled) && ChangedInPlace(literals, settled)
    ensures LongestMatch(s, settled, 0) == Substitute(s, literals) <==> AllKept(s, literals, settled)
    decreases |s|
  {
    if s != [] {
      AfterDollarsTail(s, t => Kept(t, literals, settled));
      if s[0] != DOLLAR {
        LongestIsSimultaneousIff(s[1..], literals, settled);
        SameHead([s[0]], LongestMatch(s[1..], settled, 0), Substitute(s[1..], literals));
      } else {
        DollarCase(s, literals, settled);
      }
    }
  }

  lemma {:induction false} SubstituteDollar(t: Text, literals: seq<Text>)
    ensures var m := RunLength(t);
            Substitute([DOLLAR] + t, literals) ==
              if Names(t, m, 0, |literals|) then literals[Value(t[..m]) - 1] + Substitute(t[m..], literals)
              else [DOLLAR] + Substitute(t, literals)
  {
    assert ([DOLLAR] + t)[1..] == t;
  }

  lemma {:induction false} DollarCase(s: Text, literals: seq<Text>, settled: seq<Text>)
    requires AllClosed(settled) && ChangedInPlace(literals, settled)
    requires s != [] && s[0] == DOLLAR
    ensures LongestMatch(s, settled, 0) == Substitute(s, literals) <==> AllKept(s, literals, settled)
    decreases |s|, 0
  {
    var n, t := |literals|, s[1..];
    var m := Best(t, 0, n, RunLength(t));
    assert s == [DOLLAR] + t;
    AfterDollarsTail(s, t => Kept(t, literals, settled));
    PartialMatchIff(t, n);
    if m == 0 {
      LongestIsSimultaneousIff(t, literals, settled);
      NoMatchCase(t, literals, settled);
    } else if m == RunLength(t) {
      LongestIsSimultaneousIff(t[m..], literals, settled);
      AfterDollarsSkipsDigits(t, m, t => Kept(t, literals, settled));
      WholeMatchCase(t, literals, settled);
    } else {
      PartialMatchCase(t, literals, settled);
    }
  }

  lemma {:induction false} NoMatchCase(t: Text, literals: seq<Text>, settled: seq<Text>)
    requires |literals| == |settled| && Best(t, 0, |literals|, RunLength(t)) == 0
    ensures LongestMatch([DOLLAR] + t, settled, 0) == Substitute([DOLLAR] + t, literals) <==>
            LongestMatch(t, settled, 0) == Substitute(t, literals)
    ensures !Names(t, RunLength(t), 0, |literals|)
  {
    MatchDollar(t, settled, 0);
    SubstituteDollar(t, literals);
    assert !Names(t, RunLength(t), 0, |literals|);
    SameHead([DOLLAR], LongestMatch(t, settled, 0), Substitute(t, literals));
  }

  lemma {:induction false} WholeMatchCase(t: Text, literals: seq<Text>, settled: seq<Text>)
    requires ChangedInPlace(literals, settled) && 0 < Best(t, 0, |literals|, RunLength(t)) == RunLength(t)
    ensures var m := RunLength(t);
            LongestMatch([DOLLAR] + t, settled, 0) == Substitute([DOLLAR] + t, literals) <==>
            && settled[Value(t[..m]) - 1] == literals[Value(t[..m]) - 1]
            && LongestMatch(t[m..], settled, 0) == Substitute(t[m..], literals)
  {
    var m := RunLength(t);
    var j := Value(t[..m]) - 1;
    MatchDollar(t, settled, 0);
    SubstituteDollar(t, literals);
    if settled[j] == literals[j] {
      SameHead(literals[j], LongestMatch(t[m..], settled, 0), Substitute(t[m..], literals));
    } else {
      DifferBefore(settled[j], literals[j], LongestMatch(t[m..], settled, 0), Substitute(t[m..], literals));
    }
  }

  lemma {:induction false} DifferBefore(a: Text, b: Text, x: Text, y: Text)
    requires Differ(a, b)
    ensures a + x != b + y
  {
    var p :| 0 <= p < |a| && p < |b| && a[p] != b[p];
    assert (a + x)[p] != (b + y)[p];
  }

  lemma {:induction false} PartialMatchCase(t: Text, literals: seq<Text>, settled: seq<Text>)
    requires AllClosed(settled) && |literals| == |settled|
    requires 0 < Best(t, 0, |literals|, RunLength(t)) < RunLength(t)
    ensures LongestMatch([DOLLAR] + t, settled, 0) != Substitute([DOLLAR] + t, literals)
  {
    var m := Best(t, 0, |literals|, RunLength(t));
    MatchDollar(t, settled, 0);
    SubstituteDollar(t, literals);
    assert !Names(t, RunLength(t), 0, |literals|);
    DifferentHead(settled[Value(t[..m]) - 1], LongestMatch(t[m..], settled, 0), Substitute(t, literals));
  }

  lemma {:induction false} DifferentHead(literal: Text, a: Text, b: Text)
    requires literal != [] && literal[0] != DOLLAR
    ensures literal + a != [DOLLAR] + b
  {
    assert (literal + a)[0] != ([DOLLAR] + b)[0];
  }

  lemma {:induction false} SameHead(head: Text, a: Text, b: Text)
    ensures head + a == head + b <==> a == b
  {
    assert (head + a)[|head|..] == a && (head + b)[|head|..] == b;
  }

  /** Quoting neither adds nor hides an index after a dollar sign. */
  lemma {:induction false} DoubledUntouched(value: Text, m: nat)
    ensures Untouched(Doubled(value) + [TICK], m) <==> Untouched(value, m)
    ensures value != [] ==> Doubled(value)[0] == value[0]
  {
    if value == [] {
      assert Doubled(value) + [TICK] == [TICK];
    } else {
      var rest := Doubled(value[1..]) + [TICK];
      var all := Doubled(value) + [TICK];
      DoubledUntouched(value[1..], m);
      UntouchedTail(value, m);
      assert rest[0] == if |value| > 1 then value[1] else TICK;
      UntouchedTail(all, m);
      if value[0] == TICK {
        assert all == [TICK] + ([TICK] + rest);
        assert all[1..] == [TICK] + rest && ([TICK] + rest)[1..] == rest;
        UntouchedTail([TICK] + rest, m);
      } else {
        assert all == [value[0]] + rest;
        assert all[1..] == rest;
      }
    }
  }

  lemma {:induction false} LiteralUntouched(value: Text, m: nat)
    ensures Untouched(SqlLiteral(value), m) <==> Untouched(value, m)
  {
    if EqIgnoreCase(value, NULL_WORD) {
      assert DOLLAR !in value by {
        assert forall i :: 0 <= i < |value| ==> Lower(value)[i] == Lower(NULL_WORD)[i];
      }
    } else {
      var literal, body := SqlLiteral(value), Doubled(value) + [TICK];
      ReplaceDoubles(value);
      DoubledUntouched(value, m);
      assert literal == [TICK] + body && literal[1..] == body;
      UntouchedTail(literal, m);
    }
  }

  /** Every parameter the text refers to has a value without a lower index after a dollar sign. */
  predicate ReferencedUntouched(sql: Text, params: seq<Text>) {
    AfterDollars(sql, t => ValueUntouched(t, params))
  }

  predicate ValueUntouched(t: Text, params: seq<Text>) {
    var m := RunLength(t);
    Names(t, m, 0, |params|) ==> Untouched(params[Value(t[..m]) - 1], Value(t[..m]) - 1)
  }

  lemma {:induction false} KeptIff(t: Text, params: seq<Text>)
    ensures Kept(t, Literals(params), Settled(Literals(params), 0)) <==>
            !Overlong(t, |params|) && ValueUntouched(t, params)
  {
    var m, literals := RunLength(t), Literals(params);
    LiteralsClosed(params);
    if Names(t, m, 0, |params|) {
      var j := Value(t[..m]) - 1;
      SettledIff(literals, j);
      LiteralUntouched(params[j], j);
    }
  }

  /**
   For all texts and values: the loop substitutes all placeholders at once exactly when no
   digit run after a dollar sign overshoots (`$1` never corrupts `$10` while `$10` names a
   parameter too), and no value that the text refers to by index `j` has a dollar sign
   followed by an index below `j`.
   */
  lemma {:induction false} InlineIsSimultaneousIff(sql: Text, params: seq<Text>)
    ensures InlinedAbove(sql, Literals(params), 0) == Substitute(sql, Literals(params)) <==>
            Unambiguous(sql, |params|) && ReferencedUntouched(sql, params)
  {
    var literals := Literals(params);
    var settled := Settled(literals, 0);
    LiteralsClosed(params);
    SettledClosed(literals, 0);
    forall j | 0 <= j < |literals|
      ensures settled[j] == literals[j] || Differ(settled[j], literals[j])
    {
      SettledIff(literals, j);
    }
    InlineIsLongestMatch(sql, literals, 0);
    LongestIsSimultaneousIff(sql, literals, settled);
    forall i | 0 <= i < |sql| && sql[i] == DOLLAR
      ensures Kept(sql[i + 1..], literals, settled) <==>
              !Overlong(sql[i + 1..], |params|) && ValueUntouched(sql[i + 1..], params)
    {
      KeptIff(sql[i + 1..], params);
    }
  }

  /** Overlong runs do occur: with one parameter, `$12` becomes its literal followed by a 2. */
  lemma {:induction false} OverlongIsCorrupted(value: Text)
    ensures InlinedAbove(PlaceholderText(12), Literals([value]), 0) !=
            Substitute(PlaceholderText(12), Literals([value]))
  {
    var sql := PlaceholderText(12);
    assert Digits(1) == [49] && Digits(12) == [49, 50];
    assert sql == [DOLLAR, 49, 50] && sql[1..] == [49, 50];
    assert RunLength([50]) == 1 && [49, 50][1..] == [50];
    assert Value([49]) == 1 by { assert [49][..0] == []; }
    assert Value([49, 50]) == 12 by { assert [49, 50][..1] == [49]; }
    assert sql[0] == DOLLAR && Overlong(sql[1..], 1);
    InlineIsSimultaneousIff(sql, [value]);
  }

  /** And so do rewritten values: a second parameter whose value is the text `$1`. */
  lemma {:induction false} DollarValueIsRewritten(first: Text)
    ensures var params := [first, PlaceholderText(1)];
            InlinedAbove(PlaceholderText(2), Literals(params), 0) != Substitute(PlaceholderText(2), Literals(params))
  {
    var sql, params := PlaceholderText(2), [first, PlaceholderText(1)];
    assert sql == [DOLLAR, 50] && sql[1..] == [50] && params[1] == [DOLLAR, 49];
    assert RunLength([50]) == 1 && [50][..1] == [50] && [50][..0] == [] && Value([50]) == 2;
    assert Names([50], 1, 0, 2) && params[1][0] == DOLLAR && StartsIndex(params[1][1], 1);
    assert !Untouched(params[1], 1);
    assert sql[0] == DOLLAR && !ValueUntouched(sql[1..], params);
    InlineIsSimultaneousIff(sql, params);
  }

  // ---------------------------------------------------------------------------
  // Reading a literal back
  // ---------------------------------------------------------------------------

  /** The body of a quoted literal after its opening tick; a doubled tick is one tick. */
  function Unquoted(s: Text): Option<Text>
    decreases |s|
  {
    if s == [] then None
    else if s[0] != TICK then Prepend(s[0], Unquoted(s[1..]))
    else if |s| > 1 && s[1] == TICK then Prepend(TICK, Unquoted(s[2..]))
    else Some([])
  }

  function Prepend(b: byte, rest: Option<Text>): Option<Text> {
    match rest
    case Some(t) => Some([b] + t)
    case None => None
  }

  function PrependAll(front: Text, rest: Option<Text>): Option<Text> {
    match rest
    case Some(t) => Some(front + t)
    case None => None
  }

  lemma {:induction false} PrependMoves(front: Text, b: byte, rest: Option<Text>)
    ensures PrependAll(front, Prepend(b, rest)) == PrependAll(front + [b], rest)
  {
    if rest.Some? {
      Associative(front, [b], rest.value);
    }
  }

  /** The literal at the front of a text, after white space. */
  function ReadLiteral(text: Text): Option<Text> {
    var s := TrimStart(text);
    if s != [] && s[0] == TICK then Unquoted(s[1..]) else None
  }

  /** `parse_sql_string_literal` */
  method ParseSqlStringLiteral(text: Text) returns (r: Option<Text>)
    ensures r == ReadLiteral(text)
  {
    var s := TrimStart(text);
    if s == [] || s[0] != TICK {
      return None;
    }
    var out: Text := [];
    var i := 1;
    assert forall t: Text :: [] + t == t;
    while i < |s|
      invariant 1 <= i <= |s|
      invariant Unquoted(s[1..]) == PrependAll(out, Unquoted(s[i..]))
    {
      var c := s[i];
      assert s[i..][1..] == s[i + 1..];
      PrependMoves(out, c, Unquoted(s[i + 1..]));
      if c == TICK {
        if i + 1 < |s| && s[i + 1] == TICK {
          assert s[i..][2..] == s[i + 2..];
          PrependMoves(out, TICK, Unquoted(s[i + 2..]));
          out := out + [TICK];
          i := i + 2;
        } else {
          assert out + [] == out;
          return Some(out);
        }
      } else {
        out := out + [c];
        i := i + 1;
      }
    }
    r := None;
  }

  lemma {:induction false} UnquoteDoubled(value: Text, rest: Text)
    requires rest == [] || rest[0] != TICK
    ensures Unquoted(Doubled(value) + [TICK] + rest) == Some(value)
  {
    if value == [] {
      assert Doubled(value) + [TICK] + rest == [TICK] + rest;
    } else {
      UnquoteDoubled(value[1..], rest);
      var tail := Doubled(value[1..]) + [TICK] + rest;
      var s := Doubled(value) + [TICK] + rest;
      assert value == [value[0]] + value[1..];
      if value[0] == TICK {
        assert s == [TICK, TICK] + tail;
        assert s[2..] == tail;
      } else {
        assert s == [value[0]] + tail;
        assert s[1..] == tail;
      }
    }
  }

  lemma {:induction false} LiteralText(value: Text, rest: Text)
    requires !EqIgnoreCase(value, NULL_WORD)
    ensures SqlLiteral(value) + rest == [TICK] + (Doubled(value) + [TICK] + rest)
  {
    ReplaceDoubles(value);
  }

  lemma {:induction false} ReadTick(text: Text)
    ensures ReadLiteral([TICK] + text) == Unquoted(text)
  {
    assert ([TICK] + text)[1..] == text;
  }

  lemma {:induction false} ReadNull(rest: Text)
    ensures ReadLiteral(NULL_WORD + rest) == None
  {
    var text := NULL_WORD + rest;
    assert text[0] == 78 && SpaceWidth(text) == 0;
  }

  /**
   Quoting round trip: the dialect router reads an inlined value back exactly, in any
   surrounding text, unless it is some spelling of NULL, which is not a string literal.
   */
  lemma {:induction false} InlinedValueReadsBack(blanks: Text, value: Text, rest: Text)
    requires TrimStart(blanks) == []
    requires rest == [] || rest[0] != TICK
    ensures ReadLiteral(blanks + (SqlLiteral(value) + rest)) ==
            if EqIgnoreCase(value, NULL_WORD) then None else Some(value)
  {
    TrimStartSkips(blanks, SqlLiteral(value) + rest);
    if EqIgnoreCase(value, NULL_WORD) {
      ReadNull(rest);
    } else {
      LiteralText(value, rest);
      UnquoteDoubled(value, rest);
      ReadTick(Doubled(value) + [TICK] + rest);
    }
  }

  // ---------------------------------------------------------------------------
  // Whole statements, token by token
  // ---------------------------------------------------------------------------

  /** What the loop makes of a text. */
  function Inlined(text: Text, params: seq<Text>): Text {
    InlinedAbove(text, Literals(params), 0)
  }

  /** A token that is a placeholder for one of `n` parameters, spelled as the loop looks for it. */
  predicate IsPlaceholder(token: Text, n: nat) {
    token != [] && token[0] == DOLLAR && Canonical(token[1..]) && Value(token[1..]) <= n
  }

  /** The parameter a placeholder names, from 0. */
  function IndexOf(token: Text, n: nat): (j: nat)
    requires IsPlaceholder(token, n)
    ensures j < n && token == PlaceholderText(j + 1)
  {
    DigitsOfValue(token[1..]);
    Value(token[1..]) - 1
  }

  /** The token as binding should send it: a placeholder's literal, anything else as it is. */
  function BoundToken(token: Text, params: seq<Text>): Text {
    if IsPlaceholder(token, |params|) then SqlLiteral(params[IndexOf(token, |params|)]) else token
  }

  /**
   What keeps a token safe: nothing in it, or in the value it stands for, looks like an index still
   to be replaced.
   */
  predicate TokenIntact(token: Text, params: seq<Text>) {
    if IsPlaceholder(token, |params|)
    then Untouched(params[IndexOf(token, |params|)], IndexOf(token, |params|))
    else Untouched(token, |params|)
  }

  lemma {:induction false} PlaceholderMatches(token: Text, literals: seq<Text>)
    requires IsPlaceholder(token, |literals|)
    ensures LongestMatch(token, literals, 0) == literals[IndexOf(token, |literals|)]
  {
    var digits := token[1..];
    assert token == [DOLLAR] + digits;
    AllDigitsRun(digits);
    DigitsOfValue(digits);
    assert digits[..|digits|] == digits && Names(digits, |digits|, 0, |literals|);
    MatchDollar(digits, literals, 0);
    assert literals[Value(digits) - 1] + [] == literals[Value(digits) - 1];
  }

  lemma {:induction false} AllDigitsRun(s: Text)
    requires AllDigits(s)
    ensures RunLength(s) == |s|
  {
    if s != [] {
      AllDigitsRun(s[1..]);
    }
  }

  /** A token is sent as bound exactly when it is intact; otherwise it is changed in place. */
  lemma {:induction false} TokenInlinesIff(token: Text, params: seq<Text>)
    ensures TokenIntact(token, params) ==> Inlined(token, params) == BoundToken(token, params)
    ensures !TokenIntact(token, params) ==> Differ(Inlined(token, params), BoundToken(token, params))
  {
    var literals := Literals(params);
    LiteralsClosed(params);
    SettledClosed(literals, 0);
    InlineIsLongestMatch(token, literals, 0);
    if IsPlaceholder(token, |params|) {
      var j := IndexOf(token, |params|);
      PlaceholderMatches(token, Settled(literals, 0));
      SettledIff(literals, j);
      LiteralUntouched(params[j], j);
    } else {
      LeftAloneIff(token, Settled(literals, 0));
    }
  }

  /**
   Replacement keeps the last byte of a text that does not end in a placeholder, and the first of
   one that does not start with one.
   */
  lemma {:induction false} EndsKept(s: Text, pattern: Text, to: Text)
    requires s != [] && IsPattern(pattern)
    ensures !PlaceholderByte(s[0]) ==> Replace(s, pattern, to) != [] && Replace(s, pattern, to)[0] == s[0]
    ensures !PlaceholderByte(Last(s)) ==> Replace(s, pattern, to) != [] && Last(Replace(s, pattern, to)) == Last(s)
  {
    if !PlaceholderByte(Last(s)) {
      var front, last := s[..|s| - 1], [Last(s)];
      assert s == front + last;
      ReplaceSplits(front, last, pattern, to);
      assert Replace(last, pattern, to) == last by {
        assert last[1..] == [];
      }
    }
  }

  /** Texts on either side of a seam are inlined by themselves, and the seam stays. */
  lemma {:induction false} InlineSplits(front: Text, rest: Text, literals: seq<Text>, k: nat)
    requires k <= |literals| && Seam(front, rest)
    ensures InlinedAbove(front + rest, literals, k) ==
            InlinedAbove(front, literals, k) + InlinedAbove(rest, literals, k)
    ensures Seam(InlinedAbove(front, literals, k), InlinedAbove(rest, literals, k))
    decreases |literals| - k
  {
    if k < |literals| {
      InlineSplits(front, rest, literals, k + 1);
      var a, b := InlinedAbove(front, literals, k + 1), InlinedAbove(rest, literals, k + 1);
      PlaceholderIsPattern(k + 1);
      ReplaceSplits(a, b, PlaceholderText(k + 1), literals[k]);
      if a != [] && !PlaceholderByte(Last(a)) {
        EndsKept(a, PlaceholderText(k + 1), literals[k]);
      } else {
        EndsKept(b, PlaceholderText(k + 1), literals[k]);
      }
    }
  }

  /** A statement: its tokens, each followed by a space. */
  function Spaced(tokens: seq<Text>): Text {
    FlatMap(tokens, (token: Text) => token + [SPACE])
  }

  function BoundTokens(tokens: seq<Text>, params: seq<Text>): (r: seq<Text>)
    ensures |r| == |tokens| && forall i :: 0 <= i < |tokens| ==> r[i] == BoundToken(tokens[i], params)
  {
    seq(|tokens|, i requires 0 <= i < |tokens| => BoundToken(tokens[i], params))
  }

  ghost predicate AllIntact(tokens: seq<Text>, params: seq<Text>) {
    forall i :: 0 <= i < |tokens| ==> TokenIntact(tokens[i], params)
  }

  lemma {:induction false} SpaceStays(params: seq<Text>)
    ensures Inlined([SPACE], params) == [SPACE]
  {
    assert [SPACE][0] != DOLLAR && Untouched([SPACE], |params|);
    TokenInlinesIff([SPACE], params);
  }

  lemma {:induction false} InlineCons(token: Text, rest: Text, params: seq<Text>)
    ensures Inlined(token + [SPACE] + rest, params) == Inlined(token, params) + [SPACE] + Inlined(rest, params)
  {
    InlineSplits(token + [SPACE], rest, Literals(params), 0);
    InlineSplits(token, [SPACE], Literals(params), 0);
    SpaceStays(params);
  }

  lemma {:induction false} SpacedCons(tokens: seq<Text>)
    requires tokens != []
    ensures Spaced(tokens) == tokens[0] + [SPACE] + Spaced(tokens[1..])
  {}

  lemma {:induction false} InlinedNothing(params: seq<Text>)
    ensures Inlined([], params) == []
  {
    assert Untouched([], |params|);
    TokenInlinesIff([], params);
  }

  /**
   For every statement and all values: the shard receives the statement with each placeholder
   token replaced by its literal, and nothing else changed, if and only if every token is
   intact. Literals, identifiers and placeholders past the last parameter count as tokens too.
   */
  lemma {:induction false} StatementInlinesIff(tokens: seq<Text>, params: seq<Text>)
    ensures Inlined(Spaced(tokens), params) == Spaced(BoundTokens(tokens, params)) <==> AllIntact(tokens, params)
  {
    if tokens == [] {
      InlinedNothing(params);
    } else {
      var token, rest := tokens[0], tokens[1..];
      StatementInlinesIff(rest, params);
      SpacedCons(tokens);
      SpacedCons(BoundTokens(tokens, params));
      assert BoundTokens(tokens, params)[1..] == BoundTokens(rest, params);
      InlineCons(token, Spaced(rest), params);
      TokenInlinesIff(token, params);
      HeadsAndTails(Inlined(token, params), BoundToken(token, params), Inlined(Spaced(rest), params),
        Spaced(BoundTokens(rest, params)));
      AllIntactCons(tokens, params);
    }
  }

  lemma {:induction false} AllIntactCons(tokens: seq<Text>, params: seq<Text>)
    requires tokens != []
    ensures AllIntact(tokens, params) <==> TokenIntact(tokens[0], params) && AllIntact(tokens[1..], params)
  {
    assert forall i :: 0 <= i < |tokens[1..]| ==> tokens[1..][i] == tokens[i + 1];
    if TokenIntact(tokens[0], params) && AllIntact(tokens[1..], params) {
      forall i | 0 <= i < |tokens|
        ensures TokenIntact(tokens[i], params)
      {
        assert i > 0 ==> tokens[1..][i - 1] == tokens[i];
      }
    }
  }

  lemma {:induction false} HeadsAndTails(a: Text, b: Text, x: Text, y: Text)
    requires a == b || Differ(a, b)
    ensures a + [SPACE] + x == b + [SPACE] + y <==> a == b && x == y
  {
    Associative(a, [SPACE], x);
    Associative(b, [SPACE], y);
    if a == b {
      SameHead(a + [SPACE], x, y);
    } else {
      DifferBefore(a, b, [SPACE] + x, [SPACE] + y);
    }
  }

  // ---------------------------------------------------------------------------
  // What the shard reads in place of a value
  // ---------------------------------------------------------------------------

  lemma {:induction false} UnquotedNext(b: byte, text: Text)
    requires b != TICK
    ensures Unquoted([b] + text) == Prepend(b, Unquoted(text))
  {
    assert ([b] + text)[1..] == text;
  }

  lemma {:induction false} UnquotedTicks(text: Text)
    ensures Unquoted([TICK, TICK] + text) == Prepend(TICK, Unquoted(text))
  {
    assert ([TICK, TICK] + text)[2..] == text;
  }

  /** Text that starts with neither a dollar sign nor a digit never reads as a value starting with a dollar sign. */
  lemma {:induction false} UnquotedElse(text: Text, value: Text)
    requires text != [] && text[0] != DOLLAR && value != [] && value[0] == DOLLAR
    ensures Unquoted(text) != Some(value)
  {}

  /** The body of a quoted value behind the replacements. */
  function Body(value: Text, literals: seq<Text>): Text {
    LongestMatch(Doubled(value) + [TICK], literals, 0)
  }

  lemma {:induction false} BodyDollar(value: Text, literals: seq<Text>)
    requires value != [] && value[0] == DOLLAR && !(|value| > 1 && StartsIndex(value[1], |literals|))
    ensures Body(value, literals) == [DOLLAR] + Body(value[1..], literals)
  {
    var rest := Doubled(value[1..]) + [TICK];
    assert Doubled(value) + [TICK] == [DOLLAR] + rest;
    DoubledUntouched(value[1..], 0);
    assert rest[0] == if |value| > 1 then value[1] else TICK;
    MatchesIff(rest, |literals|);
    MatchDollar(rest, literals, 0);
  }

  lemma {:induction false} BodyTick(value: Text, literals: seq<Text>)
    requires value != [] && value[0] == TICK
    ensures Body(value, literals) == [TICK, TICK] + Body(value[1..], literals)
  {
    var rest := Doubled(value[1..]) + [TICK];
    assert Doubled(value) + [TICK] == [TICK] + ([TICK] + rest);
    MatchOther(TICK, [TICK] + rest, literals, 0);
    MatchOther(TICK, rest, literals, 0);
    assert [TICK] + ([TICK] + LongestMatch(rest, literals, 0)) == [TICK, TICK] + LongestMatch(rest, literals, 0);
  }

  lemma {:induction false} BodyNext(value: Text, literals: seq<Text>)
    requires AllClosed(literals) && value != []
    requires !(value[0] == DOLLAR && |value| > 1 && StartsIndex(value[1], |literals|))
    ensures Body(value, literals) ==
            (if value[0] == TICK then [TICK, TICK] else [value[0]]) + Body(value[1..], literals)
  {
    if value[0] == TICK {
      BodyTick(value, literals);
    } else if value[0] == DOLLAR {
      BodyDollar(value, literals);
    } else {
      var rest := Doubled(value[1..]) + [TICK];
      assert Doubled(value) + [TICK] == [value[0]] + rest;
      MatchOther(value[0], rest, literals, 0);
    }
  }

  lemma {:induction false} BodyTouchedHere(value: Text, literals: seq<Text>)
    requires AllClosed(literals)
    requires |value| > 1 && value[0] == DOLLAR && StartsIndex(value[1], |literals|)
    ensures Body(value, literals) != [] && Body(value, literals)[0] != DOLLAR
  {
    var rest := Doubled(value[1..]) + [TICK];
    assert Doubled(value) + [TICK] == [DOLLAR] + rest;
    DoubledUntouched(value[1..], 0);
    assert rest[0] == value[1];
    MatchesIff(rest, |literals|);
    MatchDollar(rest, literals, 0);
  }

  /** A touched value never reads back, whatever follows. */
  lemma {:induction false} TouchedIsMisread(value: Text, literals: seq<Text>, rest: Text)
    requires AllClosed(literals) && !Untouched(value, |literals|)
    ensures Unquoted(Body(value, literals) + rest) != Some(value)
  {
    UntouchedTail(value, |literals|);
    if value[0] == DOLLAR && |value| > 1 && StartsIndex(value[1], |literals|) {
      BodyTouchedHere(value, literals);
      UnquotedElse(Body(value, literals) + rest, value);
    } else {
      var tail := Body(value[1..], literals) + rest;
      TouchedIsMisread(value[1..], literals, rest);
      BodyNext(value, literals);
      assert value == [value[0]] + value[1..];
      if value[0] == TICK {
        Associative([TICK, TICK], Body(value[1..], literals), rest);
        UnquotedTicks(tail);
      } else {
        Associative([value[0]], Body(value[1..], literals), rest);
        UnquotedNext(value[0], tail);
      }
    }
  }

  /** A quoted value, as SQL text writes it. */
  function Quote(value: Text): Text {
    [TICK] + (Doubled(value) + [TICK])
  }

  /** A quoted value behind the replacements of `literals` reads back exactly when it is untouched. */
  lemma {:induction false} QuoteReadsBackIff(value: Text, literals: seq<Text>, rest: Text)
    requires AllClosed(literals) && (rest == [] || rest[0] != TICK)
    ensures ReadLiteral(LongestMatch(Quote(value), literals, 0) + rest) == Some(value) <==> Untouched(value, |literals|)
  {
    var body := Body(value, literals);
    MatchOther(TICK, Doubled(value) + [TICK], literals, 0);
    Associative([TICK], body, rest);
    ReadTick(body + rest);
    if Untouched(value, |literals|) {
      DoubledUntouched(value, |literals|);
      LeftAloneIff(Doubled(value) + [TICK], literals);
      UnquoteDoubled(value, rest);
    } else {
      TouchedIsMisread(value, literals, rest);
    }
  }

  /** A string literal of the statement reads back on the shard exactly when no index follows a dollar sign in it. */
  lemma {:induction false} StringReadsBackIff(value: Text, params: seq<Text>, rest: Text)
    requires rest == [] || rest[0] != TICK
    ensures ReadLiteral(Inlined(Quote(value), params) + rest) == Some(value) <==> Untouched(value, |params|)
  {
    LiteralsClosed(params);
    SettledClosed(Literals(params), 0);
    InlineIsLongestMatch(Quote(value), Literals(params), 0);
    QuoteReadsBackIff(value, Settled(Literals(params), 0), rest);
  }

  /** A bound value reads back on the shard exactly when no lower index follows a dollar sign in it. */
  lemma {:induction false} ParameterReadsBackIff(params: seq<Text>, j: nat, rest: Text)
    requires j < |params| && !EqIgnoreCase(params[j], NULL_WORD) && (rest == [] || rest[0] != TICK)
    ensures ReadLiteral(Inlined(PlaceholderText(j + 1), params) + rest) == Some(params[j]) <==> Untouched(params[j], j)
  {
    var literals := Literals(params);
    var lower := Settled(literals[..j], 0);
    PlaceholderToken(j, |params|);
    LiteralsClosed(params);
    InlineIsLongestMatch(PlaceholderText(j + 1), literals, 0);
    PlaceholderMatches(PlaceholderText(j + 1), Settled(literals, 0));
    InlineIsLongestMatch(literals[j], literals[..j], 0);
    SettledClosed(literals[..j], 0);
    LiteralText(params[j], []);
    assert literals[j] + [] == literals[j] && Doubled(params[j]) + [TICK] + [] == Doubled(params[j]) + [TICK];
    QuoteReadsBackIff(params[j], lower, rest);
  }

  lemma {:induction false} PlaceholderToken(j: nat, n: nat)
    requires j < n
    ensures IsPlaceholder(PlaceholderText(j + 1), n) && IndexOf(PlaceholderText(j + 1), n) == j
  {
    assert PlaceholderText(j + 1)[1..] == Digits(j + 1);
    ValueOfDigits(j + 1);
  }

  lemma {:induction false} NoTicks(value: Text)
    requires TICK !in value
    ensures Doubled(value) == value
  {
    if value != [] {
      NoTicks(value[1..]);
    }
  }

  lemma {:induction false} PlainLiteral(value: Text)
    requires TICK !in value && !EqIgnoreCase(value, NULL_WORD)
    ensures SqlLiteral(value) == [TICK] + value + [TICK]
  {
    ReplaceDoubles(value);
    NoTicks(value);
  }

  lemma {:induction false} QuotedOne()
    ensures SqlLiteral(PlaceholderText(1)) == [TICK] + (PlaceholderText(1) + [TICK])
  {
    var one := PlaceholderText(1);
    assert one == [DOLLAR, 49] && TICK !in one;
    assert Lower(one)[0] == DOLLAR && Lower(NULL_WORD)[0] == 110;
    PlainLiteral(one);
  }

  lemma {:induction false} ReplaceOneInside(pattern: Text, to: Text)
    requires pattern != [] && pattern[0] != TICK
    ensures Replace([TICK] + (pattern + [TICK]), pattern, to) == [TICK] + (to + [TICK])
  {
    ReplaceOther(TICK, pattern + [TICK], pattern, to);
    ReplaceHit(pattern, [TICK], to);
    ReplaceOther(TICK, [], pattern, to);
    assert [TICK] + [] == [TICK];
  }

  /**
   What that can do: with the second value `$1`, the placeholder `$2` becomes an empty string
   followed by the first value as bare SQL and another empty string.
   */
  lemma {:induction false} ValueBecomesSql(first: Text)
    requires TICK !in first && !EqIgnoreCase(first, NULL_WORD)
    ensures Inlined(PlaceholderText(2), [first, PlaceholderText(1)]) == [TICK, TICK] + first + [TICK, TICK]
  {
    var literals := Literals([first, PlaceholderText(1)]);
    var two := PlaceholderText(2);
    ReplaceHit(two, [], literals[1]);
    assert two + [] == two && literals[1] + [] == literals[1];
    assert InlinedAbove(two, literals, 2) == two && InlinedAbove(two, literals, 1) == literals[1];
    QuotedOne();
    ReplaceOneInside(PlaceholderText(1), literals[0]);
    PlainLiteral(first);
    assert [TICK] + (([TICK] + first + [TICK]) + [TICK]) == [TICK, TICK] + first + [TICK, TICK];
  }
}
