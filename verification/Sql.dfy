/**
 Shard-key analysis of SQL (src/routing/sql.rs, src/routing/router.rs): which key a
 WHERE clause pins, what text of it reaches the shard once parameters are inlined, and what
 that means for a row.
 */
module Sql {
  import opened Bytes
  import opened Decimal
  import Inline = InlineParams

  const USIZE_MAX := 0xFFFF_FFFF_FFFF_FFFF
  const PLUS: byte := 43
  const COLON: byte := 58

  datatype SqlValue =
    | SingleQuoted(s: Text) | DoubleQuoted(s: Text) | Escaped(s: Text, raw: Text)
    | Number(n: Text) | Boolean(b: bool) | Null | Placeholder(p: Text) | OtherValue(text: Text)

  datatype Op = Eq | And | Or | OtherOp(symbol: Text)

  /** The part of `sqlparser`'s `Expr` the router looks at; `Opaque` stands for the rest, with its operands. */
  datatype Expr =
    | Identifier(name: Text)
    | CompoundIdentifier(parts: seq<Text>)
    | Literal(value: SqlValue)
    | Binary(left: Expr, op: Op, right: Expr)
    | Not(inner: Expr)
    | Nested(inner: Expr)
    | Opaque(symbol: Text, operands: seq<Expr>)

  // ---------------------------------------------------------------------------
  // Key extraction
  // ---------------------------------------------------------------------------

  datatype KeyMatch = KeyMatch(literal: Option<Text>, paramIndex: Option<nat>) {
    predicate Found() {
      literal.Some? || paramIndex.Some?
    }
  }

  const NO_MATCH := KeyMatch(None, None)
  const TRUE_TEXT: Text := [116, 114, 117, 101]
  const FALSE_TEXT: Text := [102, 97, 108, 115, 101]

  predicate ColumnMatches(e: Expr, column: Text) {
    match e
    case Identifier(name) => EqIgnoreCase(name, column)
    case CompoundIdentifier(parts) => parts != [] && EqIgnoreCase(parts[|parts| - 1], column)
    case _ => false
  }

  function ValueToString(v: SqlValue): Option<Text> {
    match v
    case SingleQuoted(s) => Some(s)
    case DoubleQuoted(s) => Some(s)
    case Escaped(s, _) => Some(s)
    case Number(n) => Some(n)
    case Boolean(b) => Some(if b then TRUE_TEXT else FALSE_TEXT)
    case _ => None
  }

  /** `trim_start_matches(['$', ':'])` */
  function TrimMarks(p: Text): Text {
    if p != [] && (p[0] == DOLLAR || p[0] == COLON) then TrimMarks(p[1..]) else p
  }

  /** `str::parse::<usize>`: an optional plus sign, then digits. */
  function ParseUsize(s: Text): Option<nat> {
    Parse(if |s| > 1 && s[0] == PLUS then s[1..] else s, USIZE_MAX)
  }

  /** 0-based index of a placeholder token; `$0` and names have none. */
  function PlaceholderIndex(p: Text): Option<nat> {
    match ParseUsize(TrimMarks(p))
    case Some(n) => if n >= 1 then Some(n - 1) else None
    case None => None
  }

  function KeyFromExpr(e: Expr): KeyMatch {
    match e
    case Literal(Placeholder(p)) => KeyMatch(None, PlaceholderIndex(p))
    case Literal(v) => KeyMatch(ValueToString(v), None)
    case Identifier(name) => KeyMatch(Some(name), None)
    case _ => NO_MATCH
  }

  /** `shard_key_from_where` */
  function KeyFromWhere(e: Expr, column: Text): KeyMatch {
    match e
    case Binary(left, Eq, right) =>
      if ColumnMatches(left, column) then KeyFromExpr(right)
      else if ColumnMatches(right, column) then KeyFromExpr(left)
      else NO_MATCH
    case Binary(left, And, right) =>
      var m := KeyFromWhere(left, column);
      if m.Found() then m else KeyFromWhere(right, column)
    case _ => NO_MATCH
  }

  // ---------------------------------------------------------------------------
  // The reference: first match over the flattened conjuncts
  // ---------------------------------------------------------------------------

  /** Top-level AND conjuncts, left to right. Parentheses and OR are not looked into. */
  function Conjuncts(e: Expr): seq<Expr> {
    match e
    case Binary(left, And, right) => Conjuncts(left) + Conjuncts(right)
    case _ => [e]
  }

  /** The other side of an equality on the shard-key column, if `e` is one. */
  function Comparand(e: Expr, column: Text): Option<Expr> {
    match e
    case Binary(left, Eq, right) =>
      if ColumnMatches(left, column) then Some(right)
      else if ColumnMatches(right, column) then Some(left)
      else None
    case _ => None
  }

  /** Does this conjunct pin the key? */
  predicate Pins(e: Expr, column: Text) {
    Comparand(e, column).Some? && KeyFromExpr(Comparand(e, column).value).Found()
  }

  /** The comparand of the first conjunct that pins the key. */
  function FirstPin(es: seq<Expr>, column: Text): (r: Option<Expr>)
    ensures r.Some? ==> KeyFromExpr(r.value).Found()
    ensures r.None? <==> forall i :: 0 <= i < |es| ==> !Pins(es[i], column)
  {
    if es == [] then None
    else if Pins(es[0], column) then Comparand(es[0], column)
    else
      assert forall i :: 0 < i < |es| ==> es[i] == es[1..][i - 1];
      FirstPin(es[1..], column)
  }

  function MatchedComparand(e: Expr, column: Text): Option<Expr> {
    FirstPin(Conjuncts(e), column)
  }

  lemma {:induction false} FirstPinAppend(a: seq<Expr>, b: seq<Expr>, column: Text)
    ensures FirstPin(a + b, column) ==
            if FirstPin(a, column).Some? then FirstPin(a, column) else FirstPin(b, column)
  {
    if a == [] {
      assert a + b == b;
    } else {
      FirstPinAppend(a[1..], b, column);
      assert (a + b)[1..] == a[1..] + b;
    }
  }

  /** Key extraction is "first match over the top-level conjuncts", at any nesting of AND. */
  lemma {:induction false} KeyIsFirstPin(e: Expr, column: Text)
    ensures KeyFromWhere(e, column) ==
            match MatchedComparand(e, column) case Some(c) => KeyFromExpr(c) case None => NO_MATCH
  {
    match e
    case Binary(left, And, right) =>
      KeyIsFirstPin(left, column);
      KeyIsFirstPin(right, column);
      FirstPinAppend(Conjuncts(left), Conjuncts(right), column);
    case _ =>
      assert Conjuncts(e)[1..] == [];
  }

  // ---------------------------------------------------------------------------
  // From the router to the shard
  // ---------------------------------------------------------------------------

  const NOT_WORD: Text := [78, 79, 84]
  const AND_WORD: Text := [65, 78, 68]
  const OR_WORD: Text := [79, 82]

  /** A token other than a quoted string or a placeholder, set off by a space. */
  function Word(t: Text): Text {
    [SPACE] + t
  }

  function ValueToken(v: SqlValue): Text {
    match v
    case SingleQuoted(s) => Inline.Quote(s)
    case DoubleQuoted(s) => Word([QUOTE] + s + [QUOTE])
    case Escaped(_, raw) => Word(raw)
    case Number(n) => Word(n)
    case Boolean(b) => Word(if b then TRUE_TEXT else FALSE_TEXT)
    case Null => NULL_WORD
    case Placeholder(p) => p
    case OtherValue(text) => Word(text)
  }

  function OpText(op: Op): Text {
    match op
    case Eq => [EQUALS]
    case And => AND_WORD
    case Or => OR_WORD
    case OtherOp(symbol) => symbol
  }

  function Words(names: seq<Text>): (r: seq<Text>)
    ensures |r| == |names| && forall i :: 0 <= i < |names| ==> r[i] == Word(names[i])
  {
    seq(|names|, i requires 0 <= i < |names| => Word(names[i]))
  }

  /** The tokens of an expression as it is printed. */
  function Tokens(e: Expr): seq<Text>
    decreases e, if e.Opaque? then |e.operands| + 1 else 0
  {
    match e
    case Identifier(name) => [Word(name)]
    case CompoundIdentifier(parts) => Words(parts)
    case Literal(v) => [ValueToken(v)]
    case Binary(left, op, right) => Tokens(left) + [Word(OpText(op))] + Tokens(right)
    case Not(inner) => [Word(NOT_WORD)] + Tokens(inner)
    case Nested(inner) => [Word([40])] + Tokens(inner) + [Word([41])]
    case Opaque(name, parts) => [Word(name)] + PartTokens(e, |parts|)
  }

  /** The tokens of the first `k` operands. */
  function PartTokens(e: Expr, k: nat): seq<Text>
    requires e.Opaque? && k <= |e.operands|
    decreases e, k
  {
    if k == 0 then [] else PartTokens(e, k - 1) + Tokens(e.operands[k - 1])
  }

  /** The value a parameter is inlined as. */
  function BoundValue(value: Text): SqlValue {
    if EqIgnoreCase(value, NULL_WORD) then Null else SingleQuoted(value)
  }

  /** The expression with the parameters in place of their placeholders. */
  function Bind(e: Expr, params: seq<Text>): Expr {
    match e
    case Literal(Placeholder(p)) =>
      if Inline.IsPlaceholder(p, |params|) then Literal(BoundValue(params[Inline.IndexOf(p, |params|)])) else e
    case Binary(left, op, right) => Binary(Bind(left, params), op, Bind(right, params))
    case Not(inner) => Not(Bind(inner, params))
    case Nested(inner) => Nested(Bind(inner, params))
    case Opaque(name, parts) =>
      Opaque(name, seq(|parts|, i requires 0 <= i < |parts| => Bind(parts[i], params)))
    case _ => e
  }

  /** No token of the expression, nor a value that replaces one, is rewritten on the way to the shard. */
  ghost predicate Intact(e: Expr, params: seq<Text>) {
    Inline.AllIntact(Tokens(e), params)
  }

  lemma {:induction false} WordIsNoPlaceholder(t: Text, params: seq<Text>)
    ensures Inline.BoundToken(Word(t), params) == Word(t)
    ensures Inline.TokenIntact(Word(t), params) <==> Inline.Untouched(t, |params|)
  {
    assert Word(t)[1..] == t;
    Inline.UntouchedTail(Word(t), |params|);
  }

  lemma {:induction false} BoundTokensAppend(a: seq<Text>, b: seq<Text>, params: seq<Text>)
    ensures Inline.BoundTokens(a + b, params) == Inline.BoundTokens(a, params) + Inline.BoundTokens(b, params)
    ensures Inline.AllIntact(a + b, params) <==> Inline.AllIntact(a, params) && Inline.AllIntact(b, params)
  {
    var all := a + b;
    if Inline.AllIntact(all, params) {
      assert forall i :: 0 <= i < |a| ==> a[i] == all[i];
      assert forall i :: 0 <= i < |b| ==> b[i] == all[|a| + i];
    }
  }

  /** Only a placeholder is printed with a dollar sign in front. */
  lemma {:induction false} OtherValueStays(v: SqlValue, params: seq<Text>)
    requires !v.Placeholder?
    ensures Inline.BoundToken(ValueToken(v), params) == ValueToken(v)
  {
    assert ValueToken(v)[0] != DOLLAR;
  }

  lemma {:induction false} LiteralIsToken(value: Text)
    ensures Inline.SqlLiteral(value) == ValueToken(BoundValue(value))
  {
    if !EqIgnoreCase(value, NULL_WORD) {
      Inline.LiteralText(value, []);
      assert Inline.SqlLiteral(value) + [] == Inline.SqlLiteral(value);
      assert Inline.Doubled(value) + [TICK] + [] == Inline.Doubled(value) + [TICK];
    }
  }

  lemma {:induction false} ValueTokenBinds(v: SqlValue, params: seq<Text>)
    ensures Bind(Literal(v), params).Literal?
    ensures ValueToken(Bind(Literal(v), params).value) == Inline.BoundToken(ValueToken(v), params)
  {
    if !v.Placeholder? {
      OtherValueStays(v, params);
    } else if Inline.IsPlaceholder(v.p, |params|) {
      LiteralIsToken(params[Inline.IndexOf(v.p, |params|)]);
    }
  }

  lemma {:induction false} WordsBound(names: seq<Text>, params: seq<Text>)
    ensures Inline.BoundTokens(Words(names), params) == Words(names)
  {
    forall i | 0 <= i < |names|
      ensures Inline.BoundToken(Word(names[i]), params) == Word(names[i])
    {
      WordIsNoPlaceholder(names[i], params);
    }
  }

  lemma {:induction false} WordBound(t: Text, params: seq<Text>)
    ensures Inline.BoundTokens([Word(t)], params) == [Word(t)]
  {
    WordIsNoPlaceholder(t, params);
  }

  /** Tokens around a word are bound on either side of it. */
  lemma {:induction false} BoundAround(a: seq<Text>, t: Text, b: seq<Text>, params: seq<Text>)
    ensures Inline.BoundTokens(a + [Word(t)] + b, params) ==
            Inline.BoundTokens(a, params) + [Word(t)] + Inline.BoundTokens(b, params)
  {
    BoundTokensAppend(a, [Word(t)], params);
    BoundTokensAppend(a + [Word(t)], b, params);
    WordBound(t, params);
  }

  /** Binding the expression binds its tokens. */
  lemma {:induction false} TokensOfBound(e: Expr, params: seq<Text>)
    ensures Tokens(Bind(e, params)) == Inline.BoundTokens(Tokens(e), params)
    decreases e, if e.Opaque? then |e.operands| + 1 else 0
  {
    match e
    case Identifier(name) =>
      WordBound(name, params);
    case CompoundIdentifier(parts) =>
      WordsBound(parts, params);
    case Literal(v) =>
      ValueTokenBinds(v, params);
    case Binary(left, op, right) =>
      TokensOfBound(left, params);
      TokensOfBound(right, params);
      BoundAround(Tokens(left), OpText(op), Tokens(right), params);
    case Not(inner) =>
      TokensOfBound(inner, params);
      BoundTokensAppend([Word(NOT_WORD)], Tokens(inner), params);
      WordBound(NOT_WORD, params);
    case Nested(inner) =>
      TokensOfBound(inner, params);
      BoundTokensAppend([Word([40])] + Tokens(inner), [Word([41])], params);
      BoundTokensAppend([Word([40])], Tokens(inner), params);
      WordBound([40], params);
      WordBound([41], params);
    case Opaque(name, operands) =>
      PartTokensOfBound(e, |operands|, params);
      BoundTokensAppend([Word(name)], PartTokens(e, |operands|), params);
      WordBound(name, params);
  }

  lemma {:induction false} PartTokensOfBound(e: Expr, k: nat, params: seq<Text>)
    requires e.Opaque? && k <= |e.operands|
    ensures PartTokens(Bind(e, params), k) == Inline.BoundTokens(PartTokens(e, k), params)
    decreases e, k
  {
    if k > 0 {
      PartTokensOfBound(e, k - 1, params);
      TokensOfBound(e.operands[k - 1], params);
      BoundTokensAppend(PartTokens(e, k - 1), Tokens(e.operands[k - 1]), params);
    }
  }

  /**
   For every expression and all values: the text that reaches the shard is the text of the
   bound expression if and only if every token is intact.
   */
  lemma {:induction false} ReceivedIsBoundIff(e: Expr, params: seq<Text>)
    ensures Inline.Inlined(Inline.Spaced(Tokens(e)), params) == Inline.Spaced(Tokens(Bind(e, params))) <==>
            Intact(e, params)
  {
    TokensOfBound(e, params);
    Inline.StatementInlinesIff(Tokens(e), params);
  }

  /** What the shard evaluates: the bound expression, or whatever it makes of a text that is another. */
  ghost function Received(e: Expr, params: seq<Text>, garbled: Expr): Expr {
    if Intact(e, params) then Bind(e, params) else garbled
  }

  // ---------------------------------------------------------------------------
  // Meaning of a WHERE clause, in three-valued logic
  // ---------------------------------------------------------------------------

  datatype Datum = DNull | DText(text: Text) | DOther(tag: nat)
  datatype Truth = True | False | Unknown

  /** A stored row: its table and its columns by lower-cased name. */
  datatype Row = Row(table: Text, columns: map<Text, Datum>) {
    function Column(name: Text): Datum {
      if Lower(name) in columns then columns[Lower(name)] else DNull
    }
  }

  /**
   Everything the router does not interpret: arbitrary meanings for the expressions,
   operators, unbound placeholders and comparisons it skips over.
   */
  datatype Env = Env(
    scalar: (Expr, Row) -> Datum,
    condition: (Expr, Row) -> Truth,
    sameOther: (Datum, Datum) -> bool)

  function Scalar(e: Expr, row: Row, env: Env): Datum {
    match e
    case Identifier(name) => row.Column(name)
    case CompoundIdentifier(parts) => if parts == [] then DNull else row.Column(parts[|parts| - 1])
    case Literal(SingleQuoted(s)) => DText(s)
    case Literal(DoubleQuoted(s)) => DText(s)
    case Literal(Escaped(s, _)) => DText(s)
    case Literal(Null) => DNull
    case Nested(inner) => Scalar(inner, row, env)
    case _ => env.scalar(e, row)
  }

  function Equal(a: Datum, b: Datum, env: Env): Truth {
    if a.DNull? || b.DNull? then Unknown
    else if a.DText? && b.DText? then (if a == b then True else False)
    else if env.sameOther(a, b) then True else False
  }

  function Conj(a: Truth, b: Truth): Truth {
    if a == False || b == False then False
    else if a == Unknown || b == Unknown then Unknown
    else True
  }

  function Neg(a: Truth): Truth {
    match a case True => False case False => True case Unknown => Unknown
  }

  function Eval(e: Expr, row: Row, env: Env): Truth {
    match e
    case Binary(left, Eq, right) => Equal(Scalar(left, row, env), Scalar(right, row, env), env)
    case Binary(left, And, right) => Conj(Eval(left, row, env), Eval(right, row, env))
    case Binary(left, Or, right) => Neg(Conj(Neg(Eval(left, row, env)), Neg(Eval(right, row, env))))
    case Not(inner) => Neg(Eval(inner, row, env))
    case Nested(inner) => Eval(inner, row, env)
    case _ => env.condition(e, row)
  }

  /** An OR accepts what either side accepts; a NOT accepts only what is surely refused. */
  lemma {:induction false} ThreeValued(a: Expr, b: Expr, row: Row, env: Env)
    ensures var either := Eval(Binary(a, Or, b), row, env);
            && (either == True <==> Eval(a, row, env) == True || Eval(b, row, env) == True)
            && (either == False <==> Eval(a, row, env) == False && Eval(b, row, env) == False)
    ensures Eval(Not(a), row, env) == True <==> Eval(a, row, env) == False
    ensures Eval(Not(a), row, env) == False <==> Eval(a, row, env) == True
  {}

  // ---------------------------------------------------------------------------
  // Soundness
  // ---------------------------------------------------------------------------

  /** Comparands whose extracted key is the value the shard compares with. */
  ghost predicate Faithful(comparand: Expr, params: seq<Text>) {
    && Intact(comparand, params)
    && match comparand
       case Literal(SingleQuoted(_)) => true
       case Literal(DoubleQuoted(_)) => true
       case Literal(Escaped(_, _)) => true
       case Literal(Placeholder(p)) => Inline.IsPlaceholder(p, |params|)
       case _ => false
  }

  /** `resolve_route`: the key a single-shard plan is routed by. */
  function RouteKey(m: KeyMatch, table: Text, params: Option<seq<Text>>): Text {
    match m.paramIndex
    case Some(i) => if params.Some? && i < |params.value| then params.value[i] else table
    case None => if m.literal.Some? then m.literal.value else table
  }

  lemma {:induction false} TrueConjuncts(e: Expr, row: Row, env: Env)
    requires Eval(e, row, env) == True
    ensures forall i :: 0 <= i < |Conjuncts(e)| ==> Eval(Conjuncts(e)[i], row, env) == True
  {
    match e
    case Binary(left, And, right) =>
      TrueConjuncts(left, row, env);
      TrueConjuncts(right, row, env);
    case _ =>
  }

  lemma {:induction false} FirstPinIsMember(es: seq<Expr>, column: Text) returns (i: nat)
    requires FirstPin(es, column).Some?
    ensures i < |es| && Comparand(es[i], column) == FirstPin(es, column)
  {
    if Pins(es[0], column) {
      i := 0;
    } else {
      i := FirstPinIsMember(es[1..], column);
      i := i + 1;
    }
  }

  /** Column names that agree up to ASCII case denote the same column. */
  lemma {:induction false} SameColumn(e: Expr, column: Text, row: Row, env: Env)
    requires ColumnMatches(e, column)
    ensures Scalar(e, row, env) == row.Column(column)
  {}

  lemma {:induction false} IndexAgrees(p: Text, n: nat)
    requires Inline.IsPlaceholder(p, n) && PlaceholderIndex(p).Some?
    ensures PlaceholderIndex(p) == Some(Inline.IndexOf(p, n))
  {
    var digits := p[1..];
    assert IsDigit(digits[0]);
    assert TrimMarks(p) == TrimMarks(digits) == digits;
  }

  /** The bound comparand is the text routed by, or NULL. */
  lemma {:induction false} FaithfulMeans(c: Expr, table: Text, params: seq<Text>, row: Row, env: Env)
    requires KeyFromExpr(c).Found() && Faithful(c, params)
    ensures Scalar(Bind(c, params), row, env) in {DNull, DText(RouteKey(KeyFromExpr(c), table, Some(params)))}
  {
    if c.value.Placeholder? {
      IndexAgrees(c.value.p, |params|);
    }
  }

  lemma {:induction false} ConjunctsOfBound(e: Expr, params: seq<Text>)
    ensures |Conjuncts(Bind(e, params))| == |Conjuncts(e)|
    ensures forall i :: 0 <= i < |Conjuncts(e)| ==> Conjuncts(Bind(e, params))[i] == Bind(Conjuncts(e)[i], params)
  {
    match e
    case Binary(left, And, right) =>
      ConjunctsOfBound(left, params);
      ConjunctsOfBound(right, params);
    case _ =>
  }

  /** An equality with the shard-key column, bound and true, gives the column its comparand's value. */
  lemma {:induction false} TrueEquality(c: Expr, column: Text, params: seq<Text>, row: Row, env: Env)
    requires Comparand(c, column).Some? && Eval(Bind(c, params), row, env) == True
    ensures Equal(row.Column(column), Scalar(Bind(Comparand(c, column).value, params), row, env), env) == True
            || Equal(Scalar(Bind(Comparand(c, column).value, params), row, env), row.Column(column), env) == True
  {
    SameColumn(if ColumnMatches(c.left, column) then c.left else c.right, column, row, env);
  }

  /**
   Soundness of WHERE analysis, at any depth: when the comparand that pinned the key is a
   string literal or a bound parameter, every row that the bound clause accepts carries
   exactly the routed key in its shard-key column (a text column: ILP writes it as a tag).
   */
  lemma {:induction false} WhereSoundness(e: Expr, column: Text, table: Text, params: seq<Text>, row: Row, env: Env)
    requires MatchedComparand(e, column).Some?
    requires Faithful(MatchedComparand(e, column).value, params)
    requires !row.Column(column).DOther?
    requires Eval(Bind(e, params), row, env) == True
    ensures KeyFromWhere(e, column).Found()
    ensures row.Column(column) == DText(RouteKey(KeyFromWhere(e, column), table, Some(params)))
  {
    KeyIsFirstPin(e, column);
    TrueConjuncts(Bind(e, params), row, env);
    ConjunctsOfBound(e, params);
    var i := FirstPinIsMember(Conjuncts(e), column);
    TrueEquality(Conjuncts(e)[i], column, params, row, env);
    FaithfulMeans(MatchedComparand(e, column).value, table, params, row, env);
  }

  /** Whatever the shard makes of a rewritten text, every row that `column = c` accepts has the key routed by. */
  ghost predicate Sound(column: Text, c: Expr, table: Text, params: seq<Text>) {
    forall row: Row, env: Env, garbled: Expr ::
      !row.Column(column).DOther? && Eval(Received(Equality(column, c), params, garbled), row, env) == True ==>
        row.Column(column) == DText(RouteKey(KeyFromExpr(c), table, Some(params)))
  }

  function Equality(column: Text, c: Expr): Expr {
    Binary(Identifier(column), Eq, c)
  }

  lemma {:induction false} EqualityIntact(column: Text, c: Expr, params: seq<Text>)
    ensures Intact(Equality(column, c), params) <==> Inline.Untouched(column, |params|) && Intact(c, params)
  {
    var name, op := [Word(column)], [Word([EQUALS])];
    assert Tokens(Identifier(column)) == name;
    assert Tokens(Equality(column, c)) == name + op + Tokens(c);
    BoundTokensAppend(name, op, params);
    BoundTokensAppend(name + op, Tokens(c), params);
    WordIsNoPlaceholder(column, params);
    WordIsNoPlaceholder([EQUALS], params);
    assert Inline.Untouched([EQUALS], |params|);
    OneIntact(Word(column), params);
    OneIntact(Word([EQUALS]), params);
  }

  lemma {:induction false} OneIntact(token: Text, params: seq<Text>)
    ensures Inline.AllIntact([token], params) <==> Inline.TokenIntact(token, params)
  {
    assert [token][0] == token;
  }

  /** A row and an environment in which `column = c` holds for the text `x`, if `c` does not fix its value. */
  lemma {:induction false} AcceptsAnything(
      column: Text, c: Expr, params: seq<Text>, x: Text)
    returns (row: Row, env: Env)
    requires KeyFromExpr(c).Found() && Intact(c, params) && !Faithful(c, params)
    ensures row.Column(column) == DText(x)
    ensures Eval(Bind(Equality(column, c), params), row, env) == True
  {
    var names := if c.Identifier? then map[Lower(c.name) := DText(x)] else map[];
    row := Row([], names[Lower(column) := DText(x)]);
    env := Env((e, r) => DText(x), (e, r) => Unknown, (a, b) => false);
    assert Bind(c, params) == c && Scalar(c, row, env) == DText(x);
  }

  /**
   Exactly which comparands are sound: string literals and placeholders spelled `$1` to `$n`,
   when no token and no bound value is rewritten on the way. An identifier (the shard-key
   column itself included), a number, a boolean, and a placeholder past the last parameter or
   spelled otherwise (`:1`, `$01`) is routed by a text that an accepted row need not have.
   */
  lemma {:induction false} ComparandSoundIff(column: Text, c: Expr, table: Text, params: seq<Text>)
    requires KeyFromExpr(c).Found()
    ensures Sound(column, c, table, params) <==> Faithful(c, params) && Inline.Untouched(column, |params|)
  {
    var key := RouteKey(KeyFromExpr(c), table, Some(params));
    EqualityIntact(column, c, params);
    if !Intact(Equality(column, c), params) {
      RewrittenIsUnsound(column, c, table, params);
    } else if Faithful(c, params) {
      FaithfulIsSound(column, c, table, params);
    } else {
      var row, env := AcceptsAnything(column, c, params, key + [0]);
      assert Received(Equality(column, c), params, c) == Bind(Equality(column, c), params);
      assert row.Column(column) != DText(key);
    }
  }

  lemma {:induction false} RewrittenIsUnsound(column: Text, c: Expr, table: Text, params: seq<Text>)
    requires !Intact(Equality(column, c), params)
    ensures !Sound(column, c, table, params)
  {
    var key := RouteKey(KeyFromExpr(c), table, Some(params));
    var row := Row([], map[Lower(column) := DText(key + [0])]);
    var env := Env((e, r) => DNull, (e, r) => True, (a, b) => false);
    var garbled := Opaque([], []);
    assert Eval(Received(Equality(column, c), params, garbled), row, env) == True;
    assert row.Column(column) != DText(key);
  }

  lemma {:induction false} FaithfulIsSound(column: Text, c: Expr, table: Text, params: seq<Text>)
    requires KeyFromExpr(c).Found() && Faithful(c, params) && Intact(Equality(column, c), params)
    ensures Sound(column, c, table, params)
  {
    forall row: Row, env: Env, garbled: Expr |
      !row.Column(column).DOther? && Eval(Received(Equality(column, c), params, garbled), row, env) == True
      ensures row.Column(column) == DText(RouteKey(KeyFromExpr(c), table, Some(params)))
    {
      FaithfulMeans(c, table, params, row, env);
      assert Bind(Equality(column, c), params) == Binary(Identifier(column), Eq, Bind(c, params));
      assert Equal(row.Column(column), Scalar(Bind(c, params), row, env), env) == True;
    }
  }

  /**
   For one, `symbol = other` is routed by the text `other`, but accepts rows with any equal values
   in the two columns.
   */
  lemma {:induction false} IdentifierComparandMisroutes(column: Text, other: Text, x: Text, env: Env)
    requires x != other
    ensures var e := Binary(Identifier(column), Eq, Identifier(other));
            var row := Row([], map[Lower(column) := DText(x), Lower(other) := DText(x)]);
            && Eval(e, row, env) == True
            && KeyFromWhere(e, column) == KeyMatch(Some(other), None)
            && row.Column(column) != DText(other)
  {
    var row := Row([], map[Lower(column) := DText(x), Lower(other) := DText(x)]);
    assert row.Column(column) == DText(x) && row.Column(other) == DText(x);
  }

  /** `column = '' OR column = column OR column = ''` */
  function TakenOver(column: Text): Expr {
    var same, empty := Equality(column, Identifier(column)), Equality(column, Literal(SingleQuoted([])));
    Binary(Binary(empty, Or, same), Or, empty)
  }

  /** ` OR column=column OR column=` */
  function TakeOver(column: Text): Text {
    [SPACE] + OR_WORD + [SPACE] + column + [EQUALS] + column + [SPACE] + OR_WORD + [SPACE] + column + [EQUALS]
  }

  /**
   For another, a bound value can take over the clause. `column = $2` with the values
   ` OR column=column OR column=` and `$1` is routed by the text `$1`. The shard is sent
   `column = '' OR column=column OR column=''`, which accepts every row that has a key at all.
   */
  lemma {:induction false} BoundValueTakesOver(column: Text, x: Text, env: Env)
    requires TICK !in column
    ensures var e := Equality(column, Literal(Placeholder(Inline.PlaceholderText(2))));
            var params := [TakeOver(column), Inline.PlaceholderText(1)];
            var row := Row([], map[Lower(column) := DText(x)]);
            && RouteKey(KeyFromWhere(e, column), [], Some(params)) == Inline.PlaceholderText(1)
            && Inline.Inlined(Inline.PlaceholderText(2), params) == [TICK, TICK] + TakeOver(column) + [TICK, TICK]
            && !Intact(e, params)
            && Eval(TakenOver(column), row, env) == True
  {
    var params := [TakeOver(column), Inline.PlaceholderText(1)];
    TakeOverIsNoNull(column);
    Inline.ValueBecomesSql(TakeOver(column));
    RoutedBySecond(column, params);
    AcceptsEveryText(column, x, Row([], map[Lower(column) := DText(x)]), env);
  }

  lemma {:induction false} TakeOverIsNoNull(column: Text)
    requires TICK !in column
    ensures TICK !in TakeOver(column) && !EqIgnoreCase(TakeOver(column), NULL_WORD)
  {
    assert TakeOver(column)[0] == SPACE && Lower(TakeOver(column))[0] == SPACE && Lower(NULL_WORD)[0] == 110;
  }

  lemma {:induction false} RoutedBySecond(column: Text, params: seq<Text>)
    requires |params| == 2 && params[1] == Inline.PlaceholderText(1)
    ensures var e := Equality(column, Literal(Placeholder(Inline.PlaceholderText(2))));
            && RouteKey(KeyFromWhere(e, column), [], Some(params)) == Inline.PlaceholderText(1)
            && !Intact(e, params)
  {
    var two := Inline.PlaceholderText(2);
    PositionalPlaceholder(2);
    TouchedByOne(params);
    EqualityIntact(column, Literal(Placeholder(two)), params);
    OneIntact(two, params);
  }

  lemma {:induction false} AcceptsEveryText(column: Text, x: Text, row: Row, env: Env)
    requires row.Column(column) == DText(x)
    ensures Eval(TakenOver(column), row, env) == True
  {
    var same, empty := Equality(column, Identifier(column)), Equality(column, Literal(SingleQuoted([])));
    assert Eval(same, row, env) == True && Eval(empty, row, env) != Unknown;
    assert Eval(Binary(empty, Or, same), row, env) == True;
  }

  lemma {:induction false} TouchedByOne(params: seq<Text>)
    requires |params| == 2 && params[1] == Inline.PlaceholderText(1)
    ensures !Inline.TokenIntact(Inline.PlaceholderText(2), params)
  {
    Inline.PlaceholderToken(1, 2);
    var one := Inline.PlaceholderText(1);
    assert one == [DOLLAR, 49] && one[0] == DOLLAR && Inline.StartsIndex(one[1], 1);
    assert !Inline.Untouched(one, 1);
  }

  /**
   The texts a comparison is routed by, whichever side the column is on and however it is
   qualified and cased: a string's own text, a number as it is written, `true` or `false`.
   */
  lemma {:induction false} ComparisonKeys(column: Expr, key: Text, text: Text, b: bool)
    requires IsColumn(column, key)
    ensures KeyFromWhere(Binary(column, Eq, Literal(SingleQuoted(text))), key) == KeyMatch(Some(text), None)
    ensures KeyFromWhere(Binary(Literal(SingleQuoted(text)), Eq, column), key) == KeyMatch(Some(text), None)
    ensures KeyFromWhere(Binary(column, Eq, Literal(Number(text))), key) == KeyMatch(Some(text), None)
    ensures KeyFromWhere(Binary(column, Eq, Literal(Boolean(b))), key) ==
            KeyMatch(Some(if b then [116, 114, 117, 101] else [102, 97, 108, 115, 101]), None)
    ensures KeyFromWhere(Binary(column, Eq, Literal(Null)), key) == KeyMatch(None, None)
  {}

  /** The expression names the column: alone, or behind any qualifiers. */
  predicate IsColumn(e: Expr, column: Text) {
    || (e.Identifier? && EqIgnoreCase(e.name, column))
    || (e.CompoundIdentifier? && e.parts != [] && EqIgnoreCase(Last(e.parts), column))
  }

  /** A comparison that does not name the column says nothing, whatever the operator. */
  lemma {:induction false} OtherComparisons(left: Expr, right: Expr, op: Op, key: Text)
    requires op != And && (op == Eq ==> !IsColumn(left, key) && !IsColumn(right, key))
    ensures KeyFromWhere(Binary(left, op, right), key) == KeyMatch(None, None)
  {}

  /** A placeholder without a bound parameter is routed by the table's name. */
  lemma {:induction false} UnboundIsRoutedByTable(key: Text, n: nat, table: Text, params: Option<seq<Text>>)
    requires 1 <= n <= USIZE_MAX && (params.Some? ==> |params.value| < n)
    ensures var e := Equality(key, Literal(Placeholder([DOLLAR] + Digits(n))));
            RouteKey(KeyFromWhere(e, key), table, params) == table
    ensures RouteKey(KeyMatch(None, None), table, params) == table
  {
    PositionalPlaceholder(n);
  }

  /** The n-th positional placeholder binds the n-th parameter, after any run of `$` and `:`. */
  lemma {:induction false} PositionalPlaceholder(n: nat)
    requires 1 <= n <= USIZE_MAX
    ensures PlaceholderIndex([DOLLAR] + Digits(n)) == Some(n - 1)
  {
    MarkedPlaceholder([DOLLAR], n);
  }

  lemma {:induction false} MarkedPlaceholder(marks: Text, n: nat)
    requires 1 <= n <= USIZE_MAX && forall i :: 0 <= i < |marks| ==> marks[i] == 36 || marks[i] == 58
    ensures PlaceholderIndex(marks + Digits(n)) == Some(n - 1)
  {
    assert IsDigit(Digits(n)[0]);
    ValueOfDigits(n);
    MarksTrimmed(marks, Digits(n));
  }

  /** A plus sign is allowed before the number, and the number nought names no parameter. */
  lemma {:induction false} SignedPlaceholder(n: nat)
    requires 1 <= n <= USIZE_MAX
    ensures PlaceholderIndex([DOLLAR, 43] + Digits(n)) == Some(n - 1)
    ensures PlaceholderIndex([DOLLAR, 48]) == None
  {
    var p := [DOLLAR, 43] + Digits(n);
    assert p[1..][0] == 43 && TrimMarks(p) == p[1..] && p[1..][1..] == Digits(n);
    ValueOfDigits(n);
    assert TrimMarks([DOLLAR, 48]) == [48] == Digits(0);
    ValueOfDigits(0);
  }

  lemma {:induction false} MarksTrimmed(marks: Text, digits: Text)
    requires digits != [] && IsDigit(digits[0]) && forall i :: 0 <= i < |marks| ==> marks[i] == 36 || marks[i] == 58
    ensures TrimMarks(marks + digits) == digits
  {
    if marks == [] {
      assert marks + digits == digits;
    } else {
      assert (marks + digits)[1..] == marks[1..] + digits;
      MarksTrimmed(marks[1..], digits);
    }
  }
}
