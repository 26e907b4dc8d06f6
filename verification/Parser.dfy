/** The expression parser of minidb/sql/parser.py: recursive descent over tokens.

    Each parsing function maps the tokens still to be read to the tree it returns
    and the tokens it leaves, or to an error.  The end of input is the token `Eof`
    or no token at all. */
module Parsing {
  import opened Basics
  import opened Expressions

  /** The keywords of the lexer.  `Function` is one of COUNT, SUM, AVG, MIN, MAX,
      UPPER, LOWER; `Clause` any other word that may not name a column (FROM, WHERE,
      ORDER, ...); `Plain` any other keyword. */
  datatype Keyword =
    | OR | AND | NOT | LIKE | IN | BETWEEN | IS | NULL | TRUE | FALSE | SELECT | DISTINCT
    | Function(name: Name) | Clause(name: Name) | Plain(name: Name)

  datatype Mark = EQ | NE | LT | LE | GT | GE | PLUS | MINUS | STAR | SLASH | OPEN | CLOSE | COMMA | DOT

  datatype Token =
    | Word(word: Keyword)
    | Ident(name: Name)
    | Number(value: int)
    | Text(text: string)
    | Punct(mark: Mark)
    | Eof

  type Tokens = seq<Token>

  datatype Parsed = Parsed(e: Expr, rest: Tokens) | Error
  datatype ParsedList = ParsedList(es: seq<Expr>, rest: Tokens) | ListError

  function Cur(ts: Tokens): Token {
    if ts == [] then Eof else ts[0]
  }

  function Next(ts: Tokens): Tokens {
    if Cur(ts) == Eof then ts else ts[1..]
  }

  /** Words that may never be a column. */
  predicate Reserved(k: Keyword) {
    k.Clause? || k in {OR, AND, LIKE, IN, BETWEEN, IS, SELECT}
  }

  function Spelling(k: Keyword): Name {
    match k
    case OR => "OR" case AND => "AND" case NOT => "NOT" case LIKE => "LIKE" case IN => "IN" case BETWEEN => "BETWEEN"
    case IS => "IS" case NULL => "NULL" case TRUE => "TRUE" case FALSE => "FALSE" case SELECT => "SELECT"
    case DISTINCT => "DISTINCT"
    case Function(x) => x case Clause(x) => x case Plain(x) => x
  }

  /** The operator a punctuation mark stands for in a comparison. */
  function Comparison(t: Token): Option<BinOp> {
    if t == Punct(EQ) then Some(Eq)
    else if t == Punct(NE) then Some(Ne)
    else if t == Punct(LT) then Some(Lt)
    else if t == Punct(LE) then Some(Le)
    else if t == Punct(GT) then Some(Gt)
    else if t == Punct(GE) then Some(Ge)
    else None
  }

  function Additive(t: Token): Option<BinOp> {
    if t == Punct(PLUS) then Some(Add) else if t == Punct(MINUS) then Some(Sub) else None
  }

  function Multiplicative(t: Token): Option<BinOp> {
    if t == Punct(STAR) then Some(Mul) else if t == Punct(SLASH) then Some(Div) else None
  }

  function Expect(p: Parsed, t: Token): Parsed
    ensures p.Parsed? && Expect(p, t).Parsed? && t != Eof ==> |Expect(p, t).rest| < |p.rest|
  {
    if p.Parsed? && Cur(p.rest) == t then Parsed(p.e, Next(p.rest)) else Error
  }

  // ---- the grammar ----

  function ParseOr(ts: Tokens): (r: Parsed)
    ensures r.Parsed? ==> |r.rest| < |ts|
    decreases |ts|, 8
  {
    var l := ParseAnd(ts);
    if l.Error? then Error else OrTail(l.e, l.rest)
  }

  function OrTail(left: Expr, ts: Tokens): (r: Parsed)
    ensures r.Parsed? ==> |r.rest| <= |ts|
    decreases |ts|, 0
  {
    if Cur(ts) == Word(OR) then
      var r := ParseAnd(Next(ts));
      if r.Error? then Error else OrTail(Bin(Or, left, r.e), r.rest)
    else Parsed(left, ts)
  }

  function ParseAnd(ts: Tokens): (r: Parsed)
    ensures r.Parsed? ==> |r.rest| < |ts|
    decreases |ts|, 7
  {
    var l := ParseNot(ts);
    if l.Error? then Error else AndTail(l.e, l.rest)
  }

  function AndTail(left: Expr, ts: Tokens): (r: Parsed)
    ensures r.Parsed? ==> |r.rest| <= |ts|
    decreases |ts|, 0
  {
    if Cur(ts) == Word(AND) then
      var r := ParseNot(Next(ts));
      if r.Error? then Error else AndTail(Bin(And, left, r.e), r.rest)
    else Parsed(left, ts)
  }

  function ParseNot(ts: Tokens): (r: Parsed)
    ensures r.Parsed? ==> |r.rest| < |ts|
    decreases |ts|, 6
  {
    if Cur(ts) == Word(NOT) then
      var r := ParseNot(Next(ts));
      if r.Error? then Error else Parsed(Un(Not, r.e), r.rest)
    else ParseComparison(ts)
  }

  function ParseComparison(ts: Tokens): (r: Parsed)
    ensures r.Parsed? ==> |r.rest| < |ts|
    decreases |ts|, 5
  {
    var l := ParseAdditive(ts);
    if l.Error? then Error else ComparisonTail(l.e, l.rest)
  }

  /** The comparison loop.  A NOT before `=` and its like is read and forgotten. */
  function ComparisonTail(left: Expr, ts: Tokens): (r: Parsed)
    ensures r.Parsed? ==> |r.rest| <= |ts|
    decreases |ts|, 1
  {
    var negated := Cur(ts) == Word(NOT);
    var us := if negated then Next(ts) else ts;
    if Comparison(Cur(us)).Some? then
      var r := ParseAdditive(Next(us));
      if r.Error? then Error else ComparisonTail(Bin(Comparison(Cur(us)).value, left, r.e), r.rest)
    else if Cur(us) == Word(LIKE) then
      var r := ParseAdditive(Next(us));
      if r.Error? then Error else ComparisonTail(Bin(if negated then NotLike else Like, left, r.e), r.rest)
    else if Cur(us) == Word(IN) then
      var r := InTail(left, negated, Next(us));
      if r.Error? then Error else ComparisonTail(r.e, r.rest)
    else if Cur(us) == Word(BETWEEN) then
      var r := BetweenTail(left, negated, Next(us));
      if r.Error? then Error else ComparisonTail(r.e, r.rest)
    else if negated then Error
    else if Cur(us) == Word(IS) then
      var r := IsTail(left, Next(us));
      if r.Error? then Error else ComparisonTail(r.e, r.rest)
    else Parsed(left, ts)
  }

  function IsTail(left: Expr, ts: Tokens): (r: Parsed)
    ensures r.Parsed? ==> |r.rest| < |ts|
  {
    if Cur(ts) == Word(NOT) then Expect(Parsed(Un(IsNotNull, left), Next(ts)), Word(NULL))
    else Expect(Parsed(Un(IsNull, left), ts), Word(NULL))
  }

  function Negated(e: Expr, negated: bool): Expr {
    if negated then Un(Not, e) else e
  }

  function BetweenTail(left: Expr, negated: bool, ts: Tokens): (r: Parsed)
    ensures r.Parsed? ==> |r.rest| < |ts|
    decreases |ts|, 5
  {
    var low := Expect(ParseAdditive(ts), Word(AND));
    if low.Error? then Error
    else
      var high := ParseAdditive(low.rest);
      if high.Error? then Error
      else Parsed(Negated(Bin(Between, left, Bin(And, low.e, high.e)), negated), high.rest)
  }

  /** `left = i0 OR left = i1 OR ...` */
  function Membership(left: Expr, items: seq<Expr>): Expr
    requires items != []
  {
    var last := Bin(Eq, left, items[|items| - 1]);
    if |items| == 1 then last else Bin(Or, Membership(left, items[..|items| - 1]), last)
  }

  /** A subquery after IN is not part of this model. */
  function InTail(left: Expr, negated: bool, ts: Tokens): (r: Parsed)
    ensures r.Parsed? ==> |r.rest| < |ts|
    decreases |ts|, 6
  {
    if Cur(ts) != Punct(OPEN) || Cur(Next(ts)) == Word(SELECT) then Error
    else
      var items := Items(Next(ts));
      if items.ListError? || Cur(items.rest) != Punct(CLOSE) then Error
      else Parsed(Negated(Membership(left, items.es), negated), Next(items.rest))
  }

  /** Additive expressions separated by commas. */
  function Items(ts: Tokens): (r: ParsedList)
    ensures r.ParsedList? ==> r.es != [] && |r.rest| < |ts|
    decreases |ts|, 5
  {
    var first := ParseAdditive(ts);
    if first.Error? then ListError
    else if Cur(first.rest) != Punct(COMMA) then ParsedList([first.e], first.rest)
    else
      var more := Items(Next(first.rest));
      if more.ListError? then ListError else ParsedList([first.e] + more.es, more.rest)
  }

  function ParseAdditive(ts: Tokens): (r: Parsed)
    ensures r.Parsed? ==> |r.rest| < |ts|
    decreases |ts|, 4
  {
    var l := ParseMultiplicative(ts);
    if l.Error? then Error else AdditiveTail(l.e, l.rest)
  }

  function AdditiveTail(left: Expr, ts: Tokens): (r: Parsed)
    ensures r.Parsed? ==> |r.rest| <= |ts|
    decreases |ts|, 0
  {
    if Additive(Cur(ts)).Some? then
      var r := ParseMultiplicative(Next(ts));
      if r.Error? then Error else AdditiveTail(Bin(Additive(Cur(ts)).value, left, r.e), r.rest)
    else Parsed(left, ts)
  }

  function ParseMultiplicative(ts: Tokens): (r: Parsed)
    ensures r.Parsed? ==> |r.rest| < |ts|
    decreases |ts|, 3
  {
    var l := ParseUnary(ts);
    if l.Error? then Error else MultiplicativeTail(l.e, l.rest)
  }

  function MultiplicativeTail(left: Expr, ts: Tokens): (r: Parsed)
    ensures r.Parsed? ==> |r.rest| <= |ts|
    decreases |ts|, 0
  {
    if Multiplicative(Cur(ts)).Some? then
      var r := ParseUnary(Next(ts));
      if r.Error? then Error else MultiplicativeTail(Bin(Multiplicative(Cur(ts)).value, left, r.e), r.rest)
    else Parsed(left, ts)
  }

  function ParseUnary(ts: Tokens): (r: Parsed)
    ensures r.Parsed? ==> |r.rest| < |ts|
    decreases |ts|, 2
  {
    if Cur(ts) == Punct(MINUS) then
      var r := ParseUnary(Next(ts));
      if r.Error? then Error else Parsed(Un(Neg, r.e), r.rest)
    else if Cur(ts) == Punct(PLUS) then ParseUnary(Next(ts))
    else ParsePrimary(ts)
  }

  /** A parenthesised SELECT is not part of this model. */
  function ParsePrimary(ts: Tokens): (r: Parsed)
    ensures r.Parsed? ==> |r.rest| < |ts|
    decreases |ts|, 1
  {
    var t := Cur(ts);
    if t.Number? then Parsed(Lit(Int(t.value)), Next(ts))
    else if t.Text? then Parsed(Lit(Str(t.text)), Next(ts))
    else if t == Word(NULL) then Parsed(Lit(Null), Next(ts))
    else if t == Word(TRUE) then Parsed(Lit(Bool(true)), Next(ts))
    else if t == Word(FALSE) then Parsed(Lit(Bool(false)), Next(ts))
    else if t == Punct(OPEN) then
      if Cur(Next(ts)) == Word(SELECT) then Error else Expect(ParseOr(Next(ts)), Punct(CLOSE))
    else if t.Word? && t.word.Function? then ParseFunc(t.word.name, Next(ts))
    else if t.Ident? || t.Word? then ParseColumn(t, Next(ts))
    else Error
  }

  function ParseColumn(first: Token, ts: Tokens): (r: Parsed)
    requires first.Ident? || first.Word?
    ensures r.Parsed? ==> |r.rest| <= |ts|
  {
    if first.Word? && Reserved(first.word) then Error
    else
      var name := if first.Word? then Spelling(first.word) else first.name;
      if Cur(ts) != Punct(DOT) then Parsed(Col(name, None), ts)
      else match Cur(Next(ts))
        case Ident(x) => Parsed(Col(x, Some(name)), Next(Next(ts)))
        case Word(k) => Parsed(Col(Spelling(k), Some(name)), Next(Next(ts)))
        case _ => Error
  }

  function ParseFunc(name: Name, ts: Tokens): (r: Parsed)
    ensures r.Parsed? ==> |r.rest| < |ts|
    decreases |ts|, 11
  {
    if Cur(ts) != Punct(OPEN) then Error
    else
      var distinct := Cur(Next(ts)) == Word(DISTINCT);
      FuncRest(name, distinct, if distinct then Next(Next(ts)) else Next(ts))
  }

  function FuncRest(name: Name, distinct: bool, ts: Tokens): (r: Parsed)
    ensures r.Parsed? ==> |r.rest| <= |ts|
    decreases |ts|, 10
  {
    if Cur(ts) == Punct(STAR) then Expect(Parsed(Func(name, [], distinct, true), Next(ts)), Punct(CLOSE))
    else if Cur(ts) == Punct(CLOSE) then Parsed(Func(name, [], distinct, false), Next(ts))
    else
      var args := Arguments(ts);
      if args.ListError? then Error else Expect(Parsed(Func(name, args.es, distinct, false), args.rest), Punct(CLOSE))
  }

  function Arguments(ts: Tokens): (r: ParsedList)
    ensures r.ParsedList? ==> r.es != [] && |r.rest| < |ts|
    decreases |ts|, 9
  {
    var first := ParseOr(ts);
    if first.Error? then ListError
    else if Cur(first.rest) != Punct(COMMA) then ParsedList([first.e], first.rest)
    else
      var more := Arguments(Next(first.rest));
      if more.ListError? then ListError else ParsedList([first.e] + more.es, more.rest)
  }

  // ---- a printer ----

  predicate IsBetween(e: Expr) {
    e.Bin? && e.op == Between && e.right.Bin? && e.right.op == And
  }

  /** The trees that have a text: no negative literal, BETWEEN with its two bounds, no
      subquery. */
  predicate Printable(e: Expr)
    decreases e
  {
    match e
    case Lit(v) => v.Int? ==> v.n >= 0
    case Col(_, _) => true
    case Un(_, x) => Printable(x)
    case Bin(op, l, r) => Printable(l) && Printable(r) && (op == Between ==> r.Bin? && r.op == And)
    case Func(name, args, _, star) =>
      (star ==> args == []) && forall i :: 0 <= i < |args| ==> Printable(args[i])
    case Query(_) => false
  }

  /** How tightly the outermost operator binds: OR 1, AND 2, NOT 3, comparison 4,
      additive 5, multiplicative 6, sign 7, everything else 8.  `NOT (x BETWEEN ..)`
      is written `x NOT BETWEEN ..` and so binds like a comparison. */
  function Level(e: Expr): (n: nat)
    ensures 1 <= n <= 8
  {
    match e
    case Un(op, x) => if op == Neg then 7 else if op == Not && !IsBetween(x) then 3 else 4
    case Bin(op, _, _) =>
      if op == Or then 1 else if op == And then 2
      else if op == Add || op == Sub then 5
      else if op == Mul || op == Div then 6 else 4
    case _ => 8
  }

  function Sign(op: BinOp): Token {
    if op == Or then Word(OR) else if op == And then Word(AND)
    else if op == Like then Word(LIKE) else if op == Eq then Punct(EQ) else if op == Ne then Punct(NE)
    else if op == Lt then Punct(LT) else if op == Le then Punct(LE)
    else if op == Gt then Punct(GT) else if op == Ge then Punct(GE)
    else if op == Add then Punct(PLUS) else if op == Sub then Punct(MINUS)
    else if op == Mul then Punct(STAR) else Punct(SLASH)
  }

  /** The tokens of a tree where something binding at least as tightly as `level` is
      wanted; parentheses only where the tree binds less tightly. */
  function Print(e: Expr, level: nat): Tokens
    requires Printable(e)
    decreases e, 1
  {
    if Level(e) < level then [Punct(OPEN)] + Body(e) + [Punct(CLOSE)] else Body(e)
  }

  function Body(e: Expr): Tokens
    requires Printable(e)
    decreases e, 0
  {
    match e
    case Lit(v) =>
      (match v
       case Null => [Word(NULL)]
       case Bool(b) => [Word(if b then TRUE else FALSE)]
       case Int(n) => [Number(n)]
       case Str(s) => [Text(s)])
    case Col(name, table) => if table.None? then [Ident(name)] else [Ident(table.value), Punct(DOT), Ident(name)]
    case Un(op, x) =>
      if op == Neg then [Punct(MINUS)] + Print(x, 7)
      else if op == IsNull then Print(x, 4) + [Word(IS), Word(NULL)]
      else if op == IsNotNull then Print(x, 4) + [Word(IS), Word(NOT), Word(NULL)]
      else if IsBetween(x) then
        assert Printable(x);
        Print(x.left, 4) + [Word(NOT)] + Bounds(x.right)
      else [Word(NOT)] + Print(x, 3)
    case Bin(op, l, r) =>
      if op == Between then Print(l, 4) + Bounds(r)
      else if op == NotLike then Print(l, 4) + [Word(NOT), Word(LIKE)] + Print(r, 5)
      else Print(l, Level(e)) + [Sign(op)] + Print(r, Level(e) + 1)
    case Func(name, args, distinct, star) =>
      [Word(Function(name)), Punct(OPEN)] + (if distinct then [Word(DISTINCT)] else []) +
      (if star then [Punct(STAR)] else PrintArgs(args)) + [Punct(CLOSE)]
  }

  /** BETWEEN and its bounds, which the tree holds as an AND. */
  function Bounds(b: Expr): Tokens
    requires Printable(b) && b.Bin? && b.op == And
    decreases b, 2
  {
    [Word(BETWEEN)] + Print(b.left, 5) + [Word(AND)] + Print(b.right, 5)
  }

  function PrintArgs(args: seq<Expr>): Tokens
    requires forall i :: 0 <= i < |args| ==> Printable(args[i])
    decreases args
  {
    if args == [] then []
    else if |args| == 1 then Print(args[0], 1)
    else Print(args[0], 1) + [Punct(COMMA)] + PrintArgs(args[1..])
  }

  // ---- parse inverts print ----

  function ParseAt(level: nat, ts: Tokens): Parsed
    requires 1 <= level <= 8
  {
    match level
    case 1 => ParseOr(ts)
    case 2 => ParseAnd(ts)
    case 3 => ParseNot(ts)
    case 4 => ParseComparison(ts)
    case 5 => ParseAdditive(ts)
    case 6 => ParseMultiplicative(ts)
    case 7 => ParseUnary(ts)
    case _ => ParsePrimary(ts)
  }

  /** The loop of a level, going on after the tree `e`. */
  function TailAt(level: nat, e: Expr, ts: Tokens): Parsed
    requires 1 <= level <= 8
  {
    match level
    case 1 => OrTail(e, ts)
    case 2 => AndTail(e, ts)
    case 4 => ComparisonTail(e, ts)
    case 5 => AdditiveTail(e, ts)
    case 6 => MultiplicativeTail(e, ts)
    case _ => Parsed(e, ts)
  }

  predicate StartsComparison(t: Token) {
    Comparison(t).Some? || t in {Word(NOT), Word(LIKE), Word(IN), Word(BETWEEN), Word(IS)}
  }

  /** Nothing at `ts` that a parser of this level or above would take for its own. */
  predicate Stops(ts: Tokens, level: nat) {
    var t := Cur(ts);
    && t != Punct(DOT)
    && (level <= 6 ==> Multiplicative(t).None?)
    && (level <= 5 ==> Additive(t).None?)
    && (level <= 4 ==> !StartsComparison(t))
    && (level <= 2 ==> t != Word(AND))
    && (level <= 1 ==> t != Word(OR))
  }

  lemma TailStops(level: nat, e: Expr, ts: Tokens)
    requires 1 <= level <= 8 && Stops(ts, level)
    ensures TailAt(level, e, ts) == Parsed(e, ts)
  {
    match level
    case 1 => {}
    case 2 => {}
    case 4 => ComparisonStops(e, ts);
    case 5 => {}
    case 6 => {}
    case _ => {}
  }

  lemma ComparisonStops(e: Expr, ts: Tokens)
    requires Stops(ts, 4)
    ensures ComparisonTail(e, ts) == Parsed(e, ts)
  {
  }

  // ---- how a printed tree begins ----

  predicate Begins(t: Token, level: nat) {
    || t.Number? || t.Text? || t.Ident? || t == Punct(OPEN)
    || t == Word(NULL) || t == Word(TRUE) || t == Word(FALSE)
    || (t.Word? && t.word.Function?)
    || (level <= 7 && t == Punct(MINUS))
    || (level <= 3 && t == Word(NOT))
  }

  lemma {:induction false} PrintBegins(e: Expr, level: nat, ts: Tokens)
    requires Printable(e)
    ensures Print(e, level) != [] && Begins(Cur(Print(e, level) + ts), level)
    decreases e, 1
  {
    if level <= Level(e) { BodyBegins(e, level, ts); }
  }

  lemma {:induction false} BodyBegins(e: Expr, level: nat, ts: Tokens)
    requires Printable(e) && level <= Level(e)
    ensures Body(e) != [] && Begins(Cur(Body(e) + ts), level)
    decreases e, 0
  {
    match e
    case Un(op, x) =>
      if op == IsNull || op == IsNotNull {
        PrintBegins(x, 4, []);
        BeginsFirst(Print(x, 4), Body(e) + ts, level);
      } else if op == Not && IsBetween(x) {
        assert Printable(x);
        PrintBegins(x.left, 4, []);
        BeginsFirst(Print(x.left, 4), Body(e) + ts, level);
      }
    case Bin(op, l, r) =>
      var n := if op == Between || op == NotLike then 4 else Level(e);
      PrintBegins(l, n, []);
      assert Print(l, n) <= Body(e);
      BeginsFirst(Print(l, n), Body(e) + ts, level);
    case _ =>
  }

  lemma BeginsFirst(first: Tokens, ts: Tokens, level: nat)
    requires first != [] && first <= ts && exists n :: n >= level && Begins(Cur(first + []), n)
    ensures Begins(Cur(ts), level)
  {
    assert Cur(first + []) == Cur(ts);
  }

  // ---- reading on ----

  lemma ConsRead(t: Token, us: Tokens)
    requires t != Eof
    ensures Cur([t] + us) == t && Next([t] + us) == us
  {
    assert ([t] + us)[1..] == us;
  }

  lemma BetweenBounds(l: Expr, low: Expr, high: Expr, negated: bool, us: Tokens, vs: Tokens, ts: Tokens)
    requires ParseAdditive(us) == Parsed(low, vs) && Cur(vs) == Word(AND) && ParseAdditive(Next(vs)) == Parsed(high, ts)
    ensures BetweenTail(l, negated, us) == Parsed(Negated(Bin(Between, l, Bin(And, low, high)), negated), ts)
  {
  }

  lemma InRead(l: Expr, items: seq<Expr>, negated: bool, us: Tokens, close: Tokens)
    requires items != [] && Cur(us) == Punct(OPEN) && Cur(Next(us)) != Word(SELECT)
    requires Items(Next(us)) == ParsedList(items, close) && Cur(close) == Punct(CLOSE)
    ensures InTail(l, negated, us) == Parsed(Negated(Membership(l, items), negated), Next(close))
  {
  }

  // ---- only trees with a text are ever parsed ----

  /** The lexer makes no negative numbers. */
  predicate Lexed(ts: Tokens) {
    forall i :: 0 <= i < |ts| && ts[i].Number? ==> ts[i].value >= 0
  }

  predicate Fine(r: Parsed) {
    r.Parsed? ==> Printable(r.e) && Lexed(r.rest)
  }

  predicate FineList(r: ParsedList) {
    r.ParsedList? ==> Lexed(r.rest) && forall i :: 0 <= i < |r.es| ==> Printable(r.es[i])
  }

  lemma NextLexed(ts: Tokens)
    requires Lexed(ts)
    ensures Lexed(Next(ts)) && (Cur(ts).Number? ==> Cur(ts).value >= 0)
  {
  }

  lemma ExpectFine(r: Parsed, t: Token)
    requires Fine(r)
    ensures Fine(Expect(r, t))
  {
    if r.Parsed? { NextLexed(r.rest); }
  }

  lemma BinFine(op: BinOp, l: Expr, r: Expr)
    requires Printable(l) && Printable(r) && op != Between
    ensures Printable(Bin(op, l, r))
  {
  }

  lemma {:induction false} OrFine(ts: Tokens)
    requires Lexed(ts)
    ensures Fine(ParseOr(ts))
    decreases |ts|, 8
  {
    AndFine(ts);
    var l := ParseAnd(ts);
    if l.Parsed? { OrTailFine(l.e, l.rest); }
  }

  lemma {:induction false} OrTailFine(left: Expr, ts: Tokens)
    requires Lexed(ts) && Printable(left)
    ensures Fine(OrTail(left, ts))
    decreases |ts|, 0
  {
    if Cur(ts) == Word(OR) {
      NextLexed(ts);
      AndFine(Next(ts));
      var r := ParseAnd(Next(ts));
      if r.Parsed? {
        BinFine(Or, left, r.e);
        OrTailFine(Bin(Or, left, r.e), r.rest);
      }
    }
  }

  lemma {:induction false} AndFine(ts: Tokens)
    requires Lexed(ts)
    ensures Fine(ParseAnd(ts))
    decreases |ts|, 7
  {
    NotFine(ts);
    var l := ParseNot(ts);
    if l.Parsed? { AndTailFine(l.e, l.rest); }
  }

  lemma {:induction false} AndTailFine(left: Expr, ts: Tokens)
    requires Lexed(ts) && Printable(left)
    ensures Fine(AndTail(left, ts))
    decreases |ts|, 0
  {
    if Cur(ts) == Word(AND) {
      NextLexed(ts);
      NotFine(Next(ts));
      var r := ParseNot(Next(ts));
      if r.Parsed? {
        BinFine(And, left, r.e);
        AndTailFine(Bin(And, left, r.e), r.rest);
      }
    }
  }

  lemma {:induction false} NotFine(ts: Tokens)
    requires Lexed(ts)
    ensures Fine(ParseNot(ts))
    decreases |ts|, 6
  {
    hide ParseOr, OrTail, ParseAnd, AndTail, ParseComparison, ComparisonTail, IsTail, BetweenTail, InTail, Items,
         ParseAdditive, AdditiveTail, ParseMultiplicative, MultiplicativeTail, ParseUnary, ParsePrimary,
         ParseColumn, ParseFunc, FuncRest, Arguments;
    if Cur(ts) == Word(NOT) {
      NextLexed(ts);
      NotFine(Next(ts));
      assert ParseNot(Next(ts)).Parsed? ==> Printable(Un(Not, ParseNot(Next(ts)).e));
    } else {
      ComparisonFine(ts);
    }
  }

  lemma {:induction false} ComparisonFine(ts: Tokens)
    requires Lexed(ts)
    ensures Fine(ParseComparison(ts))
    decreases |ts|, 5
  {
    AdditiveFine(ts);
    var l := ParseAdditive(ts);
    if l.Parsed? { ComparisonTailFine(l.e, l.rest); }
  }

  lemma {:induction false} ComparisonTailFine(left: Expr, ts: Tokens)
    requires Lexed(ts) && Printable(left)
    ensures Fine(ComparisonTail(left, ts))
    decreases |ts|, 1
  {
    hide ParseOr, OrTail, ParseAnd, AndTail, ParseNot, ParseComparison, IsTail, BetweenTail, InTail, Items,
         ParseAdditive, AdditiveTail, ParseMultiplicative, MultiplicativeTail, ParseUnary, ParsePrimary,
         ParseColumn, ParseFunc, FuncRest, Arguments, Lexed, Printable;
    var negated := Cur(ts) == Word(NOT);
    var us := if negated then Next(ts) else ts;
    NextLexed(ts);
    NextLexed(us);
    if Comparison(Cur(us)).Some? || Cur(us) == Word(LIKE) {
      var op := if Cur(us) != Word(LIKE) then Comparison(Cur(us)).value else if negated then NotLike else Like;
      AdditiveFine(Next(us));
      var r := ParseAdditive(Next(us));
      if r.Parsed? {
        BinFine(op, left, r.e);
        ComparisonTailFine(Bin(op, left, r.e), r.rest);
      }
    } else if Cur(us) == Word(IN) {
      InTailFine(left, negated, Next(us));
      var r := InTail(left, negated, Next(us));
      if r.Parsed? { ComparisonTailFine(r.e, r.rest); }
    } else if Cur(us) == Word(BETWEEN) {
      BetweenTailFine(left, negated, Next(us));
      var r := BetweenTail(left, negated, Next(us));
      if r.Parsed? { ComparisonTailFine(r.e, r.rest); }
    } else if !negated && Cur(us) == Word(IS) {
      IsTailFine(left, Next(us));
      var r := IsTail(left, Next(us));
      if r.Parsed? { ComparisonTailFine(r.e, r.rest); }
    }
  }

  lemma IsTailFine(left: Expr, ts: Tokens)
    requires Lexed(ts) && Printable(left)
    ensures Fine(IsTail(left, ts))
  {
    NextLexed(ts);
    assert Printable(Un(IsNull, left)) && Printable(Un(IsNotNull, left));
    ExpectFine(Parsed(Un(IsNotNull, left), Next(ts)), Word(NULL));
    ExpectFine(Parsed(Un(IsNull, left), ts), Word(NULL));
  }

  lemma NegatedFine(e: Expr, negated: bool)
    requires Printable(e)
    ensures Printable(Negated(e, negated))
  {
  }

  lemma {:induction false} BetweenTailFine(left: Expr, negated: bool, ts: Tokens)
    requires Lexed(ts) && Printable(left)
    ensures Fine(BetweenTail(left, negated, ts))
    decreases |ts|, 5
  {
    AdditiveFine(ts);
    ExpectFine(ParseAdditive(ts), Word(AND));
    var low := Expect(ParseAdditive(ts), Word(AND));
    if low.Parsed? {
      AdditiveFine(low.rest);
      var high := ParseAdditive(low.rest);
      if high.Parsed? {
        BinFine(And, low.e, high.e);
        assert Printable(Bin(Between, left, Bin(And, low.e, high.e)));
        NegatedFine(Bin(Between, left, Bin(And, low.e, high.e)), negated);
      }
    }
  }

  lemma {:induction false} MembershipFine(left: Expr, items: seq<Expr>)
    requires items != [] && Printable(left) && forall i :: 0 <= i < |items| ==> Printable(items[i])
    ensures Printable(Membership(left, items))
    decreases |items|
  {
    var last := items[|items| - 1];
    BinFine(Eq, left, last);
    if |items| > 1 {
      MembershipFine(left, items[..|items| - 1]);
      BinFine(Or, Membership(left, items[..|items| - 1]), Bin(Eq, left, last));
    }
  }

  lemma {:induction false} InTailFine(left: Expr, negated: bool, ts: Tokens)
    requires Lexed(ts) && Printable(left)
    ensures Fine(InTail(left, negated, ts))
    decreases |ts|, 6
  {
    if Cur(ts) == Punct(OPEN) {
      NextLexed(ts);
      ItemsFine(Next(ts));
      var items := Items(Next(ts));
      if items.ParsedList? {
        NextLexed(items.rest);
        MembershipFine(left, items.es);
        NegatedFine(Membership(left, items.es), negated);
      }
    }
  }

  lemma {:induction false} ItemsFine(ts: Tokens)
    requires Lexed(ts)
    ensures FineList(Items(ts))
    decreases |ts|, 5
  {
    AdditiveFine(ts);
    var first := ParseAdditive(ts);
    if first.Parsed? && Cur(first.rest) == Punct(COMMA) {
      NextLexed(first.rest);
      ItemsFine(Next(first.rest));
    }
  }

  lemma {:induction false} AdditiveFine(ts: Tokens)
    requires Lexed(ts)
    ensures Fine(ParseAdditive(ts))
    decreases |ts|, 4
  {
    MultiplicativeFine(ts);
    var l := ParseMultiplicative(ts);
    if l.Parsed? { AdditiveTailFine(l.e, l.rest); }
  }

  lemma {:induction false} AdditiveTailFine(left: Expr, ts: Tokens)
    requires Lexed(ts) && Printable(left)
    ensures Fine(AdditiveTail(left, ts))
    decreases |ts|, 0
  {
    var op := Additive(Cur(ts));
    if op.Some? {
      NextLexed(ts);
      MultiplicativeFine(Next(ts));
      var r := ParseMultiplicative(Next(ts));
      if r.Parsed? {
        BinFine(op.value, left, r.e);
        AdditiveTailFine(Bin(op.value, left, r.e), r.rest);
      }
    }
  }

  lemma {:induction false} MultiplicativeFine(ts: Tokens)
    requires Lexed(ts)
    ensures Fine(ParseMultiplicative(ts))
    decreases |ts|, 3
  {
    UnaryFine(ts);
    var l := ParseUnary(ts);
    if l.Parsed? { MultiplicativeTailFine(l.e, l.rest); }
  }

  lemma {:induction false} MultiplicativeTailFine(left: Expr, ts: Tokens)
    requires Lexed(ts) && Printable(left)
    ensures Fine(MultiplicativeTail(left, ts))
    decreases |ts|, 0
  {
    var op := Multiplicative(Cur(ts));
    if op.Some? {
      NextLexed(ts);
      UnaryFine(Next(ts));
      var r := ParseUnary(Next(ts));
      if r.Parsed? {
        BinFine(op.value, left, r.e);
        MultiplicativeTailFine(Bin(op.value, left, r.e), r.rest);
      }
    }
  }

  lemma {:induction false} UnaryFine(ts: Tokens)
    requires Lexed(ts)
    ensures Fine(ParseUnary(ts))
    decreases |ts|, 2
  {
    if Cur(ts) == Punct(MINUS) || Cur(ts) == Punct(PLUS) {
      NextLexed(ts);
      UnaryFine(Next(ts));
      assert ParseUnary(Next(ts)).Parsed? ==> Printable(Un(Neg, ParseUnary(Next(ts)).e));
    } else {
      PrimaryFine(ts);
    }
  }

  lemma {:induction false} PrimaryFine(ts: Tokens)
    requires Lexed(ts)
    ensures Fine(ParsePrimary(ts))
    decreases |ts|, 1
  {
    var t := Cur(ts);
    NextLexed(ts);
    if t == Punct(OPEN) {
      if Cur(Next(ts)) != Word(SELECT) {
        OrFine(Next(ts));
        ExpectFine(ParseOr(Next(ts)), Punct(CLOSE));
      }
    } else if t.Word? && t.word.Function? {
      FuncFine(t.word.name, Next(ts));
    } else if t.Ident? || t.Word? {
      NextLexed(Next(ts));
      NextLexed(Next(Next(ts)));
    }
  }

  lemma {:induction false} FuncFine(name: string, ts: Tokens)
    requires Lexed(ts)
    ensures Fine(ParseFunc(name, ts))
    decreases |ts|, 9
  {
    if Cur(ts) == Punct(OPEN) {
      NextLexed(ts);
      NextLexed(Next(ts));
      var distinct := Cur(Next(ts)) == Word(DISTINCT);
      var us := if distinct then Next(Next(ts)) else Next(ts);
      NextLexed(us);
      if Cur(us) == Punct(STAR) {
        ExpectFine(Parsed(Func(name, [], distinct, true), Next(us)), Punct(CLOSE));
      } else if Cur(us) != Punct(CLOSE) {
        ArgumentsFine(us);
        var args := Arguments(us);
        if args.ParsedList? {
          assert Printable(Func(name, args.es, distinct, false));
          ExpectFine(Parsed(Func(name, args.es, distinct, false), args.rest), Punct(CLOSE));
        }
      }
    }
  }

  lemma {:induction false} ArgumentsFine(ts: Tokens)
    requires Lexed(ts)
    ensures FineList(Arguments(ts))
    decreases |ts|, 9
  {
    OrFine(ts);
    var first := ParseOr(ts);
    if first.Parsed? && Cur(first.rest) == Punct(COMMA) {
      NextLexed(first.rest);
      ArgumentsFine(Next(first.rest));
    }
  }

  // ---- IN lists ----

  /** A comma-separated list of operands. */
  function PrintItems(items: seq<Expr>): Tokens
    requires items != [] && forall i :: 0 <= i < |items| ==> Printable(items[i])
  {
    if |items| == 1 then Print(items[0], 5) else Print(items[0], 5) + [Punct(COMMA)] + PrintItems(items[1..])
  }

  lemma EqualityTruth(w: World, srcs: seq<Source>, rows: seq<Row>, l: Expr, x: Expr)
    requires Eval(w, srcs, rows, l).Done? && Eval(w, srcs, rows, x).Done?
    ensures TruthIn(w, srcs, rows, Bin(Eq, l, x))
  {
  }

  lemma EitherHolds(w: World, srcs: seq<Source>, rows: seq<Row>, a: Expr, b: Expr)
    requires TruthIn(w, srcs, rows, a) && TruthIn(w, srcs, rows, b)
    ensures TruthIn(w, srcs, rows, Bin(Or, a, b))
    ensures Holds(w, srcs, rows, Bin(Or, a, b)) <==> Holds(w, srcs, rows, a) || Holds(w, srcs, rows, b)
  {
    ThreeValued(Eval(w, srcs, rows, a).value, Eval(w, srcs, rows, b).value);
  }

  /** What the folded list means: it holds exactly when one of the equalities does. */
  lemma {:induction false} MembershipHolds(w: World, srcs: seq<Source>, rows: seq<Row>, l: Expr, items: seq<Expr>)
    requires items != [] && Eval(w, srcs, rows, l).Done?
    requires forall i :: 0 <= i < |items| ==> Eval(w, srcs, rows, items[i]).Done?
    ensures TruthIn(w, srcs, rows, Membership(l, items))
    ensures Holds(w, srcs, rows, Membership(l, items)) <==>
              exists i :: 0 <= i < |items| && Holds(w, srcs, rows, Bin(Eq, l, items[i]))
    decreases |items|
  {
    hide Eval, Holds, TruthIn;
    var n := |items| - 1;
    EqualityTruth(w, srcs, rows, l, items[n]);
    if n > 0 {
      var init := items[..n];
      assert forall i :: 0 <= i < |init| ==> init[i] == items[i];
      MembershipHolds(w, srcs, rows, l, init);
      EitherHolds(w, srcs, rows, Membership(l, init), Bin(Eq, l, items[n]));
      assert Membership(l, items) == Bin(Or, Membership(l, init), Bin(Eq, l, items[n]));
      hide Membership;
      if i :| 0 <= i < |items| && Holds(w, srcs, rows, Bin(Eq, l, items[i])) {
        assert i < n ==> Holds(w, srcs, rows, Bin(Eq, l, init[i]));
      }
    }
  }

  /** A NOT in front of a comparison sign is read and forgotten: `x NOT = y` is
      parsed as `x = y`. */
  lemma NotBeforeSignIsLost(left: Expr, us: Tokens)
    requires Comparison(Cur(us)).Some?
    ensures ComparisonTail(left, [Word(NOT)] + us) == ComparisonTail(left, us)
  {
    ConsRead(Word(NOT), us);
  }

  // ---- one turn of the comparison loop ----

  function Compared(op: BinOp, left: Expr, r: Parsed): Parsed {
    if r.Error? then Error else Parsed(Bin(op, left, r.e), r.rest)
  }

  /** What the operator at `us` makes of `left`; `None` when there is none. */
  function ComparisonOp(left: Expr, negated: bool, us: Tokens): Option<Parsed> {
    if Comparison(Cur(us)).Some? then Some(Compared(Comparison(Cur(us)).value, left, ParseAdditive(Next(us))))
    else if Cur(us) == Word(LIKE) then Some(Compared(if negated then NotLike else Like, left, ParseAdditive(Next(us))))
    else if Cur(us) == Word(IN) then Some(InTail(left, negated, Next(us)))
    else if Cur(us) == Word(BETWEEN) then Some(BetweenTail(left, negated, Next(us)))
    else if !negated && Cur(us) == Word(IS) then Some(IsTail(left, Next(us)))
    else None
  }

  lemma ComparisonTurns(left: Expr, ts: Tokens)
    ensures var negated := Cur(ts) == Word(NOT);
      ComparisonTail(left, ts) ==
        match ComparisonOp(left, negated, if negated then Next(ts) else ts)
        case None => if negated then Error else Parsed(left, ts)
        case Some(p) => if p.Error? then Error else ComparisonTail(p.e, p.rest)
  {
    hide ParseOr, OrTail, ParseAnd, AndTail, ParseNot, ParseComparison, IsTail, BetweenTail, InTail, Items,
         ParseAdditive, AdditiveTail, ParseMultiplicative, MultiplicativeTail, ParseUnary, ParsePrimary,
         ParseColumn, ParseFunc, FuncRest, Arguments;
  }

  lemma OpShrinks(left: Expr, negated: bool, us: Tokens)
    ensures var op := ComparisonOp(left, negated, us);
      op.Some? && op.value.Parsed? ==> |op.value.rest| < |us|
  {
  }

  // ---- the parser ----

  /** What a method returned, against what its function returns; an exception is
      `None`. */
  predicate Agrees(p: Parsed, r: Option<Expr>, rest: Tokens) {
    match p case Error => r.None? case Parsed(e, left) => r == Some(e) && rest == left
  }

  predicate AgreesList(p: ParsedList, r: Option<seq<Expr>>, rest: Tokens) {
    match p case ListError => r.None? case ParsedList(es, left) => r == Some(es) && rest == left
  }

  class Parser {
    const tokens: Tokens
    var pos: nat

    /** The lexer ends every token list with `Eof`. */
    constructor (tokens: Tokens)
      requires tokens != [] && tokens[|tokens| - 1] == Eof
      ensures Valid() && Rest() == tokens
    {
      this.tokens := tokens;
      pos := 0;
    }

    ghost predicate Valid()
      reads this
    {
      pos < |tokens| && tokens[|tokens| - 1] == Eof
    }

    ghost function Rest(): Tokens
      requires Valid()
      reads this
    {
      tokens[pos..]
    }

    function Current(): Token
      requires Valid()
      reads this
      ensures Current() == Cur(Rest())
    {
      tokens[pos]
    }

    method Advance()
      requires Valid()
      modifies this`pos
      ensures Valid() && Rest() == Next(old(Rest()))
    {
      if tokens[pos] != Eof {
        pos := pos + 1;
      }
    }

    method Match(t: Token) returns (found: bool)
      requires Valid() && t != Eof
      modifies this`pos
      ensures Valid() && found == (Cur(old(Rest())) == t)
      ensures Rest() == if found then Next(old(Rest())) else old(Rest())
      ensures found ==> |Rest()| < |old(Rest())|
    {
      found := Current() == t;
      if found { Advance(); }
    }

    method OrLevel() returns (r: Option<Expr>)
      requires Valid()
      modifies this`pos
      ensures Valid() && Agrees(ParseOr(old(Rest())), r, Rest())
      decreases |Rest()|, 8
    {
      ghost var ts := Rest();
      r := AndLevel();
      if r.None? { return; }
      var left := r.value;
      while Current() == Word(OR)
        invariant Valid() && ParseOr(ts) == OrTail(left, Rest()) && |Rest()| < |ts|
        decreases |Rest()|
      {
        Advance();
        r := AndLevel();
        if r.None? { return; }
        left := Bin(Or, left, r.value);
      }
      r := Some(left);
    }

    method AndLevel() returns (r: Option<Expr>)
      requires Valid()
      modifies this`pos
      ensures Valid() && Agrees(ParseAnd(old(Rest())), r, Rest())
      decreases |Rest()|, 7
    {
      ghost var ts := Rest();
      r := NotLevel();
      if r.None? { return; }
      var left := r.value;
      while Current() == Word(AND)
        invariant Valid() && ParseAnd(ts) == AndTail(left, Rest()) && |Rest()| < |ts|
        decreases |Rest()|
      {
        Advance();
        r := NotLevel();
        if r.None? { return; }
        left := Bin(And, left, r.value);
      }
      r := Some(left);
    }

    method NotLevel() returns (r: Option<Expr>)
      requires Valid()
      modifies this`pos
      ensures Valid() && Agrees(ParseNot(old(Rest())), r, Rest())
      decreases |Rest()|, 6
    {
      var negated := Match(Word(NOT));
      if negated {
        r := NotLevel();
        if r.Some? { r := Some(Un(Not, r.value)); }
      } else {
        r := ComparisonLevel();
      }
    }

    method ComparisonLevel() returns (r: Option<Expr>)
      requires Valid()
      modifies this`pos
      ensures Valid() && Agrees(ParseComparison(old(Rest())), r, Rest())
      decreases |Rest()|, 5
    {
      ghost var ts := Rest();
      r := AdditiveLevel();
      if r.None? { return; }
      var left := r.value;
      var more := true;
      while more
        invariant Valid() && |Rest()| < |ts|
        invariant if more then ParseComparison(ts) == ComparisonTail(left, Rest())
                  else Agrees(ParseComparison(ts), r, Rest())
        decreases |Rest()|, more
      {
        ghost var us := Rest();
        more, r := ComparisonTurn(left);
        if r.None? {
          return;
        }
        left := r.value;
      }
    }

    /** One turn of the comparison loop.  `more` says that an operator was read. */
    method ComparisonTurn(left: Expr) returns (more: bool, r: Option<Expr>)
      requires Valid()
      modifies this`pos
      ensures Valid()
      ensures r.None? ==> ComparisonTail(left, old(Rest())) == Error
      ensures r.Some? && more ==> |Rest()| < |old(Rest())|
      ensures r.Some? && more ==> ComparisonTail(left, old(Rest())) == ComparisonTail(r.value, Rest())
      ensures r.Some? && !more ==> ComparisonTail(left, old(Rest())) == Parsed(r.value, Rest()) && Rest() == old(Rest())
      decreases |Rest()|, 8
    {
      hide ComparisonTail, ParseAdditive, InTail, BetweenTail, IsTail;
      ComparisonTurns(left, Rest());
      var negated := Match(Word(NOT));
      ghost var us := Rest();
      more, r := OperatorRest(left, negated);
      OpShrinks(left, negated, us);
      if negated && !more {
        r := None;
      }
    }

    method OperatorRest(left: Expr, negated: bool) returns (more: bool, r: Option<Expr>)
      requires Valid()
      modifies this`pos
      ensures Valid()
      ensures var op := ComparisonOp(left, negated, old(Rest()));
        && more == op.Some?
        && (more ==> Agrees(op.value, r, Rest()))
        && (!more ==> r == Some(left) && Rest() == old(Rest()))
      decreases |Rest()|, 7
    {
      hide ParseAdditive, InTail, BetweenTail, IsTail;
      more := true;
      var sign := Comparison(Current());
      if sign.Some? {
        Advance();
        r := AdditiveLevel();
        if r.Some? { r := Some(Bin(sign.value, left, r.value)); }
        return;
      }
      var found := Match(Word(LIKE));
      if found {
        r := AdditiveLevel();
        if r.Some? { r := Some(Bin(if negated then NotLike else Like, left, r.value)); }
        return;
      }
      found := Match(Word(IN));
      if found {
        r := InRest(left, negated);
        return;
      }
      found := Match(Word(BETWEEN));
      if found {
        r := BetweenRest(left, negated);
        return;
      }
      if !negated {
        found := Match(Word(IS));
        if found {
          r := IsRest(left);
          return;
        }
      }
      return false, Some(left);
    }

    method IsRest(left: Expr) returns (r: Option<Expr>)
      requires Valid()
      modifies this`pos
      ensures Valid() && Agrees(IsTail(left, old(Rest())), r, Rest())
    {
      var negated := Match(Word(NOT));
      var found := Match(Word(NULL));
      r := if found then Some(Un(if negated then IsNotNull else IsNull, left)) else None;
    }

    method BetweenRest(left: Expr, negated: bool) returns (r: Option<Expr>)
      requires Valid()
      modifies this`pos
      ensures Valid() && Agrees(BetweenTail(left, negated, old(Rest())), r, Rest())
      decreases |Rest()|, 5
    {
      var low := AdditiveLevel();
      if low.None? { return None; }
      var found := Match(Word(AND));
      if !found { return None; }
      var high := AdditiveLevel();
      if high.None? { return None; }
      var e := Bin(Between, left, Bin(And, low.value, high.value));
      r := Some(if negated then Un(Not, e) else e);
    }

    method InRest(left: Expr, negated: bool) returns (r: Option<Expr>)
      requires Valid()
      modifies this`pos
      ensures Valid() && Agrees(InTail(left, negated, old(Rest())), r, Rest())
      decreases |Rest()|, 6
    {
      var found := Match(Punct(OPEN));
      if !found { return None; }
      if Current() == Word(SELECT) { return None; }
      var items := ItemList();
      if items.None? { return None; }
      found := Match(Punct(CLOSE));
      if !found { return None; }
      var cond := Fold(left, items.value);
      r := Some(if negated then Un(Not, cond) else cond);
    }

    /** The fold of an explicit IN list. */
    static method Fold(left: Expr, items: seq<Expr>) returns (cond: Expr)
      requires items != []
      ensures cond == Membership(left, items)
    {
      cond := Bin(Eq, left, items[0]);
      var i := 1;
      assert items[..1] == [items[0]];
      while i < |items|
        invariant 1 <= i <= |items| && cond == Membership(left, items[..i])
      {
        assert items[..i + 1][..i] == items[..i];
        cond := Bin(Or, cond, Bin(Eq, left, items[i]));
        i := i + 1;
      }
      assert items[..i] == items;
    }

    method ItemList() returns (r: Option<seq<Expr>>)
      requires Valid()
      modifies this`pos
      ensures Valid() && AgreesList(Items(old(Rest())), r, Rest())
      decreases |Rest()|, 5
    {
      ghost var ts := Rest();
      var first := AdditiveLevel();
      if first.None? { return None; }
      var items := [first.value];
      while Current() == Punct(COMMA)
        invariant Valid() && |Rest()| < |ts|
        invariant Items(ts) ==
          if Current() == Punct(COMMA) then Prepended(items, Items(Next(Rest()))) else ParsedList(items, Rest())
        decreases |Rest()|
      {
        ghost var us := Rest();
        Advance();
        var next := AdditiveLevel();
        if next.None? { return None; }
        PrependedTwice(items, [next.value], Items(Next(Rest())));
        items := items + [next.value];
      }
      r := Some(items);
    }

    method AdditiveLevel() returns (r: Option<Expr>)
      requires Valid()
      modifies this`pos
      ensures Valid() && Agrees(ParseAdditive(old(Rest())), r, Rest())
      decreases |Rest()|, 4
    {
      ghost var ts := Rest();
      r := MultiplicativeLevel();
      if r.None? { return; }
      var left := r.value;
      while Additive(Current()).Some?
        invariant Valid() && ParseAdditive(ts) == AdditiveTail(left, Rest()) && |Rest()| < |ts|
        decreases |Rest()|
      {
        var op := Additive(Current()).value;
        Advance();
        r := MultiplicativeLevel();
        if r.None? { return; }
        left := Bin(op, left, r.value);
      }
      r := Some(left);
    }

    method MultiplicativeLevel() returns (r: Option<Expr>)
      requires Valid()
      modifies this`pos
      ensures Valid() && Agrees(ParseMultiplicative(old(Rest())), r, Rest())
      decreases |Rest()|, 3
    {
      ghost var ts := Rest();
      r := UnaryLevel();
      if r.None? { return; }
      var left := r.value;
      while Multiplicative(Current()).Some?
        invariant Valid() && ParseMultiplicative(ts) == MultiplicativeTail(left, Rest()) && |Rest()| < |ts|
        decreases |Rest()|
      {
        var op := Multiplicative(Current()).value;
        Advance();
        r := UnaryLevel();
        if r.None? { return; }
        left := Bin(op, left, r.value);
      }
      r := Some(left);
    }

    method UnaryLevel() returns (r: Option<Expr>)
      requires Valid()
      modifies this`pos
      ensures Valid() && Agrees(ParseUnary(old(Rest())), r, Rest())
      decreases |Rest()|, 2
    {
      var found := Match(Punct(MINUS));
      if found {
        r := UnaryLevel();
        if r.Some? { r := Some(Un(Neg, r.value)); }
        return;
      }
      found := Match(Punct(PLUS));
      if found {
        r := UnaryLevel();
      } else {
        r := PrimaryLevel();
      }
    }

    method PrimaryLevel() returns (r: Option<Expr>)
      requires Valid()
      modifies this`pos
      ensures Valid() && Agrees(ParsePrimary(old(Rest())), r, Rest())
      decreases |Rest()|, 1
    {
      var t := Current();
      if t.Number? {
        Advance();
        return Some(Lit(Int(t.value)));
      }
      if t.Text? {
        Advance();
        return Some(Lit(Str(t.text)));
      }
      var found := Match(Word(NULL));
      if found { return Some(Lit(Null)); }
      found := Match(Word(TRUE));
      if found { return Some(Lit(Bool(true))); }
      found := Match(Word(FALSE));
      if found { return Some(Lit(Bool(false))); }
      found := Match(Punct(OPEN));
      if found {
        if Current() == Word(SELECT) { return None; }
        r := OrLevel();
        if r.None? { return; }
        found := Match(Punct(CLOSE));
        if !found { r := None; }
        return;
      }
      if t.Word? && t.word.Function? {
        Advance();
        r := Call(t.word.name);
      } else if t.Ident? || t.Word? {
        Advance();
        r := ColumnRest(t);
      } else {
        r := None;
      }
    }

    method ColumnRest(first: Token) returns (r: Option<Expr>)
      requires Valid() && (first.Ident? || first.Word?)
      modifies this`pos
      ensures Valid() && Agrees(ParseColumn(first, old(Rest())), r, Rest())
    {
      if first.Word? && Reserved(first.word) { return None; }
      var name := if first.Word? then Spelling(first.word) else first.name;
      var found := Match(Punct(DOT));
      if !found { return Some(Col(name, None)); }
      var second := Current();
      Advance();
      if second.Ident? {
        r := Some(Col(second.name, Some(name)));
      } else if second.Word? {
        r := Some(Col(Spelling(second.word), Some(name)));
      } else {
        r := None;
      }
    }

    method Call(name: Name) returns (r: Option<Expr>)
      requires Valid()
      modifies this`pos
      ensures Valid() && Agrees(ParseFunc(name, old(Rest())), r, Rest())
      decreases |Rest()|, 11
    {
      hide Arguments;
      var found := Match(Punct(OPEN));
      if !found { return None; }
      var distinct := Match(Word(DISTINCT));
      r := CallRest(name, distinct);
    }

    method CallRest(name: Name, distinct: bool) returns (r: Option<Expr>)
      requires Valid()
      modifies this`pos
      ensures Valid() && Agrees(FuncRest(name, distinct, old(Rest())), r, Rest())
      decreases |Rest()|, 10
    {
      hide ParseOr, OrTail, ParseAnd, AndTail, ParseNot, ParseComparison, ComparisonTail, IsTail, BetweenTail,
           InTail, Items, ParseAdditive, AdditiveTail, ParseMultiplicative, MultiplicativeTail, ParseUnary,
           ParsePrimary, ParseColumn, ParseFunc, Arguments;
      ghost var start := Rest();
      var star := Match(Punct(STAR));
      var args: seq<Expr> := [];
      if !star && Current() != Punct(CLOSE) {
        var list := ArgumentList();
        if list.None? { return None; }
        args := list.value;
      }
      assert FuncRest(name, distinct, start) == Expect(Parsed(Func(name, args, distinct, star), Rest()), Punct(CLOSE));
      hide FuncRest;
      var found := Match(Punct(CLOSE));
      r := if found then Some(Func(name, args, distinct, star)) else None;
    }

    method ArgumentList() returns (r: Option<seq<Expr>>)
      requires Valid()
      modifies this`pos
      ensures Valid() && AgreesList(Arguments(old(Rest())), r, Rest())
      decreases |Rest()|, 9
    {
      ghost var ts := Rest();
      var first := OrLevel();
      if first.None? { return None; }
      var args := [first.value];
      while Current() == Punct(COMMA)
        invariant Valid() && |Rest()| < |ts|
        invariant Arguments(ts) ==
          if Current() == Punct(COMMA) then Prepended(args, Arguments(Next(Rest()))) else ParsedList(args, Rest())
        decreases |Rest()|
      {
        Advance();
        var next := OrLevel();
        if next.None? { return None; }
        PrependedTwice(args, [next.value], Arguments(Next(Rest())));
        args := args + [next.value];
      }
      r := Some(args);
    }
  }

  ghost function Prepended(es: seq<Expr>, r: ParsedList): ParsedList {
    match r case ListError => ListError case ParsedList(more, rest) => ParsedList(es + more, rest)
  }

  lemma PrependedTwice(es: seq<Expr>, fs: seq<Expr>, r: ParsedList)
    ensures Prepended(es + fs, r) == Prepended(es, Prepended(fs, r))
    ensures Prepended([], r) == r
  {
    assert r.ParsedList? ==> es + fs + r.es == es + (fs + r.es) && [] + r.es == r.es;
  }
}
