/** The grammar that the recursive descent of minidb/sql/parser.py reads, written down
    without a parser: which token sequences are phrases of which tree.  The parser reads
    exactly these. */
module Grammar {
  import opened Basics
  import opened Expressions
  import opened Parsing

  // ---- phrases ----

  /** The infix operators of a level. */
  function Infix(level: nat, t: Token): Option<BinOp> {
    if level == 1 then (if t == Word(OR) then Some(Or) else None)
    else if level == 2 then (if t == Word(AND) then Some(And) else None)
    else if level == 5 then Additive(t)
    else if level == 6 then Multiplicative(t)
    else None
  }

  /** `ts` is a phrase for the tree `e` in which the outermost operator binds at least as
      tightly as `level` (1 OR, 2 AND, 3 NOT, 4 comparison, 5 sum, 6 product, 7 sign,
      8 primary). */
  ghost predicate Phrase(level: nat, e: Expr, ts: Tokens)
    requires 1 <= level <= 8
    decreases |ts|, 20 - level
  {
    match level
    case 3 =>
      ts != [] &&
      if ts[0] == Word(NOT) then e.Un? && e.uop == Not && Phrase(3, e.operand, ts[1..]) else Phrase(4, e, ts)
    case 4 =>
      Phrase(5, e, ts) || exists i, l :: 0 < i < |ts| && Phrase(4, l, ts[..i]) && Suffix(l, e, ts[i..])
    case 7 =>
      ts != [] &&
      if ts[0] == Punct(MINUS) then e.Un? && e.uop == Neg && Phrase(7, e.operand, ts[1..])
      else if ts[0] == Punct(PLUS) then Phrase(7, e, ts[1..]) else Phrase(8, e, ts)
    case 8 => Primary(e, ts)
    case _ =>
      Phrase(level + 1, e, ts) || (e.Bin? && exists i :: InfixAt(level, e.op, e.left, e.right, ts, i))
  }

  ghost predicate InfixAt(level: nat, op: BinOp, l: Expr, r: Expr, ts: Tokens, i: int)
    requires 1 <= level <= 7
    decreases |ts|, 0
  {
    0 <= i < |ts| && Infix(level, ts[i]) == Some(op) && Phrase(level, l, ts[..i]) && Phrase(level + 1, r, ts[i + 1..])
  }

  /** What may follow the left side `l` of a comparison, and the tree it makes of it.  NOT
      turns LIKE, IN and BETWEEN around and means nothing before a sign. */
  ghost predicate Suffix(l: Expr, e: Expr, ts: Tokens)
    decreases |ts|, 10
  {
    ts != [] && if ts[0] == Word(NOT) then Operation(l, e, true, ts[1..]) else Operation(l, e, false, ts)
  }

  ghost predicate Operation(l: Expr, e: Expr, negated: bool, us: Tokens)
    decreases |us|, 9
  {
    && us != []
    && match us[0]
       case Punct(_) => Comparison(us[0]).Some? && e.Bin? && e == Bin(Comparison(us[0]).value, l, e.right) &&
                        Phrase(5, e.right, us[1..])
       case Word(LIKE) => e.Bin? && e == Bin(if negated then NotLike else Like, l, e.right) &&
                          Phrase(5, e.right, us[1..])
       case Word(IN) => exists items :: items != [] && e == Negated(Membership(l, items), negated) &&
                                        Bracketed(items, us[1..])
       case Word(BETWEEN) => exists low, high, i :: e == Negated(Bin(Between, l, Bin(And, low, high)), negated) &&
                                                    BoundsAt(low, high, us[1..], i)
       case Word(IS) => !negated && if us == [Word(IS), Word(NULL)] then e == Un(IsNull, l)
                                    else us == [Word(IS), Word(NOT), Word(NULL)] && e == Un(IsNotNull, l)
       case _ => false
  }

  ghost predicate BoundsAt(low: Expr, high: Expr, ts: Tokens, i: int)
    decreases |ts|, 0
  {
    0 <= i < |ts| && ts[i] == Word(AND) && Phrase(5, low, ts[..i]) && Phrase(5, high, ts[i + 1..])
  }

  /** Phrases of a level for the trees `es`, separated by commas. */
  ghost predicate Listed(level: nat, es: seq<Expr>, ts: Tokens)
    requires 1 <= level <= 8
    decreases |ts|, 21
  {
    && es != []
    && if |es| == 1 then Phrase(level, es[0], ts)
       else exists i :: ListedAt(level, es, ts, i)
  }

  ghost predicate ListedAt(level: nat, es: seq<Expr>, ts: Tokens, i: int)
    requires 1 <= level <= 8 && es != []
    decreases |ts|, 0
  {
    0 <= i < |ts| && ts[i] == Punct(COMMA) && Phrase(level, es[0], ts[..i]) && Listed(level, es[1..], ts[i + 1..])
  }

  ghost predicate Bracketed(items: seq<Expr>, ts: Tokens)
    decreases |ts|, 1
  {
    |ts| >= 2 && ts[0] == Punct(OPEN) && ts[|ts| - 1] == Punct(CLOSE) && Listed(5, items, ts[1..|ts| - 1])
  }

  /** Words that name a column: every keyword that is not reserved, not a literal and not a
      function. */
  predicate Names(t: Token) {
    t.Ident? || (t.Word? && !Reserved(t.word) && !t.word.Function? && t.word !in {NULL, TRUE, FALSE})
  }

  function NameOf(t: Token): Name
    requires t.Ident? || t.Word?
  {
    if t.Ident? then t.name else Spelling(t.word)
  }

  ghost predicate Primary(e: Expr, ts: Tokens)
    decreases |ts|, 11
  {
    ts != [] &&
    match ts[0]
    case Number(n) => |ts| == 1 && e == Lit(Int(n))
    case Text(s) => |ts| == 1 && e == Lit(Str(s))
    case Punct(OPEN) => |ts| >= 2 && ts[|ts| - 1] == Punct(CLOSE) && Phrase(1, e, ts[1..|ts| - 1])
    case Word(NULL) => |ts| == 1 && e == Lit(Null)
    case Word(TRUE) => |ts| == 1 && e == Lit(Bool(true))
    case Word(FALSE) => |ts| == 1 && e == Lit(Bool(false))
    case Word(Function(name)) => e.Func? && e.fname == name && Called(e, ts[1..])
    case _ =>
      Names(ts[0]) &&
      if |ts| == 1 then e == Col(NameOf(ts[0]), None)
      else |ts| == 3 && ts[1] == Punct(DOT) && (ts[2].Ident? || ts[2].Word?) &&
           e == Col(NameOf(ts[2]), Some(NameOf(ts[0])))
  }

  /** The parentheses of a call: `*`, or any number of arguments, DISTINCT in front. */
  ghost predicate Called(e: Expr, ts: Tokens)
    requires e.Func?
    decreases |ts|, 1
  {
    && |ts| >= 2 && ts[0] == Punct(OPEN) && ts[|ts| - 1] == Punct(CLOSE)
    && var inner := ts[1..|ts| - 1];
    && (e.distinct <==> inner != [] && inner[0] == Word(DISTINCT))
    && var rest := if e.distinct then inner[1..] else inner;
    && (if e.star then rest == [Punct(STAR)] && e.args == []
        else if e.args == [] then rest == [] else Listed(1, e.args, rest))
  }

  // ---- the parser, level by level ----

  lemma LevelUnfolds(level: nat, ts: Tokens)
    requires level in {1, 2, 4, 5, 6}
    ensures ParseAt(level, ts) ==
      var l := ParseAt(level + 1, ts); if l.Error? then Error else TailAt(level, l.e, l.rest)
  {
    hide OrTail, AndTail, ComparisonTail, AdditiveTail, MultiplicativeTail;
  }

  lemma TailUnfolds(level: nat, left: Expr, ts: Tokens)
    requires level in {1, 2, 5, 6}
    ensures TailAt(level, left, ts) ==
      var op := Infix(level, Cur(ts));
      if op.None? then Parsed(left, ts)
      else
        var r := ParseAt(level + 1, Next(ts));
        if r.Error? then Error else TailAt(level, Bin(op.value, left, r.e), r.rest)
  {
    hide ParseAnd, ParseNot, ParseMultiplicative, ParseUnary;
  }

  lemma PrefixUnfolds(ts: Tokens)
    ensures ParseNot(ts) ==
      if Cur(ts) == Word(NOT) then
        (var r := ParseNot(Next(ts)); if r.Error? then Error else Parsed(Un(Not, r.e), r.rest))
      else ParseComparison(ts)
    ensures ParseUnary(ts) ==
      if Cur(ts) == Punct(MINUS) then
        (var r := ParseUnary(Next(ts)); if r.Error? then Error else Parsed(Un(Neg, r.e), r.rest))
      else if Cur(ts) == Punct(PLUS) then ParseUnary(Next(ts)) else ParsePrimary(ts)
  {
    hide ParseComparison, ParsePrimary;
  }

  lemma ListUnfolds(ts: Tokens)
    ensures Items(ts) ==
      var first := ParseAdditive(ts);
      if first.Error? then ListError
      else if Cur(first.rest) != Punct(COMMA) then ParsedList([first.e], first.rest)
      else
        var more := Items(Next(first.rest));
        if more.ListError? then ListError else ParsedList([first.e] + more.es, more.rest)
    ensures Arguments(ts) ==
      var first := ParseOr(ts);
      if first.Error? then ListError
      else if Cur(first.rest) != Punct(COMMA) then ParsedList([first.e], first.rest)
      else
        var more := Arguments(Next(first.rest));
        if more.ListError? then ListError else ParsedList([first.e] + more.es, more.rest)
  {
    hide ParseAdditive, ParseOr;
  }

  // ---- what the parser reads is a phrase ----

  /** From `ts` down to `rest` a phrase for `e` has been read. */
  ghost predicate Reads(level: nat, e: Expr, ts: Tokens, rest: Tokens)
    requires 1 <= level <= 8
  {
    Leaves(ts, rest) && Phrase(level, e, Used(ts, rest))
  }

  predicate Leaves(ts: Tokens, rest: Tokens) {
    |rest| <= |ts| && ts[|ts| - |rest|..] == rest
  }

  function Used(ts: Tokens, rest: Tokens): Tokens
    requires |rest| <= |ts|
  {
    ts[..|ts| - |rest|]
  }

  lemma UsedMore(us: Tokens, ts: Tokens, rest: Tokens)
    requires Leaves(ts, rest)
    ensures Leaves(us + ts, rest) && Used(us + ts, rest) == us + Used(ts, rest) && ts == Used(ts, rest) + rest
  {
  }

  lemma {:induction false} NotEmpty(level: nat, e: Expr, ts: Tokens)
    requires 1 <= level <= 8 && Phrase(level, e, ts)
    ensures ts != []
    decreases 8 - level
  {
    if level in {1, 2, 4, 5, 6} && Phrase(level + 1, e, ts) { NotEmpty(level + 1, e, ts); }
  }

  lemma InfixGrows(level: nat, op: BinOp, left: Expr, pre: Tokens, right: Expr, ts: Tokens, rest: Tokens)
    requires level in {1, 2, 5, 6} && Phrase(level, left, pre)
    requires ts != [] && Infix(level, ts[0]) == Some(op) && Reads(level + 1, right, ts[1..], rest)
    ensures Reads(level, Bin(op, left, right), pre + ts, rest)
  {
    var used := Used(ts[1..], rest);
    var all := pre + [ts[0]] + used;
    UsedMore([ts[0]], ts[1..], rest);
    assert ts == [ts[0]] + ts[1..];
    UsedMore(pre, ts, rest);
    assert Used(pre + ts, rest) == all;
    assert all[..|pre|] == pre && all[|pre|] == ts[0] && all[|pre| + 1..] == used;
    assert InfixAt(level, op, left, right, all, |pre|);
  }

  lemma NextIs(ts: Tokens)
    requires Cur(ts) != Eof
    ensures ts != [] && Cur(ts) == ts[0] && Next(ts) == ts[1..] && ts == [ts[0]] + ts[1..]
  {
  }

  lemma NothingUsed(pre: Tokens, ts: Tokens)
    ensures Leaves(pre + ts, ts) && Used(pre + ts, ts) == pre
  {
  }

  lemma LeftShorter(ts: Tokens, rest: Tokens)
    requires Leaves(ts, rest)
    ensures |rest| <= |ts| && Used(ts, rest) + rest == ts
  {
  }

  lemma InfixToken(level: nat, ts: Tokens)
    ensures Infix(level, Cur(ts)).Some? ==> Cur(ts) != Eof
  {
  }

  lemma {:induction false} TailReads(level: nat, left: Expr, pre: Tokens, ts: Tokens)
    requires level in {1, 2, 5, 6} && Phrase(level, left, pre)
    ensures var r := TailAt(level, left, ts); r.Parsed? ==> Reads(level, r.e, pre + ts, r.rest)
    decreases |ts|, 0
  {
    hide ParseAt, TailAt, Phrase, Infix, Leaves, Used, Cur, Next;
    TailUnfolds(level, left, ts);
    var op := Infix(level, Cur(ts));
    if op.None? {
      NothingUsed(pre, ts);
    } else {
      InfixToken(level, ts);
      NextIs(ts);
      var r := ParseAt(level + 1, Next(ts));
      if r.Parsed? {
        LevelReads(level + 1, Next(ts));
        LeftShorter(Next(ts), r.rest);
        InfixGrows(level, op.value, left, pre, r.e, ts, r.rest);
        LeftShorter(pre + ts, r.rest);
        TailReads(level, Bin(op.value, left, r.e), Used(pre + ts, r.rest), r.rest);
      }
    }
  }

  lemma PhraseUp(level: nat, e: Expr, ts: Tokens)
    requires level in {1, 2, 4, 5, 6} && Phrase(level + 1, e, ts)
    ensures Phrase(level, e, ts)
  {
  }

  lemma SignPhrase(level: nat, e: Expr, ts: Tokens, rest: Tokens)
    requires (level == 3 || level == 7) && Cur(ts) != Eof && Reads(level, e, Next(ts), rest)
    ensures level == 3 && Cur(ts) == Word(NOT) ==> Reads(3, Un(Not, e), ts, rest)
    ensures level == 7 && Cur(ts) == Punct(MINUS) ==> Reads(7, Un(Neg, e), ts, rest)
    ensures level == 7 && Cur(ts) == Punct(PLUS) ==> Reads(7, e, ts, rest)
  {
    UsedMore([ts[0]], ts[1..], rest);
    assert ts == [ts[0]] + ts[1..];
    var all := [ts[0]] + Used(ts[1..], rest);
    assert all[1..] == Used(ts[1..], rest);
  }

  lemma BarePhrase(level: nat, e: Expr, ts: Tokens, rest: Tokens)
    requires (level == 3 || level == 7) && Reads(level + 1, e, ts, rest)
    requires Cur(ts) != if level == 3 then Word(NOT) else Punct(MINUS)
    requires level == 7 ==> Cur(ts) != Punct(PLUS)
    ensures Reads(level, e, ts, rest)
  {
    var used := Used(ts, rest);
    NotEmpty(level + 1, e, used);
    assert used[0] == ts[0];
  }

  lemma {:induction false} LevelReads(level: nat, ts: Tokens)
    requires 1 <= level <= 8
    ensures var r := ParseAt(level, ts); r.Parsed? ==> Reads(level, r.e, ts, r.rest)
    decreases |ts|, 40 - 2 * level
  {
    if level == 8 {
      PrimaryReads(ts);
    } else if level == 3 || level == 7 {
      PrefixReads(level, ts);
    } else {
      hide Phrase, Reads, Leaves, Used, TailAt;
      LevelUnfolds(level, ts);
      LevelReads(level + 1, ts);
      var l := ParseAt(level + 1, ts);
      hide ParseAt;
      if l.Parsed? {
        LoopStarts(level, l.e, ts, l.rest);
        if level == 4 {
          ComparisonReads(l.e, Used(ts, l.rest), l.rest);
        } else {
          TailReads(level, l.e, Used(ts, l.rest), l.rest);
        }
      }
    }
  }

  lemma LoopStarts(level: nat, e: Expr, ts: Tokens, rest: Tokens)
    requires level in {1, 2, 4, 5, 6} && Reads(level + 1, e, ts, rest)
    ensures |rest| < |ts| && Phrase(level, e, Used(ts, rest)) && Used(ts, rest) + rest == ts
  {
    PhraseUp(level, e, Used(ts, rest));
    NotEmpty(level, e, Used(ts, rest));
    LeftShorter(ts, rest);
  }

  lemma {:induction false} PrefixReads(level: nat, ts: Tokens)
    requires level == 3 || level == 7
    ensures var r := ParseAt(level, ts); r.Parsed? ==> Reads(level, r.e, ts, r.rest)
    decreases |ts|, 39 - 2 * level
  {
    PrefixUnfolds(ts);
    hide Reads, ParseNot, ParseUnary;
    if Cur(ts) == (if level == 3 then Word(NOT) else Punct(MINUS)) || (level == 7 && Cur(ts) == Punct(PLUS)) {
      NextIs(ts);
      LevelReads(level, Next(ts));
      var r := ParseAt(level, Next(ts));
      if r.Parsed? { SignPhrase(level, r.e, ts, r.rest); }
    } else {
      LevelReads(level + 1, ts);
      var r := ParseAt(level + 1, ts);
      if r.Parsed? { BarePhrase(level, r.e, ts, r.rest); }
    }
  }

  // ---- lists ----

  function ListAt(level: nat, ts: Tokens): ParsedList {
    if level == 1 then Arguments(ts) else Items(ts)
  }

  lemma {:induction false} ListReads(level: nat, ts: Tokens)
    requires level == 1 || level == 5
    ensures var r := ListAt(level, ts);
      r.ParsedList? ==> Leaves(ts, r.rest) && |r.rest| < |ts| && Listed(level, r.es, Used(ts, r.rest))
    decreases |ts|, 50
  {
    ListUnfolds(ts);
    LevelReads(level, ts);
    hide Items, Arguments, Phrase;
    var first := ParseAt(level, ts);
    if first.Parsed? {
      var used := Used(ts, first.rest);
      NotEmpty(level, first.e, used);
      assert used + first.rest == ts;
      if Cur(first.rest) == Punct(COMMA) {
        NextIs(first.rest);
        ListReads(level, Next(first.rest));
        var more := ListAt(level, Next(first.rest));
        if more.ParsedList? { ListGrows(level, first.e, used, more.es, first.rest, more.rest); }
      }
    }
  }

  lemma ListGrows(level: nat, e: Expr, pre: Tokens, es: seq<Expr>, ts: Tokens, rest: Tokens)
    requires 1 <= level <= 8 && Phrase(level, e, pre) && ts != [] && ts[0] == Punct(COMMA)
    requires Leaves(ts[1..], rest) && Listed(level, es, Used(ts[1..], rest))
    ensures Leaves(pre + ts, rest) && Listed(level, [e] + es, Used(pre + ts, rest))
  {
    var used, all := Used(ts[1..], rest), Used(pre + ts, rest);
    UsedMore([ts[0]], ts[1..], rest);
    assert ts == [ts[0]] + ts[1..];
    UsedMore(pre, ts, rest);
    assert all == pre + ([ts[0]] + used);
    assert all[..|pre|] == pre && all[|pre|] == ts[0] && all[|pre| + 1..] == used;
    assert ([e] + es)[1..] == es;
    assert ListedAt(level, [e] + es, all, |pre|);
  }

  /** Something between parentheses. */
  lemma InParentheses(ts: Tokens, mid: Tokens)
    requires ts != [] && ts[0] == Punct(OPEN) && Leaves(ts[1..], mid) && mid != [] && mid[0] == Punct(CLOSE)
    ensures var all := Used(ts, mid[1..]);
      && Leaves(ts, mid[1..]) && |all| >= 2 && all[0] == Punct(OPEN) && all[|all| - 1] == Punct(CLOSE)
      && all[1..|all| - 1] == Used(ts[1..], mid)
  {
    var inner := Used(ts[1..], mid);
    assert ts == [ts[0]] + inner + [mid[0]] + mid[1..];
    assert Used(ts, mid[1..]) == [ts[0]] + inner + [mid[0]];
  }

  // ---- comparisons ----

  lemma {:induction false} ComparisonReads(left: Expr, pre: Tokens, ts: Tokens)
    requires Phrase(4, left, pre)
    ensures var r := ComparisonTail(left, ts); r.Parsed? ==> Reads(4, r.e, pre + ts, r.rest)
    decreases |ts|, 70
  {
    hide ComparisonTail, ComparisonOp, Phrase, Leaves, Used, Operation;
    ComparisonTurns(left, ts);
    var negated := Cur(ts) == Word(NOT);
    var us := if negated then Next(ts) else ts;
    var op := ComparisonOp(left, negated, us);
    if op.None? {
      NothingUsed(pre, ts);
    } else if op.value.Parsed? {
      var e, rest := op.value.e, op.value.rest;
      OperationReads(left, negated, us);
      SuffixReads(left, e, ts, rest);
      SuffixGrows(left, pre, e, ts, rest);
      LeftShorter(pre + ts, rest);
      ComparisonReads(e, Used(pre + ts, rest), rest);
    }
  }

  lemma SuffixReads(left: Expr, e: Expr, ts: Tokens, rest: Tokens)
    requires var negated := Cur(ts) == Word(NOT); var us := if negated then Next(ts) else ts;
      Leaves(us, rest) && |rest| < |us| && Operation(left, e, negated, Used(us, rest))
    ensures Leaves(ts, rest) && |rest| < |ts| && Suffix(left, e, Used(ts, rest))
  {
    hide Operation;
    if Cur(ts) == Word(NOT) {
      UsedMore([ts[0]], ts[1..], rest);
      assert ts == [ts[0]] + ts[1..];
      assert Used(ts, rest)[1..] == Used(ts[1..], rest);
    }
  }

  lemma SuffixGrows(left: Expr, pre: Tokens, e: Expr, ts: Tokens, rest: Tokens)
    requires Phrase(4, left, pre) && Leaves(ts, rest) && |rest| < |ts| && Suffix(left, e, Used(ts, rest))
    ensures Reads(4, e, pre + ts, rest)
  {
    UsedMore(pre, ts, rest);
    SuffixMakes(left, pre, e, Used(ts, rest));
  }

  /** From `us` down to `rest` an operation on `left` has been read. */
  ghost predicate Operates(left: Expr, e: Expr, negated: bool, us: Tokens, rest: Tokens) {
    Leaves(us, rest) && |rest| < |us| && Operation(left, e, negated, Used(us, rest))
  }

  lemma OneMore(us: Tokens, rest: Tokens)
    requires us != [] && Leaves(us[1..], rest)
    ensures Leaves(us, rest) && |rest| < |us| && Used(us, rest) == [us[0]] + Used(us[1..], rest)
    ensures Used(us, rest)[0] == us[0] && Used(us, rest)[1..] == Used(us[1..], rest)
  {
    UsedMore([us[0]], us[1..], rest);
    assert us == [us[0]] + us[1..];
  }

  lemma SignOperates(left: Expr, negated: bool, us: Tokens, r: Expr, rest: Tokens)
    requires us != [] && Reads(5, r, us[1..], rest)
    ensures Comparison(us[0]).Some? ==> Operates(left, Bin(Comparison(us[0]).value, left, r), negated, us, rest)
    ensures us[0] == Word(LIKE) ==> Operates(left, Bin(if negated then NotLike else Like, left, r), negated, us, rest)
  {
    OneMore(us, rest);
  }

  lemma InOperates(left: Expr, negated: bool, us: Tokens, items: seq<Expr>, mid: Tokens)
    requires |us| >= 2 && us[0] == Word(IN) && us[1] == Punct(OPEN) && mid != [] && mid[0] == Punct(CLOSE)
    requires items != [] && Leaves(us[2..], mid) && Listed(5, items, Used(us[2..], mid))
    ensures Operates(left, Negated(Membership(left, items), negated), negated, us, mid[1..])
  {
    var vs := us[1..];
    assert vs[1..] == us[2..];
    InParentheses(vs, mid);
    OneMore(us, mid[1..]);
    assert Bracketed(items, Used(vs, mid[1..]));
  }

  lemma BetweenOperates(left: Expr, negated: bool, us: Tokens, low: Expr, mid: Tokens, high: Expr, rest: Tokens)
    requires us != [] && us[0] == Word(BETWEEN) && mid != [] && mid[0] == Word(AND)
    requires Reads(5, low, us[1..], mid) && Reads(5, high, mid[1..], rest)
    ensures Operates(left, Negated(Bin(Between, left, Bin(And, low, high)), negated), negated, us, rest)
  {
    var first, second := Used(us[1..], mid), Used(mid[1..], rest);
    LeftShorter(us[1..], mid);
    OneMore(mid, rest);
    UsedMore(first, mid, rest);
    assert first + mid == us[1..];
    OneMore(us, rest);
    var all := Used(us[1..], rest);
    assert all == first + ([mid[0]] + second);
    assert all[..|first|] == first && all[|first|] == Word(AND) && all[|first| + 1..] == second;
    assert BoundsAt(low, high, all, |first|);
  }

  lemma IsOperates(left: Expr, us: Tokens)
    requires us != [] && us[0] == Word(IS)
    ensures var r := IsTail(left, us[1..]); r.Parsed? ==> Operates(left, r.e, false, us, r.rest)
  {
    var vs := us[1..];
    if Cur(vs) == Word(NOT) {
      if Cur(Next(vs)) == Word(NULL) {
        assert us == [Word(IS), Word(NOT), Word(NULL)] + us[3..];
        assert Used(us, us[3..]) == [Word(IS), Word(NOT), Word(NULL)];
      }
    } else if Cur(vs) == Word(NULL) {
      assert us == [Word(IS), Word(NULL)] + us[2..];
      assert Used(us, us[2..]) == [Word(IS), Word(NULL)];
    }
  }

  lemma {:induction false} OperationReads(left: Expr, negated: bool, us: Tokens)
    ensures var op := ComparisonOp(left, negated, us);
      op.Some? && op.value.Parsed? ==> Operates(left, op.value.e, negated, us, op.value.rest)
    decreases |us|, 60
  {
    hide Operates, Leaves, Used, Reads, ParseAdditive, InTail, BetweenTail, IsTail, Items;
    if ComparisonOp(left, negated, us).Some? {
      NextIs(us);
      if Comparison(us[0]).Some? || us[0] == Word(LIKE) {
        LevelReads(5, us[1..]);
        var r := ParseAdditive(us[1..]);
        if r.Parsed? { SignOperates(left, negated, us, r.e, r.rest); }
      } else if us[0] == Word(IN) {
        InReads(left, negated, us);
      } else if us[0] == Word(BETWEEN) {
        BetweenReads(left, negated, us);
      } else {
        IsOperates(left, us);
      }
    }
  }

  lemma {:induction false} InReads(left: Expr, negated: bool, us: Tokens)
    requires us != [] && us[0] == Word(IN)
    ensures var r := InTail(left, negated, us[1..]); r.Parsed? ==> Operates(left, r.e, negated, us, r.rest)
    decreases |us|, 59
  {
    hide Operates, Leaves, Used, Items;
    var vs := us[1..];
    if Cur(vs) == Punct(OPEN) && Cur(Next(vs)) != Word(SELECT) {
      NextIs(vs);
      assert vs[1..] == us[2..];
      ListReads(5, us[2..]);
      var items := Items(us[2..]);
      if items.ParsedList? && Cur(items.rest) == Punct(CLOSE) {
        NextIs(items.rest);
        InOperates(left, negated, us, items.es, items.rest);
      }
    }
  }

  lemma {:induction false} BetweenReads(left: Expr, negated: bool, us: Tokens)
    requires us != [] && us[0] == Word(BETWEEN)
    ensures var r := BetweenTail(left, negated, us[1..]); r.Parsed? ==> Operates(left, r.e, negated, us, r.rest)
    decreases |us|, 59
  {
    hide Operates, Used, Phrase, ParseAdditive;
    LevelReads(5, us[1..]);
    var low := ParseAdditive(us[1..]);
    if low.Parsed? && Cur(low.rest) == Word(AND) {
      NextIs(low.rest);
      LevelReads(5, low.rest[1..]);
      var high := ParseAdditive(low.rest[1..]);
      if high.Parsed? { BetweenOperates(left, negated, us, low.e, low.rest, high.e, high.rest); }
    }
  }

  // ---- primaries ----

  lemma {:induction false} PrimaryReads(ts: Tokens)
    ensures var r := ParsePrimary(ts); r.Parsed? ==> Reads(8, r.e, ts, r.rest)
    decreases |ts|, 1
  {
    var t := Cur(ts);
    hide ParseOr, ParseFunc, ParseColumn, Phrase;
    if t == Punct(OPEN) {
      NextIs(ts);
      LevelReads(1, ts[1..]);
      var r := ParseOr(ts[1..]);
      if r.Parsed? && Cur(r.rest) == Punct(CLOSE) { ParenthesesRead(ts, r.e, r.rest); }
    } else if t.Word? && t.word.Function? {
      NextIs(ts);
      CallReads(ts, t.word.name);
    } else {
      SimpleReads(ts);
    }
  }

  lemma ParenthesesRead(ts: Tokens, e: Expr, mid: Tokens)
    requires ts != [] && ts[0] == Punct(OPEN) && Reads(1, e, ts[1..], mid) && Cur(mid) == Punct(CLOSE)
    ensures Reads(8, e, ts, Next(mid))
  {
    InParentheses(ts, mid);
    assert Primary(e, Used(ts, Next(mid)));
  }

  lemma SimpleReads(ts: Tokens)
    requires Cur(ts) != Punct(OPEN) && !(Cur(ts).Word? && Cur(ts).word.Function?)
    ensures var r := ParsePrimary(ts); r.Parsed? ==> Reads(8, r.e, ts, r.rest)
  {
    hide ParseOr, ParseFunc, ParseColumn, Phrase, Primary;
    var r := ParsePrimary(ts);
    if r.Parsed? {
      NextIs(ts);
      if Names(ts[0]) {
        ColumnReads(ts);
      } else {
        LiteralReads(ts);
      }
      IsPhrase(r.e, Used(ts, r.rest));
    }
  }

  function LiteralOf(t: Token): Option<Expr> {
    if t.Number? then Some(Lit(Int(t.value)))
    else if t.Text? then Some(Lit(Str(t.text)))
    else if t == Word(NULL) then Some(Lit(Null))
    else if t == Word(TRUE) then Some(Lit(Bool(true)))
    else if t == Word(FALSE) then Some(Lit(Bool(false)))
    else None
  }

  lemma LiteralParses(ts: Tokens)
    requires ts != [] && LiteralOf(ts[0]).Some?
    ensures ParsePrimary(ts) == Parsed(LiteralOf(ts[0]).value, ts[1..]) && Primary(LiteralOf(ts[0]).value, [ts[0]])
  {
    hide ParseOr, ParseFunc, ParseColumn, Phrase, Called;
  }

  lemma NeitherParses(ts: Tokens)
    requires ts != [] && LiteralOf(ts[0]).None? && ts[0] != Punct(OPEN) && !Names(ts[0])
    requires !(ts[0].Word? && ts[0].word.Function?)
    ensures ParsePrimary(ts) == Error
  {
    hide ParseOr, ParseFunc;
  }

  lemma LiteralReads(ts: Tokens)
    requires ts != [] && ts[0] != Punct(OPEN) && !Names(ts[0]) && !(ts[0].Word? && ts[0].word.Function?)
    requires ParsePrimary(ts).Parsed?
    ensures var r := ParsePrimary(ts); Leaves(ts, r.rest) && Primary(r.e, Used(ts, r.rest))
  {
    hide ParsePrimary, Primary, Names;
    if LiteralOf(ts[0]).None? {
      NeitherParses(ts);
    } else {
      LiteralParses(ts);
      assert Used(ts, ts[1..]) == [ts[0]];
    }
  }

  lemma ColumnReads(ts: Tokens)
    requires ts != [] && Names(ts[0]) && ParsePrimary(ts).Parsed?
    ensures var r := ParsePrimary(ts); Leaves(ts, r.rest) && Primary(r.e, Used(ts, r.rest))
  {
    var us := ts[1..];
    NameParses(ts);
    hide ParsePrimary, Primary, Names;
    if Cur(us) == Punct(DOT) {
      NextIs(us);
      NextIs(us[1..]);
      assert Used(ts, ts[3..]) == [ts[0], ts[1], ts[2]];
      ColumnIsPrimary([ts[0], ts[1], ts[2]]);
    } else {
      assert Used(ts, us) == [ts[0]];
      ColumnIsPrimary([ts[0]]);
    }
  }

  lemma NameParses(ts: Tokens)
    requires ts != [] && Names(ts[0])
    ensures ParsePrimary(ts) == ParseColumn(ts[0], ts[1..])
  {
    hide ParseOr, ParseFunc, ParseColumn;
  }

  lemma ColumnIsPrimary(ts: Tokens)
    requires ts != [] && Names(ts[0])
    ensures |ts| == 1 ==> Primary(Col(NameOf(ts[0]), None), ts)
    ensures |ts| == 3 && ts[1] == Punct(DOT) && (ts[2].Ident? || ts[2].Word?) ==>
              Primary(Col(NameOf(ts[2]), Some(NameOf(ts[0]))), ts)
  {
  }

  lemma {:induction false} CallReads(ts: Tokens, name: Name)
    requires ts != [] && ts[0] == Word(Function(name))
    ensures var r := ParseFunc(name, ts[1..]); r.Parsed? ==> Reads(8, r.e, ts, r.rest)
    decreases |ts|, 0
  {
    hide FuncRest, Reads;
    var vs := ts[1..];
    if Cur(vs) == Punct(OPEN) {
      NextIs(vs);
      var us := vs[1..];
      assert us == ts[2..];
      if Cur(us) == Word(DISTINCT) { NextIs(us); }
      CallRestReads(ts, name, Cur(us) == Word(DISTINCT));
    }
  }

  /** After the opening parenthesis and perhaps DISTINCT. */
  lemma {:induction false} CallRestReads(ts: Tokens, name: Name, distinct: bool)
    requires |ts| >= 2 && ts[0] == Word(Function(name)) && ts[1] == Punct(OPEN)
    requires distinct <==> Cur(ts[2..]) == Word(DISTINCT)
    ensures var r := FuncRest(name, distinct, if distinct then ts[3..] else ts[2..]);
      r.Parsed? ==> Reads(8, r.e, ts, r.rest)
    decreases |ts| - 1, 70
  {
    hide Reads, Arguments, Listed;
    var us := if distinct then ts[3..] else ts[2..];
    if Cur(us) == Punct(STAR) {
      NextIs(us);
      if Cur(us[1..]) == Punct(CLOSE) {
        assert Used(us, us[1..]) == [Punct(STAR)];
        CallRead(ts, Func(name, [], distinct, true), us[1..]);
      }
    } else if Cur(us) == Punct(CLOSE) {
      assert Used(us, us) == [];
      CallRead(ts, Func(name, [], distinct, false), us);
    } else {
      ListReads(1, us);
      var args := Arguments(us);
      if args.ParsedList? && Cur(args.rest) == Punct(CLOSE) {
        CallRead(ts, Func(name, args.es, distinct, false), args.rest);
      }
    }
  }

  lemma CallRead(ts: Tokens, e: Expr, mid: Tokens)
    requires |ts| >= 2 && e.Func? && ts[0] == Word(Function(e.fname)) && ts[1] == Punct(OPEN)
    requires e.distinct <==> Cur(ts[2..]) == Word(DISTINCT)
    requires var us := if e.distinct then ts[3..] else ts[2..];
      && Leaves(us, mid) && Cur(mid) == Punct(CLOSE)
      && if e.star then Used(us, mid) == [Punct(STAR)] && e.args == []
         else if e.args == [] then Used(us, mid) == [] else Listed(1, e.args, Used(us, mid))
    ensures Reads(8, e, ts, Next(mid))
  {
    var vs := ts[1..];
    assert vs[1..] == ts[2..];
    hide Listed, Called, Phrase;
    InsideRead(e, ts[2..], mid);
    InParentheses(vs, mid);
    CalledBy(e, Used(vs, Next(mid)));
    OneMore(ts, Next(mid));
    CallIsPrimary(e, Used(ts, Next(mid)));
    IsPhrase(e, Used(ts, Next(mid)));
  }

  lemma IsPhrase(e: Expr, ts: Tokens)
    requires Primary(e, ts)
    ensures Phrase(8, e, ts)
  {
  }

  lemma CallIsPrimary(e: Expr, ts: Tokens)
    requires ts != [] && e.Func? && ts[0] == Word(Function(e.fname)) && Called(e, ts[1..])
    ensures Primary(e, ts)
  {
    hide Called;
  }

  /** What stands between the parentheses of a call. */
  ghost predicate Inner(e: Expr, inner: Tokens)
    requires e.Func?
  {
    && (e.distinct <==> inner != [] && inner[0] == Word(DISTINCT))
    && var rest := if e.distinct then inner[1..] else inner;
    && (if e.star then rest == [Punct(STAR)] && e.args == []
        else if e.args == [] then rest == [] else Listed(1, e.args, rest))
  }

  lemma CalledBy(e: Expr, ts: Tokens)
    requires e.Func? && |ts| >= 2 && ts[0] == Punct(OPEN) && ts[|ts| - 1] == Punct(CLOSE)
    ensures Called(e, ts) <==> Inner(e, ts[1..|ts| - 1])
  {
    hide Listed;
  }

  lemma InsideRead(e: Expr, vs: Tokens, mid: Tokens)
    requires e.Func? && Cur(mid) == Punct(CLOSE) && (e.distinct <==> Cur(vs) == Word(DISTINCT))
    requires var us := if e.distinct then vs[1..] else vs;
      && Leaves(us, mid)
      && if e.star then Used(us, mid) == [Punct(STAR)] && e.args == []
         else if e.args == [] then Used(us, mid) == [] else Listed(1, e.args, Used(us, mid))
    ensures Leaves(vs, mid) && Inner(e, Used(vs, mid))
  {
    hide Listed;
    if e.distinct { OneMore(vs, mid); }
    assert Used(vs, mid) != [] ==> Used(vs, mid)[0] == vs[0];
  }

  // ---- every phrase is read ----

  /** How a phrase may begin. */
  predicate Starts(t: Token) {
    || t.Number? || t.Text? || Names(t)
    || t in {Punct(OPEN), Punct(MINUS), Punct(PLUS), Word(NULL), Word(TRUE), Word(FALSE)}
    || (t.Word? && t.word.Function?)
  }

  lemma {:induction false} PhraseStarts(level: nat, e: Expr, ts: Tokens)
    requires 1 <= level <= 8 && Phrase(level, e, ts)
    ensures ts != [] && (Starts(ts[0]) || ts[0] == Word(NOT))
    decreases |ts|, 8 - level
  {
    NotEmpty(level, e, ts);
    if level == 3 {
      if ts[0] != Word(NOT) { PhraseStarts(4, e, ts); }
    } else if level == 7 {
      if ts[0] != Punct(MINUS) && ts[0] != Punct(PLUS) { PhraseStarts(8, e, ts); }
    } else if level == 8 {
      assert Primary(e, ts);
    } else if level in {1, 2, 4, 5, 6} {
      if Phrase(level + 1, e, ts) {
        PhraseStarts(level + 1, e, ts);
      } else if level == 4 {
        var i, l :| 0 < i < |ts| && Phrase(4, l, ts[..i]) && Suffix(l, e, ts[i..]);
        PhraseStarts(4, l, ts[..i]);
      } else {
        var i :| InfixAt(level, e.op, e.left, e.right, ts, i);
        PhraseStarts(level, e.left, ts[..i]);
      }
    }
  }

  lemma InfixStops(level: nat, ts: Tokens)
    requires level in {1, 2, 5, 6} && ts != [] && Infix(level, ts[0]).Some?
    ensures Stops(ts, level + 1)
  {
  }

  lemma Cut(ts: Tokens, i: nat, rest: Tokens)
    requires i < |ts|
    ensures ts + rest == ts[..i] + (ts[i..] + rest)
    ensures ts[i] != Eof ==> Cur(ts[i..] + rest) == ts[i] && Next(ts[i..] + rest) == ts[i + 1..] + rest
  {
  }

  lemma StopsMore(level: nat, rest: Tokens)
    requires Stops(rest, level)
    ensures Stops(rest, level + 1)
  {
  }

  /** Reading a phrase and going on is going on with its tree. */
  lemma {:induction false} Parses(level: nat, e: Expr, ts: Tokens, rest: Tokens)
    requires 1 <= level <= 8 && Phrase(level, e, ts) && Stops(rest, level + 1)
    ensures ParseAt(level, ts + rest) == TailAt(level, e, rest)
    decreases |ts|, 40 - 2 * level
  {
    StopsMore(level + 1, rest);
    if level == 8 {
      PrimaryParses(e, ts, rest);
    } else if level == 3 || level == 7 {
      PrefixParses(level, e, ts, rest);
    } else if Phrase(level + 1, e, ts) {
      hide Phrase, Stops, TailAt, ParseAt;
      Parses(level + 1, e, ts, rest);
      TailStops(level + 1, e, rest);
      LevelUnfolds(level, ts + rest);
    } else if level == 4 {
      var i, l :| 0 < i < |ts| && Phrase(4, l, ts[..i]) && Suffix(l, e, ts[i..]);
      hide Phrase, Stops, ParseAt;
      SuffixStops(l, e, ts[i..], rest);
      Parses(4, l, ts[..i], ts[i..] + rest);
      Cut(ts, i, rest);
      SuffixParses(l, e, ts[i..], rest);
    } else {
      var i :| InfixAt(level, e.op, e.left, e.right, ts, i);
      InfixParses(level, e.op, e.left, e.right, ts, i, rest);
    }
  }

  lemma {:induction false} InfixParses(level: nat, op: BinOp, l: Expr, r: Expr, ts: Tokens, i: nat, rest: Tokens)
    requires level in {1, 2, 5, 6} && InfixAt(level, op, l, r, ts, i)
    requires Stops(rest, level + 1)
    ensures ParseAt(level, ts + rest) == TailAt(level, Bin(op, l, r), rest)
    decreases |ts|, 20
  {
    InfixToken(level, ts[i..]);
    StopsMore(level + 1, rest);
    Cut(ts, i, rest);
    InfixStops(level, ts[i..] + rest);
    hide Phrase, Stops, TailAt, ParseAt;
    Parses(level, l, ts[..i], ts[i..] + rest);
    TailUnfolds(level, l, ts[i..] + rest);
    Parses(level + 1, r, ts[i + 1..], rest);
    TailStops(level + 1, r, rest);
  }

  lemma {:induction false} PrefixParses(level: nat, e: Expr, ts: Tokens, rest: Tokens)
    requires (level == 3 || level == 7) && Phrase(level, e, ts) && Stops(rest, level + 1)
    ensures ParseAt(level, ts + rest) == Parsed(e, rest)
    decreases |ts|, 39 - 2 * level
  {
    StopsMore(level + 1, rest);
    PrefixUnfolds(ts + rest);
    hide Stops, ParseNot, ParseUnary;
    Cut(ts, 0, rest);
    assert ts[0..] == ts;
    if ts[0] == (if level == 3 then Word(NOT) else Punct(MINUS)) {
      Parses(level, e.operand, ts[1..], rest);
    } else if level == 7 && ts[0] == Punct(PLUS) {
      Parses(level, e, ts[1..], rest);
    } else {
      Parses(level + 1, e, ts, rest);
      TailStops(level + 1, e, rest);
    }
  }

  lemma SuffixStops(l: Expr, e: Expr, ts: Tokens, rest: Tokens)
    requires Suffix(l, e, ts)
    ensures ts != [] && Stops(ts + rest, 5)
  {
  }

  lemma {:induction false} SuffixParses(l: Expr, e: Expr, ts: Tokens, rest: Tokens)
    requires Suffix(l, e, ts) && Stops(rest, 5)
    ensures ComparisonTail(l, ts + rest) == ComparisonTail(e, rest)
    decreases |ts|, 61
  {
    hide ComparisonTail, ComparisonOp, Operation, Stops;
    Cut(ts, 0, rest);
    assert ts[0..] == ts;
    ComparisonTurns(l, ts + rest);
    var negated := ts[0] == Word(NOT);
    OperationParses(l, e, negated, if negated then ts[1..] else ts, rest);
    OperationToken(l, e, ts);
  }

  lemma OperationToken(l: Expr, e: Expr, ts: Tokens)
    requires Suffix(l, e, ts)
    ensures ts[0] != Eof
  {
  }

  lemma {:induction false} OperationParses(l: Expr, e: Expr, negated: bool, us: Tokens, rest: Tokens)
    requires Operation(l, e, negated, us) && Stops(rest, 5)
    ensures ComparisonOp(l, negated, us + rest) == Some(Parsed(e, rest))
    decreases |us|, 60
  {
    Cut(us, 0, rest);
    assert us[0..] == us;
    OperationIs(l, e, negated, us);
    OperatorUnfolds(l, negated, us + rest);
    hide ComparisonOp, Comparison, Operation, ParseAdditive, InTail, BetweenTail, IsTail, Stops, Phrase, Bracketed,
         BoundsAt;
    if us[0].Punct? || us[0] == Word(LIKE) {
      AdditiveParses(e.right, us[1..], rest);
    } else if us[0] == Word(IN) {
      var items :| items != [] && e == Negated(Membership(l, items), negated) && Bracketed(items, us[1..]);
      BracketsParse(l, items, negated, us[1..], rest);
    } else if us[0] == Word(BETWEEN) {
      var low, high, i :| e == Negated(Bin(Between, l, Bin(And, low, high)), negated) &&
                          BoundsAt(low, high, us[1..], i);
      BoundsParse(l, low, high, negated, us[1..], i, rest);
    } else {
      IsReads(l, e, us, rest);
    }
  }

  lemma OperatorUnfolds(l: Expr, negated: bool, us: Tokens)
    ensures var t, op := Cur(us), ComparisonOp(l, negated, us);
      && (t.Punct? && Comparison(t).Some? ==>
            op == Some(Compared(Comparison(t).value, l, ParseAdditive(Next(us)))))
      && (t == Word(LIKE) ==>
            op == Some(Compared(if negated then NotLike else Like, l, ParseAdditive(Next(us)))))
      && (t == Word(IN) ==> op == Some(InTail(l, negated, Next(us))))
      && (t == Word(BETWEEN) ==> op == Some(BetweenTail(l, negated, Next(us))))
      && (t == Word(IS) && !negated ==> op == Some(IsTail(l, Next(us))))
  {
    hide ParseAdditive, InTail, BetweenTail, IsTail, Compared;
  }

  /** The operations one by one. */
  lemma OperationIs(l: Expr, e: Expr, negated: bool, us: Tokens)
    requires Operation(l, e, negated, us)
    ensures us != [] && us[0] != Eof
    ensures us[0].Punct? || us[0] == Word(LIKE) ==> e.Bin? && Phrase(5, e.right, us[1..])
    ensures us[0].Punct? ==> Comparison(us[0]).Some? && e == Bin(Comparison(us[0]).value, l, e.right)
    ensures us[0] == Word(LIKE) ==> e == Bin(if negated then NotLike else Like, l, e.right)
    ensures us[0] == Word(IN) ==>
              exists items :: items != [] && e == Negated(Membership(l, items), negated) && Bracketed(items, us[1..])
    ensures us[0] == Word(BETWEEN) ==>
              exists low, high, i :: e == Negated(Bin(Between, l, Bin(And, low, high)), negated) &&
                                     BoundsAt(low, high, us[1..], i)
    ensures !us[0].Punct? && us[0] !in {Word(LIKE), Word(IN), Word(BETWEEN)} ==>
              && us[0] == Word(IS) && !negated
              && ((us == [Word(IS), Word(NULL)] && e == Un(IsNull, l))
                  || (us == [Word(IS), Word(NOT), Word(NULL)] && e == Un(IsNotNull, l)))
  {
    hide Phrase, Bracketed, BoundsAt, Comparison;
  }

  lemma {:induction false} AdditiveParses(e: Expr, ts: Tokens, rest: Tokens)
    requires Phrase(5, e, ts) && Stops(rest, 5)
    ensures ParseAdditive(ts + rest) == Parsed(e, rest)
    decreases |ts|, 41
  {
    StopsMore(5, rest);
    Parses(5, e, ts, rest);
    TailStops(5, e, rest);
  }

  lemma IsReads(l: Expr, e: Expr, us: Tokens, rest: Tokens)
    requires (us == [Word(IS), Word(NULL)] && e == Un(IsNull, l))
             || (us == [Word(IS), Word(NOT), Word(NULL)] && e == Un(IsNotNull, l))
    ensures IsTail(l, us[1..] + rest) == Parsed(e, rest)
  {
    var ws := [Word(NULL)] + rest;
    ConsRead(Word(NULL), rest);
    ConsRead(Word(NOT), ws);
    assert us[1..] + rest == if |us| == 2 then ws else [Word(NOT)] + ws;
  }

  lemma {:induction false} BoundsParse(l: Expr, low: Expr, high: Expr, negated: bool, ts: Tokens, i: int, rest: Tokens)
    requires BoundsAt(low, high, ts, i) && Stops(rest, 5)
    ensures BetweenTail(l, negated, ts + rest) == Parsed(Negated(Bin(Between, l, Bin(And, low, high)), negated), rest)
    decreases |ts|, 59
  {
    var vs := ts[i..] + rest;
    Cut(ts, i, rest);
    assert Stops(vs, 5);
    AdditiveParses(low, ts[..i], vs);
    AdditiveParses(high, ts[i + 1..], rest);
    BetweenBounds(l, low, high, negated, ts + rest, vs, rest);
  }

  lemma {:induction false} BracketsParse(l: Expr, items: seq<Expr>, negated: bool, ts: Tokens, rest: Tokens)
    requires items != [] && Bracketed(items, ts)
    ensures InTail(l, negated, ts + rest) == Parsed(Negated(Membership(l, items), negated), rest)
    decreases |ts|, 59
  {
    var inner, close := ts[1..|ts| - 1], [Punct(CLOSE)] + rest;
    OpenClose(ts, rest);
    ListParses(5, items, inner, close);
    ListStarts(5, items, inner);
    ConsRead(Punct(CLOSE), rest);
    assert Cur(inner + close) == inner[0];
    InRead(l, items, negated, ts + rest, close);
  }

  lemma OpenClose(ts: Tokens, rest: Tokens)
    requires |ts| >= 2 && ts[0] == Punct(OPEN) && ts[|ts| - 1] == Punct(CLOSE)
    ensures Cur(ts + rest) == Punct(OPEN) && Next(ts + rest) == ts[1..|ts| - 1] + ([Punct(CLOSE)] + rest)
  {
  }

  lemma ListStarts(level: nat, es: seq<Expr>, ts: Tokens)
    requires 1 <= level <= 8 && Listed(level, es, ts)
    ensures ts != [] && (Starts(ts[0]) || ts[0] == Word(NOT))
  {
    if |es| == 1 {
      PhraseStarts(level, es[0], ts);
    } else {
      var i :| ListedAt(level, es, ts, i);
      PhraseStarts(level, es[0], ts[..i]);
    }
  }

  lemma {:induction false} ListParses(level: nat, es: seq<Expr>, ts: Tokens, rest: Tokens)
    requires (level == 1 || level == 5) && Listed(level, es, ts) && Cur(rest) == Punct(CLOSE)
    ensures ListAt(level, ts + rest) == ParsedList(es, rest)
    decreases |ts|, 50
  {
    ListUnfolds(ts + rest);
    hide Items, Arguments, ParseAt, TailAt, Phrase;
    if |es| == 1 {
      EndsHere(level, es[0], ts, rest);
      assert es == [es[0]];
    } else {
      var i :| ListedAt(level, es, ts, i);
      Cut(ts, i, rest);
      EndsHere(level, es[0], ts[..i], ts[i..] + rest);
      ListParses(level, es[1..], ts[i + 1..], rest);
      assert es == [es[0]] + es[1..];
    }
  }

  lemma {:induction false} EndsHere(level: nat, e: Expr, ts: Tokens, rest: Tokens)
    requires (level == 1 || level == 5) && Phrase(level, e, ts)
    requires Cur(rest) == Punct(CLOSE) || Cur(rest) == Punct(COMMA)
    ensures (if level == 1 then ParseOr(ts + rest) else ParseAdditive(ts + rest)) == Parsed(e, rest)
    decreases |ts|, 41
  {
    Parses(level, e, ts, rest);
    TailStops(level, e, rest);
  }

  lemma {:induction false} PrimaryParses(e: Expr, ts: Tokens, rest: Tokens)
    requires Primary(e, ts) && Stops(rest, 9)
    ensures ParsePrimary(ts + rest) == Parsed(e, rest)
    decreases |ts|, 11
  {
    StopsDot(rest);
    NotEmpty(8, e, ts);
    hide ParsePrimary, Primary, Stops, Phrase;
    if ts[0] == Punct(OPEN) {
      ParenthesesParse(e, ts, rest);
    } else if ts[0].Word? && ts[0].word.Function? {
      FunctionIsRead(e, ts, rest);
    } else {
      SimpleIsRead(e, ts, rest);
    }
  }

  lemma {:induction false} FunctionIsRead(e: Expr, ts: Tokens, rest: Tokens)
    requires ts != [] && Primary(e, ts) && ts[0].Word? && ts[0].word.Function?
    ensures ParsePrimary(ts + rest) == Parsed(e, rest)
    decreases |ts|, 10
  {
    CallOf(e, ts);
    Cut(ts, 0, rest);
    assert ts[0..] == ts;
    hide ParsePrimary, ParseFunc, Primary, Called;
    FunctionParses(ts + rest);
    CallParses(e, ts[1..], rest);
  }

  lemma CallOf(e: Expr, ts: Tokens)
    requires ts != [] && Primary(e, ts) && ts[0].Word? && ts[0].word.Function?
    ensures e.Func? && e.fname == ts[0].word.name && Called(e, ts[1..])
  {
    hide Called;
  }

  lemma StopsDot(rest: Tokens)
    requires Stops(rest, 9)
    ensures Cur(rest) != Punct(DOT)
  {
  }

  lemma FunctionParses(ts: Tokens)
    requires Cur(ts).Word? && Cur(ts).word.Function?
    ensures ParsePrimary(ts) == ParseFunc(Cur(ts).word.name, Next(ts))
  {
    hide ParseOr, ParseFunc, ParseColumn;
  }

  lemma {:induction false} ParenthesesParse(e: Expr, ts: Tokens, rest: Tokens)
    requires ts != [] && Primary(e, ts) && ts[0] == Punct(OPEN)
    ensures ParsePrimary(ts + rest) == Parsed(e, rest)
    decreases |ts|, 10
  {
    hide ParseOr, ParseFunc, ParseColumn, Phrase, Called;
    var inner, close := ts[1..|ts| - 1], [Punct(CLOSE)] + rest;
    OpenClose(ts, rest);
    EndsHere(1, e, inner, close);
    PhraseStarts(1, e, inner);
    assert Cur(inner + close) == inner[0];
    ConsRead(Punct(CLOSE), rest);
  }

  lemma SimpleIsRead(e: Expr, ts: Tokens, rest: Tokens)
    requires Primary(e, ts) && Cur(rest) != Punct(DOT)
    requires ts[0] != Punct(OPEN) && !(ts[0].Word? && ts[0].word.Function?)
    ensures ParsePrimary(ts + rest) == Parsed(e, rest)
  {
    hide ParseOr, ParseFunc, Phrase;
    if |ts| == 1 {
      assert ts == [ts[0]];
      ConsRead(ts[0], rest);
    } else {
      hide Reserved;
      var us := [ts[2]] + rest;
      var vs := [ts[1]] + us;
      assert ts + rest == [ts[0]] + vs;
      ConsRead(ts[2], rest);
      ConsRead(ts[1], us);
      ConsRead(ts[0], vs);
    }
  }

  lemma {:induction false} CallParses(e: Expr, ts: Tokens, rest: Tokens)
    requires e.Func? && Called(e, ts)
    ensures ParseFunc(e.fname, ts + rest) == Parsed(e, rest)
    decreases |ts|, 58
  {
    var inner, close := ts[1..|ts| - 1], [Punct(CLOSE)] + rest;
    OpenClose(ts, rest);
    assert inner != [] ==>
             Cur(inner + close) == inner[0] && (inner[0] != Eof ==> Next(inner + close) == inner[1..] + close);
    assert inner == [] ==> inner + close == close;
    hide FuncRest, Listed;
    CallInside(e, if e.distinct then inner[1..] else inner, rest);
  }

  lemma {:induction false} CallInside(e: Expr, us: Tokens, rest: Tokens)
    requires e.Func?
    requires if e.star then us == [Punct(STAR)] && e.args == []
             else if e.args == [] then us == [] else Listed(1, e.args, us)
    ensures FuncRest(e.fname, e.distinct, us + ([Punct(CLOSE)] + rest)) == Parsed(e, rest)
    decreases |us|, 57
  {
    hide Arguments;
    var close := [Punct(CLOSE)] + rest;
    ConsRead(Punct(CLOSE), rest);
    if e.star {
      ConsRead(Punct(STAR), close);
    } else if e.args == [] {
      assert us + close == close;
    } else {
      ListStarts(1, e.args, us);
      ListParses(1, e.args, us, close);
      assert Cur(us + close) == us[0];
    }
  }

  // ---- the parser and the grammar ----

  /** Before anything that cannot go on with it, the parser reads a tree off some tokens
      exactly if they are a phrase for it. */
  lemma ParsesExactly(level: nat, e: Expr, ts: Tokens, rest: Tokens)
    requires 1 <= level <= 8 && Stops(rest, level)
    ensures ParseAt(level, ts + rest) == Parsed(e, rest) <==> Phrase(level, e, ts)
  {
    hide ParseAt, TailAt, Phrase, Stops;
    LevelReads(level, ts + rest);
    NothingUsed(ts, rest);
    if Phrase(level, e, ts) {
      StopsMore(level, rest);
      Parses(level, e, ts, rest);
      TailStops(level, e, rest);
    }
  }

  /** No token sequence is a phrase for two trees. */
  lemma Unambiguous(level: nat, e: Expr, f: Expr, ts: Tokens)
    requires 1 <= level <= 8 && Phrase(level, e, ts) && Phrase(level, f, ts)
    ensures e == f
  {
    ParsesExactly(level, e, ts, []);
    ParsesExactly(level, f, ts, []);
  }

  // ---- the printer writes phrases ----

  lemma {:induction false} Loosens(n: nat, level: nat, e: Expr, ts: Tokens)
    requires 1 <= level <= n <= 8 && Phrase(n, e, ts) && ts != [] && Begins(ts[0], n)
    ensures Phrase(level, e, ts)
    decreases n - level
  {
    if level < n {
      Loosens(n, level + 1, e, ts);
      if level in {1, 2, 4, 5, 6} { PhraseUp(level, e, ts); }
    }
  }

  /** Whatever is printed is a phrase for the tree. */
  lemma {:induction false} PrintedIsPhrase(e: Expr, level: nat)
    requires Printable(e) && 1 <= level <= 8
    ensures Phrase(level, e, Print(e, level))
    decreases e, if Level(e) < level then 2 else 1
  {
    if Level(e) < level {
      PrintedIsPhrase(e, 1);
      var ts := [Punct(OPEN)] + Body(e) + [Punct(CLOSE)];
      assert ts[1..|ts| - 1] == Body(e);
      hide Body;
      assert Primary(e, ts);
      Loosens(8, level, e, ts);
    } else {
      BodyIsPhrase(e);
      BodyBegins(e, Level(e), []);
      assert Body(e) + [] == Body(e);
      Loosens(Level(e), level, e, Body(e));
    }
  }

  lemma {:induction false} BodyIsPhrase(e: Expr)
    requires Printable(e)
    ensures Phrase(Level(e), e, Body(e))
    decreases e, 0
  {
    match e
    case Un(op, x) => UnaryIsPhrase(op, x);
    case Bin(op, l, r) => if op == Between { BetweenIsPhrase(l, r, false); } else { BinaryIsPhrase(op, l, r); }
    case Func(name, args, distinct, star) => CallIsPhrase(name, args, distinct, star);
    case Query(_) =>
    case _ => SimpleIsPhrase(e);
  }

  lemma SimpleIsPhrase(e: Expr)
    requires Printable(e) && (e.Lit? || e.Col?)
    ensures Phrase(8, e, Body(e))
  {
    assert Primary(e, Body(e));
  }

  lemma {:induction false} UnaryIsPhrase(op: UnOp, x: Expr)
    requires Printable(Un(op, x))
    ensures Phrase(Level(Un(op, x)), Un(op, x), Body(Un(op, x)))
    decreases Un(op, x), 0, 0
  {
    var e := Un(op, x);
    if op == Not && IsBetween(x) {
      assert Printable(x) && x == Bin(Between, x.left, x.right);
      BetweenIsPhrase(x.left, x.right, true);
    } else {
      var n := if op == Neg then 7 else if op == Not then 3 else 4;
      PrintedIsPhrase(x, n);
      if op == IsNull {
        SuffixMakes(x, Print(x, 4), e, [Word(IS), Word(NULL)]);
      } else if op == IsNotNull {
        SuffixMakes(x, Print(x, 4), e, [Word(IS), Word(NOT), Word(NULL)]);
      } else {
        assert Body(e)[1..] == Print(x, n);
      }
    }
  }

  lemma SuffixMakes(l: Expr, pre: Tokens, e: Expr, ts: Tokens)
    requires Phrase(4, l, pre) && Suffix(l, e, ts)
    ensures Phrase(4, e, pre + ts)
  {
    NotEmpty(4, l, pre);
    var all := pre + ts;
    assert all[..|pre|] == pre && all[|pre|..] == ts;
  }

  lemma {:induction false} BetweenIsPhrase(l: Expr, b: Expr, negated: bool)
    requires Printable(l) && Printable(b) && b.Bin? && b.op == And
    ensures var e := Negated(Bin(Between, l, b), negated); Printable(e) && Phrase(4, e, Body(e))
    decreases Bin(Between, l, b), 0, 0
  {
    PrintedIsPhrase(l, 4);
    PrintedIsPhrase(b.left, 5);
    PrintedIsPhrase(b.right, 5);
    BoundsOperate(l, b, negated);
    BetweenBody(l, b, negated);
    hide Phrase, Suffix, Print, Bounds, Body;
    SuffixMakes(l, Print(l, 4), Negated(Bin(Between, l, b), negated),
                if negated then [Word(NOT)] + Bounds(b) else Bounds(b));
  }

  lemma BetweenBody(l: Expr, b: Expr, negated: bool)
    requires Printable(l) && Printable(b) && b.Bin? && b.op == And
    ensures var e := Negated(Bin(Between, l, b), negated);
      && Printable(e) && Level(e) == 4
      && Body(e) == Print(l, 4) + (if negated then [Word(NOT)] + Bounds(b) else Bounds(b))
  {
    hide Print, Bounds;
    assert Printable(Bin(Between, l, b));
  }

  lemma BoundsOperate(l: Expr, b: Expr, negated: bool)
    requires Printable(b) && b.Bin? && b.op == And
    requires Phrase(5, b.left, Print(b.left, 5)) && Phrase(5, b.right, Print(b.right, 5))
    ensures Suffix(l, Negated(Bin(Between, l, b), negated), if negated then [Word(NOT)] + Bounds(b) else Bounds(b))
  {
    hide Phrase, Print;
    var low, high, bounds := Print(b.left, 5), Print(b.right, 5), Bounds(b);
    var all := bounds[1..];
    assert all == low + [Word(AND)] + high;
    assert all[..|low|] == low && all[|low| + 1..] == high;
    assert BoundsAt(b.left, b.right, all, |low|);
    assert ([Word(NOT)] + bounds)[1..] == bounds;
    assert Operation(l, Negated(Bin(Between, l, b), negated), negated, bounds);
  }

  lemma {:induction false} BinaryIsPhrase(op: BinOp, l: Expr, r: Expr)
    requires Printable(Bin(op, l, r)) && op != Between
    ensures Phrase(Level(Bin(op, l, r)), Bin(op, l, r), Body(Bin(op, l, r)))
    decreases Bin(op, l, r), 0, 0
  {
    var n := Level(Bin(op, l, r));
    PrintedIsPhrase(l, n);
    PrintedIsPhrase(r, n + 1);
    BinaryBody(op, l, r);
    hide Phrase, Suffix, Print, Body, InfixAt;
    if n == 4 {
      ComparisonMade(op, l, r, Print(r, 5));
      SuffixMakes(l, Print(l, 4), Bin(op, l, r), Signs(op) + Print(r, 5));
    } else {
      InfixMade(n, op, l, r, Print(l, n), Print(r, n + 1));
    }
  }

  function Signs(op: BinOp): Tokens {
    if op == NotLike then [Word(NOT), Word(LIKE)] else [Sign(op)]
  }

  lemma BinaryBody(op: BinOp, l: Expr, r: Expr)
    requires Printable(Bin(op, l, r)) && op != Between
    ensures var n := Level(Bin(op, l, r)); Body(Bin(op, l, r)) == Print(l, n) + (Signs(op) + Print(r, n + 1))
  {
    hide Print;
  }

  lemma ComparisonMade(op: BinOp, l: Expr, r: Expr, right: Tokens)
    requires Level(Bin(op, l, r)) == 4 && op != Between && Phrase(5, r, right)
    ensures Suffix(l, Bin(op, l, r), Signs(op) + right)
  {
    hide Phrase;
    var ts := Signs(op) + right;
    var us := if op == NotLike then ts[1..] else ts;
    assert us[1..] == right;
    assert Operation(l, Bin(op, l, r), op == NotLike, us);
  }

  lemma InfixMade(n: nat, op: BinOp, l: Expr, r: Expr, left: Tokens, right: Tokens)
    requires n in {1, 2, 5, 6} && Level(Bin(op, l, r)) == n && Phrase(n, l, left) && Phrase(n + 1, r, right)
    ensures Phrase(n, Bin(op, l, r), left + (Signs(op) + right))
  {
    var all := left + (Signs(op) + right);
    assert all[..|left|] == left && all[|left|] == Sign(op) && all[|left| + 1..] == right;
    assert InfixAt(n, op, l, r, all, |left|);
  }

  lemma {:induction false} CallIsPhrase(name: Name, args: seq<Expr>, distinct: bool, star: bool)
    requires Printable(Func(name, args, distinct, star))
    ensures Phrase(8, Func(name, args, distinct, star), Body(Func(name, args, distinct, star)))
    decreases Func(name, args, distinct, star), 0, 0
  {
    if args != [] { ArgumentsListed(args); }
    CallBody(name, args, distinct, star);
    hide Phrase, Print, PrintArgs, Body, Listed;
    var e, inner := Func(name, args, distinct, star), Printed(args, distinct, star);
    var ts := [Punct(OPEN)] + inner + [Punct(CLOSE)];
    assert ts[1..|ts| - 1] == inner;
    InnerPrinted(e);
    CalledBy(e, ts);
    assert Body(e)[1..] == ts;
    CallIsPrimary(e, Body(e));
    IsPhrase(e, Body(e));
  }

  /** What the printer puts between the parentheses of a call. */
  function Printed(args: seq<Expr>, distinct: bool, star: bool): Tokens
    requires forall i :: 0 <= i < |args| ==> Printable(args[i])
  {
    (if distinct then [Word(DISTINCT)] else []) + (if star then [Punct(STAR)] else PrintArgs(args))
  }

  lemma CallBody(name: Name, args: seq<Expr>, distinct: bool, star: bool)
    requires Printable(Func(name, args, distinct, star))
    ensures Body(Func(name, args, distinct, star))
         == [Word(Function(name))] + ([Punct(OPEN)] + Printed(args, distinct, star) + [Punct(CLOSE)])
  {
    hide PrintArgs;
  }

  lemma InnerPrinted(e: Expr)
    requires e.Func? && Printable(e) && (forall i :: 0 <= i < |e.args| ==> Printable(e.args[i]))
    requires e.args != [] ==>
      Listed(1, e.args, PrintArgs(e.args)) && PrintArgs(e.args) != [] && Begins(PrintArgs(e.args)[0], 1)
    ensures Inner(e, Printed(e.args, e.distinct, e.star))
  {
    hide Listed;
    var rest := if e.star then [Punct(STAR)] else PrintArgs(e.args);
    var inner := Printed(e.args, e.distinct, e.star);
    assert if e.distinct then inner[1..] == rest else inner == rest;
  }

  lemma {:induction false} ArgumentsListed(args: seq<Expr>)
    requires args != [] && forall i :: 0 <= i < |args| ==> Printable(args[i])
    ensures Listed(1, args, PrintArgs(args)) && PrintArgs(args) != [] && Begins(PrintArgs(args)[0], 1)
    decreases args, 0
  {
    PrintedIsPhrase(args[0], 1);
    PrintBegins(args[0], 1, []);
    var first, all := Print(args[0], 1), PrintArgs(args);
    assert first + [] == first;
    if |args| > 1 {
      ArgumentsListed(args[1..]);
      assert all[..|first|] == first && all[|first| + 1..] == PrintArgs(args[1..]);
      assert ListedAt(1, args, all, |first|);
    }
  }

  /** Parsing what the printer wrote gives the tree back, at every level: what follows is
      taken up by the loop of that level as if the tree had just been read. */
  lemma RoundTrip(e: Expr, level: nat, ts: Tokens)
    requires Printable(e) && 1 <= level <= 8 && Stops(ts, level + 1)
    ensures ParseAt(level, Print(e, level) + ts) == TailAt(level, e, ts)
  {
    PrintedIsPhrase(e, level);
    Parses(level, e, Print(e, level), ts);
  }

  /** For every tree with a text and any tokens after it that do not go on with an
      operator: parsing the printed tree returns the tree and stops at its end. */
  lemma ParseInvertsPrint(e: Expr, ts: Tokens)
    requires Printable(e) && Stops(ts, 1)
    ensures ParseOr(Print(e, 1) + ts) == Parsed(e, ts)
  {
    PrintedIsPhrase(e, 1);
    ParsesExactly(1, e, Print(e, 1), ts);
  }

  /** A parsed tree survives being printed and parsed again. */
  lemma ReparseIsSame(us: Tokens, ts: Tokens)
    requires Lexed(us) && Stops(ts, 1) && ParseOr(us).Parsed?
    ensures Printable(ParseOr(us).e) && ParseOr(Print(ParseOr(us).e, 1) + ts) == Parsed(ParseOr(us).e, ts)
  {
    OrFine(us);
    ParseInvertsPrint(ParseOr(us).e, ts);
  }

  lemma {:induction false} ItemsListed(items: seq<Expr>)
    requires items != [] && forall i :: 0 <= i < |items| ==> Printable(items[i])
    ensures Listed(5, items, PrintItems(items))
    decreases |items|
  {
    PrintedIsPhrase(items[0], 5);
    var first, all := Print(items[0], 5), PrintItems(items);
    if |items| > 1 {
      ItemsListed(items[1..]);
      assert all[..|first|] == first && all[|first| + 1..] == PrintItems(items[1..]);
      assert ListedAt(5, items, all, |first|);
    }
  }

  function InList(items: seq<Expr>, negated: bool): Tokens
    requires items != [] && forall i :: 0 <= i < |items| ==> Printable(items[i])
  {
    var list := [Word(IN)] + ([Punct(OPEN)] + PrintItems(items) + [Punct(CLOSE)]);
    if negated then [Word(NOT)] + list else list
  }

  /** `l [NOT] IN (items)` is read as the OR of the equalities, negated or not, whatever
      follows. */
  lemma InListParses(l: Expr, items: seq<Expr>, negated: bool, ts: Tokens)
    requires Printable(l) && items != [] && forall i :: 0 <= i < |items| ==> Printable(items[i])
    ensures ParseComparison(Print(l, 4) + (InList(items, negated) + ts))
         == ComparisonTail(Negated(Membership(l, items), negated), ts)
  {
    var bracketed := [Punct(OPEN)] + PrintItems(items) + [Punct(CLOSE)];
    ItemsListed(items);
    assert bracketed[1..|bracketed| - 1] == PrintItems(items);
    BracketsParse(l, items, negated, bracketed, ts);
    InListTurn(l, items, negated, bracketed, ts);
    RoundTrip(l, 4, InList(items, negated) + ts);
  }

  lemma InListTurn(l: Expr, items: seq<Expr>, negated: bool, bracketed: Tokens, ts: Tokens)
    requires items != [] && forall i :: 0 <= i < |items| ==> Printable(items[i])
    requires bracketed == [Punct(OPEN)] + PrintItems(items) + [Punct(CLOSE)]
    requires InTail(l, negated, bracketed + ts) == Parsed(Negated(Membership(l, items), negated), ts)
    ensures ComparisonTail(l, InList(items, negated) + ts) == ComparisonTail(Negated(Membership(l, items), negated), ts)
    ensures Stops(InList(items, negated) + ts, 5)
  {
    var us := [Word(IN)] + (bracketed + ts);
    var vs := if negated then [Word(NOT)] + us else us;
    Regrouped([Word(IN)], bracketed, ts);
    Regrouped([Word(NOT)], [Word(IN)] + bracketed, ts);
    assert InList(items, negated) + ts == vs;
    hide *;
    ListBegins(negated, us, bracketed + ts);
    OperatorUnfolds(l, negated, us);
    ComparisonTurns(l, vs);
  }

  lemma Regrouped(a: Tokens, b: Tokens, c: Tokens)
    ensures a + b + c == a + (b + c)
  {
  }

  lemma ListBegins(negated: bool, us: Tokens, vs: Tokens)
    requires us == [Word(IN)] + vs
    ensures var ws := if negated then [Word(NOT)] + us else us;
      && Stops(ws, 5) && (Cur(ws) == Word(NOT) <==> negated) && (negated ==> Next(ws) == us)
      && Cur(us) == Word(IN) && Next(us) == vs
  {
    ConsRead(Word(IN), vs);
    ConsRead(Word(NOT), us);
  }

  // ---- forms that are never printed ----

  function Pluses(n: nat): Tokens {
    seq(n, _ => Punct(PLUS))
  }

  lemma {:induction false} PlusesAreSigns(n: nat, e: Expr, ts: Tokens)
    requires Phrase(7, e, ts)
    ensures Phrase(7, e, Pluses(n) + ts)
    decreases n
  {
    if n == 0 {
      assert Pluses(0) + ts == ts;
    } else {
      PlusesAreSigns(n - 1, e, ts);
      assert (Pluses(n) + ts)[1..] == Pluses(n - 1) + ts;
    }
  }

  /** Plus signs in front of a sign-level tree are read and mean nothing, however many. */
  lemma PlusMeansNothing(n: nat, e: Expr, rest: Tokens)
    requires Printable(e) && Stops(rest, 7)
    ensures ParseUnary(Pluses(n) + Print(e, 7) + rest) == Parsed(e, rest)
  {
    PrintedIsPhrase(e, 7);
    PlusesAreSigns(n, e, Print(e, 7));
    ParsesExactly(7, e, Pluses(n) + Print(e, 7), rest);
  }

  /** A keyword where an operand is wanted names a column exactly if it is NOT, DISTINCT or
      a plain one. */
  lemma WordAsColumn(k: Keyword, rest: Tokens)
    requires Cur(rest) != Punct(DOT)
    ensures var r := ParsePrimary([Word(k)] + rest);
      if k.Plain? then r == Parsed(Col(k.name, None), rest)
      else if k == NOT then r == Parsed(Col("NOT", None), rest)
      else if k == DISTINCT then r == Parsed(Col("DISTINCT", None), rest)
      else !(r.Parsed? && r.e.Col?)
  {
    var r := ParsePrimary([Word(k)] + rest);
    ParsesExactly(8, Col(Spelling(k), None), [Word(k)], rest);
    LevelReads(8, [Word(k)] + rest);
    if r.Parsed? {
      var used := Used([Word(k)] + rest, r.rest);
      NotEmpty(8, r.e, used);
      assert Primary(r.e, used) && used[0] == Word(k);
    }
  }

  /** Behind a table's name and a dot every keyword is a column. */
  lemma WordAfterDot(first: Token, k: Keyword, rest: Tokens)
    requires first.Ident? || (first.Word? && first.word.Plain?)
    ensures var table := if first.Ident? then first.name else first.word.name;
      && ParsePrimary([first, Punct(DOT), Word(k)] + rest) == Parsed(Col(Spelling(k), Some(table)), rest)
      && (k.Clause? || k.Plain? || k.Function? ==> Spelling(k) == k.name)
  {
    var us := [Word(k)] + rest;
    var vs := [Punct(DOT)] + us;
    var ts := [first, Punct(DOT), Word(k)] + rest;
    assert ts == [first] + vs && ts[1..] == vs;
    ConsRead(Word(k), rest);
    ConsRead(Punct(DOT), us);
    NameParses(ts);
    hide ParsePrimary;
  }

  /** The words of clauses and operators are errors where an operand is wanted, whatever
      follows. */
  lemma ReservedIsError(k: Keyword, rest: Tokens)
    requires k.Clause? || k in {OR, AND, LIKE, IN, BETWEEN, IS, SELECT}
    ensures forall level {:trigger ParseAt(level, [Word(k)] + rest)} :: 1 <= level <= 8 ==>
              ParseAt(level, [Word(k)] + rest) == Error
    ensures ParseOr([Word(k)] + rest) == Error
  {
    var ts := [Word(k)] + rest;
    forall level | 1 <= level <= 8 ensures ParseAt(level, ts) == Error {
      var r := ParseAt(level, ts);
      LevelReads(level, ts);
      if r.Parsed? { PhraseStarts(level, r.e, Used(ts, r.rest)); }
    }
    assert ParseAt(1, ts) == ParseOr(ts);
  }
}
