/** What SQL expressions mean on values: comparisons, arithmetic, BETWEEN, NULL tests, the
    spread of NULLs and errors, and names (minidb/engine/expressions.py). */
module Evaluation {
  import opened Basics
  import opened Expressions

  // ---- operands ----

  /** Both operands of a binary operator, as they evaluate. */
  predicate Operands(w: World, srcs: seq<Source>, rows: seq<Row>, l: Expr, r: Expr, a: Value, b: Value) {
    Eval(w, srcs, rows, l) == Done(a) && Eval(w, srcs, rows, r) == Done(b)
  }

  lemma Applied(w: World, srcs: seq<Source>, rows: seq<Row>, l: Expr, r: Expr, a: Value, b: Value)
    requires Operands(w, srcs, rows, l, r, a, b)
    ensures forall op :: op != Between ==> Eval(w, srcs, rows, Bin(op, l, r)) == ApplyBin(w, op, a, b)
  {
  }

  /** No operator looks away from an operand that raises: there is no short circuit. */
  lemma ErrorsSpread(w: World, srcs: seq<Source>, rows: seq<Row>, e: Expr)
    requires e.Un? || e.Bin?
    requires if e.Un? then Eval(w, srcs, rows, e.operand).Fail?
             else Eval(w, srcs, rows, e.left).Fail? || Eval(w, srcs, rows, e.right).Fail?
    ensures Eval(w, srcs, rows, e) == Fail
  {
  }

  /** NULL in, NULL out, for every operator but AND, OR, BETWEEN and the NULL tests. */
  lemma NullsSpread(w: World, srcs: seq<Source>, rows: seq<Row>, op: BinOp, l: Expr, r: Expr, a: Value, b: Value)
    requires Operands(w, srcs, rows, l, r, a, b) && (a.Null? || b.Null?) && op !in {And, Or, Between}
    ensures Eval(w, srcs, rows, Bin(op, l, r)) == Done(Null)
  {
  }

  lemma NullOperand(w: World, srcs: seq<Source>, rows: seq<Row>, e: Expr)
    requires Eval(w, srcs, rows, e) == Done(Null)
    ensures Eval(w, srcs, rows, Un(Neg, e)) == Done(Null) && Eval(w, srcs, rows, Un(Not, e)) == Done(Null)
    ensures forall args, distinct, star :: args != [] && args[0] == e ==>
              Eval(w, srcs, rows, Func("UPPER", args, distinct, star)) == Done(Null)
              && Eval(w, srcs, rows, Func("LOWER", args, distinct, star)) == Done(Null)
  {
  }

  /** The NULL tests decide, one the opposite of the other. */
  lemma NullTests(w: World, srcs: seq<Source>, rows: seq<Row>, e: Expr, v: Value)
    requires Eval(w, srcs, rows, e) == Done(v)
    ensures Holds(w, srcs, rows, Un(IsNull, e)) <==> v == Null
    ensures Holds(w, srcs, rows, Un(IsNotNull, e)) <==> v != Null
    ensures Eval(w, srcs, rows, Un(IsNotNull, e)) == Eval(w, srcs, rows, Un(Not, Un(IsNull, e)))
  {
  }

  // ---- comparisons ----

  predicate Compares(op: BinOp) {
    op == Eq || op == Ne || op == Lt || op == Le || op == Gt || op == Ge
  }

  lemma Compared(w: World, srcs: seq<Source>, rows: seq<Row>, op: BinOp, l: Expr, r: Expr, a: Value, b: Value)
    requires Operands(w, srcs, rows, l, r, a, b) && !a.Null? && !b.Null? && Compares(op)
    ensures Eval(w, srcs, rows, Bin(op, l, r)) == Compare(op, a, b)
  {
    hide Compare;
  }

  /** The same for arithmetic. */
  lemma Computed(w: World, srcs: seq<Source>, rows: seq<Row>, op: BinOp, l: Expr, r: Expr, a: Value, b: Value)
    requires Operands(w, srcs, rows, l, r, a, b) && !a.Null? && !b.Null?
    requires op == Add || op == Sub || op == Mul || op == Div
    ensures Eval(w, srcs, rows, Bin(op, l, r)) == Compute(w, op, a, b)
  {
    hide Compute;
  }

  /** The six comparisons of integers are the relations of integers. */
  lemma IntsCompare(w: World, srcs: seq<Source>, rows: seq<Row>, l: Expr, r: Expr, m: int, n: int)
    requires Operands(w, srcs, rows, l, r, Int(m), Int(n))
    ensures Eval(w, srcs, rows, Bin(Eq, l, r)) == Done(Bool(m == n))
    ensures Eval(w, srcs, rows, Bin(Ne, l, r)) == Done(Bool(m != n))
    ensures Eval(w, srcs, rows, Bin(Lt, l, r)) == Done(Bool(m < n))
    ensures Eval(w, srcs, rows, Bin(Le, l, r)) == Done(Bool(m <= n))
    ensures Eval(w, srcs, rows, Bin(Gt, l, r)) == Done(Bool(m > n))
    ensures Eval(w, srcs, rows, Bin(Ge, l, r)) == Done(Bool(m >= n))
  {
    hide Eval;
    Compared(w, srcs, rows, Eq, l, r, Int(m), Int(n));
    Compared(w, srcs, rows, Ne, l, r, Int(m), Int(n));
    Compared(w, srcs, rows, Lt, l, r, Int(m), Int(n));
    Compared(w, srcs, rows, Le, l, r, Int(m), Int(n));
    Compared(w, srcs, rows, Gt, l, r, Int(m), Int(n));
    Compared(w, srcs, rows, Ge, l, r, Int(m), Int(n));
  }

  /** `a` is a proper beginning of `b`, or smaller where they first differ. */
  ghost predicate Precedes(a: string, b: string) {
    exists i :: DiffersAt(a, b, i) && (i == |a| || (i < |b| && a[i] < b[i]))
  }

  ghost predicate DiffersAt(a: string, b: string, i: int) {
    && 0 <= i <= |a| && i <= |b| && a[..i] == b[..i] && !(i == |a| == |b|)
    && (i < |a| && i < |b| ==> a[i] != b[i])
  }

  lemma FirstChars(a: string, b: string, i: int)
    requires DiffersAt(a, b, i)
    ensures i > 0 ==> a != "" && b != "" && a[0] == b[0]
  {
    assert i > 0 ==> a[..i][0] == b[..i][0];
  }

  lemma {:induction false} BeforeExactly(a: string, b: string)
    ensures Before(a, b) <==> Precedes(a, b)
    decreases |a|
  {
    if a == "" || b == "" || a[0] != b[0] {
      assert a != b ==> DiffersAt(a, b, 0);
      if Precedes(a, b) {
        var i :| DiffersAt(a, b, i) && (i == |a| || (i < |b| && a[i] < b[i]));
        FirstChars(a, b, i);
      }
    } else {
      BeforeExactly(a[1..], b[1..]);
      if Before(a, b) {
        var i :| DiffersAt(a[1..], b[1..], i) && (i == |a[1..]| || (i < |b[1..]| && a[1..][i] < b[1..][i]));
        assert a[..i + 1] == [a[0]] + a[1..][..i] && b[..i + 1] == [b[0]] + b[1..][..i];
        assert DiffersAt(a, b, i + 1);
      }
      if Precedes(a, b) {
        var i :| DiffersAt(a, b, i) && (i == |a| || (i < |b| && a[i] < b[i]));
        assert i > 0;
        assert a[1..][..i - 1] == a[..i][1..] && b[1..][..i - 1] == b[..i][1..];
        assert DiffersAt(a[1..], b[1..], i - 1);
      }
    }
  }

  /** Any two different strings differ somewhere first, so one precedes the other. */
  lemma {:induction false} StringsOrdered(a: string, b: string)
    ensures a == b || Precedes(a, b) || Precedes(b, a)
    ensures !(Precedes(a, b) && Precedes(b, a)) && (Precedes(a, b) ==> a != b)
    decreases |a|
  {
    BeforeExactly(a, b);
    BeforeExactly(b, a);
    BeforeTotal(a, b);
  }

  lemma {:induction false} BeforeTotal(a: string, b: string)
    ensures a == b || Before(a, b) || Before(b, a)
    ensures !(Before(a, b) && Before(b, a)) && (Before(a, b) ==> a != b)
    decreases |a|
  {
    if a != "" && b != "" && a[0] == b[0] {
      BeforeTotal(a[1..], b[1..]);
      assert a == [a[0]] + a[1..] && b == [b[0]] + b[1..];
    }
  }

  /** Strings compare by their first difference. */
  lemma StringsCompare(w: World, srcs: seq<Source>, rows: seq<Row>, l: Expr, r: Expr, a: string, b: string)
    requires Operands(w, srcs, rows, l, r, Str(a), Str(b))
    ensures Eval(w, srcs, rows, Bin(Eq, l, r)) == Done(Bool(a == b))
    ensures Eval(w, srcs, rows, Bin(Ne, l, r)) == Done(Bool(a != b))
    ensures Eval(w, srcs, rows, Bin(Lt, l, r)) == Done(Bool(Precedes(a, b)))
    ensures Eval(w, srcs, rows, Bin(Le, l, r)) == Done(Bool(a == b || Precedes(a, b)))
    ensures Eval(w, srcs, rows, Bin(Gt, l, r)) == Done(Bool(Precedes(b, a)))
    ensures Eval(w, srcs, rows, Bin(Ge, l, r)) == Done(Bool(a == b || Precedes(b, a)))
  {
    BeforeExactly(a, b);
    BeforeExactly(b, a);
    StringsOrdered(a, b);
    hide Precedes, Before, Eval;
    Compared(w, srcs, rows, Eq, l, r, Str(a), Str(b));
    Compared(w, srcs, rows, Ne, l, r, Str(a), Str(b));
    Compared(w, srcs, rows, Lt, l, r, Str(a), Str(b));
    Compared(w, srcs, rows, Le, l, r, Str(a), Str(b));
    Compared(w, srcs, rows, Gt, l, r, Str(a), Str(b));
    Compared(w, srcs, rows, Ge, l, r, Str(a), Str(b));
  }

  /** A Boolean compares like 0 or 1, with integers too. */
  lemma BooleansCompare(w: World, srcs: seq<Source>, rows: seq<Row>, op: BinOp, l: Expr, r: Expr, b: bool)
    requires op in {Eq, Ne, Lt, Le, Gt, Ge} && Eval(w, srcs, rows, l) == Done(Bool(b))
    ensures Eval(w, srcs, rows, Bin(op, l, r)) == Eval(w, srcs, rows, Bin(op, Lit(Int(if b then 1 else 0)), r))
    ensures Eval(w, srcs, rows, Bin(op, r, l)) == Eval(w, srcs, rows, Bin(op, r, Lit(Int(if b then 1 else 0))))
  {
    var one := Int(if b then 1 else 0);
    var o := Eval(w, srcs, rows, r);
    if o.Done? {
      Applied(w, srcs, rows, l, r, Bool(b), o.value);
      Applied(w, srcs, rows, Lit(one), r, one, o.value);
      Applied(w, srcs, rows, r, l, o.value, Bool(b));
      Applied(w, srcs, rows, r, Lit(one), o.value, one);
      hide Eval;
      BooleanIsNumber(w, op, b, o.value);
    }
  }

  lemma BooleanIsNumber(w: World, op: BinOp, b: bool, v: Value)
    requires op in {Eq, Ne, Lt, Le, Gt, Ge}
    ensures ApplyBin(w, op, Bool(b), v) == ApplyBin(w, op, Int(if b then 1 else 0), v)
    ensures ApplyBin(w, op, v, Bool(b)) == ApplyBin(w, op, v, Int(if b then 1 else 0))
  {
    var one := Int(if b then 1 else 0);
    assert PyEq(Bool(b), v) == PyEq(one, v) && PyEq(v, Bool(b)) == PyEq(v, one);
    assert Less(Bool(b), v) == Less(one, v) && Less(v, Bool(b)) == Less(v, one);
    hide PyEq, Less, Num;
  }

  /** A string and an integer are different, and not ordered. */
  lemma MixedCompare(w: World, srcs: seq<Source>, rows: seq<Row>, l: Expr, r: Expr, a: string, n: int)
    requires Operands(w, srcs, rows, l, r, Str(a), Int(n)) || Operands(w, srcs, rows, l, r, Int(n), Str(a))
    ensures Eval(w, srcs, rows, Bin(Eq, l, r)) == Done(Bool(false))
    ensures Eval(w, srcs, rows, Bin(Ne, l, r)) == Done(Bool(true))
    ensures forall op :: op in {Lt, Le, Gt, Ge} ==> Eval(w, srcs, rows, Bin(op, l, r)) == Fail
  {
    var strFirst := Operands(w, srcs, rows, l, r, Str(a), Int(n));
    var x, y := if strFirst then Str(a) else Int(n), if strFirst then Int(n) else Str(a);
    hide Eval;
    Compared(w, srcs, rows, Eq, l, r, x, y);
    Compared(w, srcs, rows, Ne, l, r, x, y);
    Compared(w, srcs, rows, Lt, l, r, x, y);
    Compared(w, srcs, rows, Le, l, r, x, y);
    Compared(w, srcs, rows, Gt, l, r, x, y);
    Compared(w, srcs, rows, Ge, l, r, x, y);
  }

  // ---- BETWEEN ----

  function BetweenOf(v: Expr, low: Expr, high: Expr): Expr {
    Bin(Between, v, Bin(And, low, high))
  }

  function BothBounds(v: Expr, low: Expr, high: Expr): Expr {
    Bin(And, Bin(Le, low, v), Bin(Le, v, high))
  }

  /** The value is NULL or an integer. */
  predicate IntOrNull(v: Value) {
    v.Null? || v.Int?
  }

  /** On integers and NULLs `v BETWEEN low AND high` holds exactly if both bounds do, but it
      has the value of `low <= v AND v <= high` exactly unless one bound alone is NULL
      and the other is violated: then it is UNKNOWN where the AND is FALSE. */
  lemma BetweenIsBothBoundsExactly(w: World, srcs: seq<Source>, rows: seq<Row>, v: Expr, low: Expr, high: Expr,
                                   x: Value, a: Value, b: Value)
    requires IntOrNull(x) && IntOrNull(a) && IntOrNull(b)
    requires Eval(w, srcs, rows, v) == Done(x) && Operands(w, srcs, rows, low, high, a, b)
    ensures Holds(w, srcs, rows, BetweenOf(v, low, high)) <==> x.Int? && a.Int? && b.Int? && a.n <= x.n <= b.n
    ensures Holds(w, srcs, rows, BetweenOf(v, low, high)) <==> Holds(w, srcs, rows, BothBounds(v, low, high))
    ensures Eval(w, srcs, rows, BetweenOf(v, low, high)) == Eval(w, srcs, rows, BothBounds(v, low, high))
       <==> !(x.Int? && ((a.Int? && b.Null? && x.n < a.n) || (a.Null? && b.Int? && b.n < x.n)))
  {
    hide Eval;
    BetweenValue(w, srcs, rows, v, low, high, x, a, b);
    BoundsValue(w, srcs, rows, v, low, high, x, a, b);
  }

  lemma BetweenValue(w: World, srcs: seq<Source>, rows: seq<Row>, v: Expr, low: Expr, high: Expr, x: Value, a: Value,
                     b: Value)
    requires IntOrNull(x) && IntOrNull(a) && IntOrNull(b)
    requires Eval(w, srcs, rows, v) == Done(x) && Operands(w, srcs, rows, low, high, a, b)
    ensures Eval(w, srcs, rows, BetweenOf(v, low, high))
         == Done(if x.Int? && a.Int? && b.Int? then Bool(a.n <= x.n <= b.n) else Null)
  {
    var bounds := Bin(And, low, high);
    assert Eval(w, srcs, rows, bounds) == Done(Both(a, b));
  }

  lemma BoundsValue(w: World, srcs: seq<Source>, rows: seq<Row>, v: Expr, low: Expr, high: Expr, x: Value, a: Value,
                    b: Value)
    requires IntOrNull(x) && IntOrNull(a) && IntOrNull(b)
    requires Eval(w, srcs, rows, v) == Done(x) && Operands(w, srcs, rows, low, high, a, b)
    ensures Eval(w, srcs, rows, BothBounds(v, low, high))
         == Done(Both(if x.Int? && a.Int? then Bool(a.n <= x.n) else Null,
                      if x.Int? && b.Int? then Bool(x.n <= b.n) else Null))
  {
    var below, above := Bin(Le, low, v), Bin(Le, v, high);
    assert Eval(w, srcs, rows, below) == Done(if x.Int? && a.Int? then Bool(a.n <= x.n) else Null);
    assert Eval(w, srcs, rows, above) == Done(if x.Int? && b.Int? then Bool(x.n <= b.n) else Null);
  }

  /** `NOT (5 BETWEEN 6 AND NULL)` loses the row that `NOT (6 <= 5 AND 5 <= NULL)` keeps. */
  lemma NotBetweenLosesRow(w: World)
    ensures var v, low, high := Lit(Int(5)), Lit(Int(6)), Lit(Null);
      && !Holds(w, [], [], Un(Not, BetweenOf(v, low, high)))
      && Holds(w, [], [], Un(Not, BothBounds(v, low, high)))
  {
    BetweenValue(w, [], [], Lit(Int(5)), Lit(Int(6)), Lit(Null), Int(5), Int(6), Null);
    BoundsValue(w, [], [], Lit(Int(5)), Lit(Int(6)), Lit(Null), Int(5), Int(6), Null);
  }

  // ---- arithmetic ----

  /** Arithmetic on integers. */
  lemma IntsCompute(w: World, srcs: seq<Source>, rows: seq<Row>, l: Expr, r: Expr, m: int, n: int)
    requires Operands(w, srcs, rows, l, r, Int(m), Int(n))
    ensures Eval(w, srcs, rows, Bin(Add, l, r)) == Done(Int(m + n))
    ensures Eval(w, srcs, rows, Bin(Sub, l, r)) == Done(Int(m - n))
    ensures Eval(w, srcs, rows, Bin(Mul, l, r)) == Done(Int(m * n))
    ensures Eval(w, srcs, rows, Un(Neg, l)) == Done(Int(-m))
    ensures Eval(w, srcs, rows, Bin(Div, l, r)) == if n == 0 then Fail else Done(w.quotient(m, n))
  {
    Negates(w, srcs, rows, l, m);
    ComputesInts(w, m, n);
    hide Eval, Compute;
    Computed(w, srcs, rows, Add, l, r, Int(m), Int(n));
    Computed(w, srcs, rows, Sub, l, r, Int(m), Int(n));
    Computed(w, srcs, rows, Mul, l, r, Int(m), Int(n));
    Computed(w, srcs, rows, Div, l, r, Int(m), Int(n));
  }

  lemma ComputesInts(w: World, m: int, n: int)
    ensures Compute(w, Add, Int(m), Int(n)) == Done(Int(m + n))
    ensures Compute(w, Sub, Int(m), Int(n)) == Done(Int(m - n))
    ensures Compute(w, Mul, Int(m), Int(n)) == Done(Int(m * n))
    ensures Compute(w, Div, Int(m), Int(n)) == if n == 0 then Fail else Done(w.quotient(m, n))
  {
    hide Repeat;
  }

  lemma Negates(w: World, srcs: seq<Source>, rows: seq<Row>, e: Expr, m: int)
    requires Eval(w, srcs, rows, e) == Done(Int(m))
    ensures Eval(w, srcs, rows, Un(Neg, e)) == Done(Int(-m))
  {
  }

  /** Repeating once is the string itself, and times add up. */
  lemma {:induction false} RepeatMeans(s: string, m: nat, n: nat)
    ensures Repeat(s, 1) == s && Repeat(s, 0 - n) == ""
    ensures Repeat(s, m + n) == Repeat(s, m) + Repeat(s, n)
    decreases m
  {
    assert Repeat(s, 1) == s + Repeat(s, 0);
    if m > 0 {
      RepeatMeans(s, m - 1, n);
      assert Repeat(s, m + n) == s + Repeat(s, m - 1 + n);
    }
  }

  /** Strings: `+` joins two, `*` repeats one, as in Python; all else raises. */
  lemma StringsCompute(w: World, srcs: seq<Source>, rows: seq<Row>, op: BinOp, l: Expr, r: Expr, s: string, b: Value)
    requires op in {Add, Sub, Mul, Div} && !b.Null?
    requires Operands(w, srcs, rows, l, r, Str(s), b) || Operands(w, srcs, rows, l, r, b, Str(s))
    ensures Eval(w, srcs, rows, Bin(op, l, r)).Done? <==> (op == Add && b.Str?) || (op == Mul && !b.Str?)
    ensures op == Add && b.Str? && Operands(w, srcs, rows, l, r, Str(s), b) ==>
              Eval(w, srcs, rows, Bin(op, l, r)) == Done(Str(s + b.s))
    ensures op == Mul && b.Int? ==> Eval(w, srcs, rows, Bin(op, l, r)) == Done(Str(Repeat(s, b.n)))
  {
    if Operands(w, srcs, rows, l, r, Str(s), b) {
      Computed(w, srcs, rows, op, l, r, Str(s), b);
    } else {
      Computed(w, srcs, rows, op, l, r, b, Str(s));
    }
    hide Eval;
  }

  // ---- truth of other values ----

  /** NOT of any value: 0 and the empty string count as false. */
  lemma NotOf(w: World, srcs: seq<Source>, rows: seq<Row>, e: Expr, v: Value)
    requires Eval(w, srcs, rows, e) == Done(v)
    ensures Eval(w, srcs, rows, Un(Not, e)) ==
      match v
      case Null => Done(Null)
      case Bool(b) => Done(Bool(!b))
      case Int(n) => Done(Bool(n == 0))
      case Str(s) => Done(Bool(s == ""))
  {
  }

  /** AND and OR of integers, which are neither TRUE nor FALSE. */
  lemma IntsConnect(w: World, srcs: seq<Source>, rows: seq<Row>, l: Expr, r: Expr, m: int, n: int)
    requires Operands(w, srcs, rows, l, r, Int(m), Int(n))
    ensures Eval(w, srcs, rows, Bin(And, l, r)) == Done(Bool(m != 0 && n != 0))
    ensures Eval(w, srcs, rows, Bin(Or, l, r)) == Done(Bool(m != 0 || n != 0))
    ensures Eval(w, srcs, rows, Bin(And, l, Lit(Null))) == Done(Null)
    ensures Eval(w, srcs, rows, Bin(Or, l, Lit(Null))) == Done(Null)
  {
    Applied(w, srcs, rows, l, r, Int(m), Int(n));
    Applied(w, srcs, rows, l, Lit(Null), Int(m), Null);
  }

  /** AND, OR and NOT of truth values, in the order FALSE < UNKNOWN < TRUE. */
  lemma TruthsConnect(w: World, srcs: seq<Source>, rows: seq<Row>, l: Expr, r: Expr, a: Value, b: Value)
    requires Operands(w, srcs, rows, l, r, a, b) && IsTruth(a) && IsTruth(b)
    ensures TruthIn(w, srcs, rows, Bin(And, l, r)) && TruthIn(w, srcs, rows, Bin(Or, l, r))
    ensures Grade(Eval(w, srcs, rows, Bin(And, l, r)).value) == Min(Grade(a), Grade(b))
    ensures Grade(Eval(w, srcs, rows, Bin(Or, l, r)).value) == Max(Grade(a), Grade(b))
  {
    Applied(w, srcs, rows, l, r, a, b);
    ThreeValued(a, b);
    hide Eval;
  }

  /** A subquery has the value that running it on the current rows gives. */
  lemma SubqueryValue(w: World, srcs: seq<Source>, rows: seq<Row>, id: nat)
    ensures Eval(w, srcs, rows, Query(id)) == w.answer(id, srcs, rows)
  {
  }

  /** LIKE compares the texts of its operands; NOT LIKE is its negation. */
  lemma LikeOfTexts(w: World, srcs: seq<Source>, rows: seq<Row>, l: Expr, r: Expr, a: Value, b: Value)
    requires Operands(w, srcs, rows, l, r, a, b)
    ensures a.Str? && b.Str? && w.text(a) == a.s && w.text(b) == b.s ==>
              (Holds(w, srcs, rows, Bin(Like, l, r)) <==> w.like(a.s, b.s))
    ensures Eval(w, srcs, rows, Bin(NotLike, l, r)) == Eval(w, srcs, rows, Un(Not, Bin(Like, l, r)))
  {
  }

  /** UPPER and LOWER convert the text of their first argument; no other function is
      evaluated row by row. */
  lemma Functions(w: World, srcs: seq<Source>, rows: seq<Row>, name: Name, args: seq<Expr>, distinct: bool, star: bool)
    ensures Eval(w, srcs, rows, Func(name, args, distinct, star)).Done? ==>
              args != [] && name in {"UPPER", "LOWER"} && Eval(w, srcs, rows, args[0]).Done?
    ensures args != [] && Eval(w, srcs, rows, args[0]).Done? && Eval(w, srcs, rows, args[0]).value.Str? ==>
              var s := w.text(Eval(w, srcs, rows, args[0]).value);
              && Eval(w, srcs, rows, Func("UPPER", args, distinct, star)) == Done(Str(w.upper(s)))
              && Eval(w, srcs, rows, Func("LOWER", args, distinct, star)) == Done(Str(w.lower(s)))
  {
  }

  // ---- names ----

  /** Table `k` is the first that has the column, at place `c` of it first. */
  predicate FirstWith(srcs: seq<Source>, name: Name, k: nat, c: nat) {
    && k < |srcs| && c < |srcs[k].columns| && srcs[k].columns[c] == name
    && (forall i :: 0 <= i < c ==> srcs[k].columns[i] != name)
    && forall i :: 0 <= i < k ==> name !in srcs[i].columns
  }

  lemma FirstIndex(s: seq<Name>, x: Name, c: nat)
    requires c < |s| && s[c] == x && forall i :: 0 <= i < c ==> s[i] != x
    ensures IndexOf(s, x) == c
  {
    var i := IndexOf(s, x);
    assert forall j :: 0 <= j < i ==> s[j] in s[..i];
  }

  /** A bare name is the cell of the first table that has the column. */
  lemma {:induction false} BareName(w: World, srcs: seq<Source>, rows: seq<Row>, name: Name, k: nat, c: nat)
    requires FirstWith(srcs, name, k, c) && k < |rows| && c < |rows[k]|
    ensures Eval(w, srcs, rows, Col(name, None)) == Done(rows[k][c])
  {
    FirstIndex(srcs[k].columns, name, c);
    ColumnIsFirst(srcs, name, k);
  }

  lemma {:induction false} ColumnIsFirst(srcs: seq<Source>, name: Name, k: nat)
    requires k < |srcs| && name in srcs[k].columns && forall i :: 0 <= i < k ==> name !in srcs[i].columns
    ensures ColumnAt(srcs, name) == Some(k)
    decreases k
  {
    if k > 0 {
      assert srcs[1..][k - 1] == srcs[k];
      ColumnIsFirst(srcs[1..], name, k - 1);
    }
  }

  /** A qualified name is the cell of the last table of that alias. */
  lemma {:induction false} QualifiedName(w: World, srcs: seq<Source>, rows: seq<Row>, name: Name, alias: Name, k: nat,
                                         c: nat)
    requires k < |srcs| && srcs[k].alias == alias && forall i :: k < i < |srcs| ==> srcs[i].alias != alias
    requires c < |srcs[k].columns| && srcs[k].columns[c] == name
    requires forall i :: 0 <= i < c ==> srcs[k].columns[i] != name
    requires k < |rows| && c < |rows[k]|
    ensures Eval(w, srcs, rows, Col(name, Some(alias))) == Done(rows[k][c])
  {
    FirstIndex(srcs[k].columns, name, c);
    AliasIsLast(srcs, alias, k);
  }

  lemma {:induction false} AliasIsLast(srcs: seq<Source>, alias: Name, k: nat)
    requires k < |srcs| && srcs[k].alias == alias && forall i :: k < i < |srcs| ==> srcs[i].alias != alias
    ensures AliasAt(srcs, alias) == Some(k)
    decreases |srcs|
  {
    if k < |srcs| - 1 {
      assert srcs[..|srcs| - 1][k] == srcs[k];
      AliasIsLast(srcs[..|srcs| - 1], alias, k);
    }
  }

  /** A name that no table has raises. */
  lemma UnknownName(w: World, srcs: seq<Source>, rows: seq<Row>, name: Name, table: Option<Name>)
    requires forall i :: 0 <= i < |srcs| ==>
               name !in srcs[i].columns || (table.Some? && srcs[i].alias != table.value)
    ensures Eval(w, srcs, rows, Col(name, table)) == Fail
  {
  }

  // ---- conjuncts ----

  predicate IsAnd(e: Expr) {
    e.Bin? && e.op == And
  }

  /** Splitting leaves no AND on top of a conjunct. */
  lemma {:induction false} SplitIsFlat(e: Expr)
    ensures forall i :: 0 <= i < |Split(e)| ==> !IsAnd(Split(e)[i])
    decreases e
  {
    if IsAnd(e) {
      SplitIsFlat(e.left);
      SplitIsFlat(e.right);
    }
  }

  /** Splitting a chain gives back its members in order. */
  lemma {:induction false} SplitOfChain(cs: seq<Expr>)
    requires cs != [] && forall i :: 0 <= i < |cs| ==> !IsAnd(cs[i])
    ensures Split(Chain(cs)) == cs
    decreases |cs|
  {
    if |cs| > 1 {
      SplitOfChain(cs[..|cs| - 1]);
      assert cs == cs[..|cs| - 1] + [cs[|cs| - 1]];
    }
  }
}
